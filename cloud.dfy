/**
 * An in-memory stand-in for what the scripts reach through the `hcloud` and
 * `curl` commands: the project's servers and SSH keys, the public keys GitHub
 * serves per user, and an oracle that says which calls fail. Every command
 * the scripts run is one method of FakeCloud, specified by a function on the
 * State value it reads or replaces.
 */
module Cloud {
  import opened Dates
  import opened Validation

  const ManagedLabel: string := "managed-by"
  const ManagedValue: string := "dev-box-provisioner"
  const ServerLabel: string := "server"

  datatype Server = Server(id: nat, name: string, labels: map<string, string>, sshKey: string)

  datatype SshKey = SshKey(name: string, publicKey: string, labels: map<string, string>)

  /** How `hcloud server delete` names its target: by numeric id or by name. */
  datatype ServerRef = ById(id: nat) | ByName(name: string)

  /**
   * What the outside world answers. A failing list call yields no output;
   * a GitHub user missing from `githubKeys`, or mapped to empty text, is a
   * failed `curl`; the four sets name the create and delete calls that fail.
   */
  datatype Oracle = Oracle(
    serverListWorks: bool,
    keyListWorks: bool,
    githubKeys: map<string, string>,
    serverCreateFails: set<string>,
    keyCreateFails: set<string>,
    serverDeleteFails: set<ServerRef>,
    keyDeleteFails: set<string>)

  /** The project: servers by id, SSH keys by name, and the next id to hand out. */
  datatype State = State(servers: map<nat, Server>, keys: map<string, SshKey>, nextId: nat)

  /** Ids are the map keys and all below nextId; a non-empty server name is unique; keys are stored under their name. */
  predicate WellFormed(st: State) {
    (forall id :: id in st.servers ==> st.servers[id].id == id && id < st.nextId)
    && (forall i, j ::
          i in st.servers && j in st.servers && st.servers[i].name != "" && st.servers[i].name == st.servers[j].name
          ==> i == j)
    && (forall k :: k in st.keys ==> st.keys[k].name == k)
  }

  /** `b` extends `a`: every server and key of `a` is still there, unchanged, and no id is handed out twice. */
  predicate Grows(a: State, b: State) {
    (forall id :: id in a.servers ==> id in b.servers && b.servers[id] == a.servers[id])
    && (forall k :: k in a.keys ==> k in b.keys && b.keys[k] == a.keys[k])
    && a.nextId <= b.nextId
  }

  /** Carries the label `managed-by=dev-box-provisioner`. */
  predicate IsManaged(s: Server) {
    ManagedLabel in s.labels && s.labels[ManagedLabel] == ManagedValue
  }

  /** What `hcloud server list -l managed-by=dev-box-provisioner` reports. */
  function Managed(st: State): set<Server> {
    set id | id in st.servers && IsManaged(st.servers[id]) :: st.servers[id]
  }

  predicate NameTaken(st: State, name: string) {
    exists id :: id in st.servers && st.servers[id].name == name
  }

  predicate Matches(s: Server, ref: ServerRef) {
    match ref
    case ById(i) => s.id == i
    case ByName(n) => s.name == n
  }

  /** The servers whose name is not among `names`. */
  function WithoutNames(servers: map<nat, Server>, names: set<string>): map<nat, Server> {
    map id | id in servers && servers[id].name !in names :: servers[id]
  }

  lemma WithoutNamesTwice(servers: map<nat, Server>, a: set<string>, b: set<string>)
    ensures WithoutNames(WithoutNames(servers, a), b) == WithoutNames(servers, a + b)
  {
  }

  /** Deleting by one name removes exactly the servers of that name. */
  lemma DeleteByNameIsWithoutName(st: State, o: Oracle, n: string)
    ensures DeleteServerIn(st, o, ByName(n)).1 == (ByName(n) !in o.serverDeleteFails && NameTaken(st, n))
    ensures DeleteServerIn(st, o, ByName(n)).0
         == (if DeleteServerIn(st, o, ByName(n)).1 then State(WithoutNames(st.servers, {n}), st.keys, st.nextId) else st)
  {
  }

  /** Decimal digits of `n`, as hcloud prints an id. */
  function Decimal(n: nat): (r: string)
    ensures IsDigits(r)
  {
    if n < 10 then [DigitChar(n)] else Decimal(n / 10) + [DigitChar(n % 10)]
  }

  /** `hcloud server create`: fails on the oracle's say or when the name is taken; prints the new id. */
  function CreateServerIn(st: State, o: Oracle, name: string, keyName: string, labels: map<string, string>)
    : (r: (State, bool, string))
    ensures WellFormed(st) ==> WellFormed(r.0) && Grows(st, r.0)
    ensures r.0.keys == st.keys
    ensures r.1 <==> name !in o.serverCreateFails && !NameTaken(st, name)
    ensures WellFormed(st) && r.1 ==> st.nextId !in st.servers
    ensures r.1 ==> r.0.servers == st.servers[st.nextId := Server(st.nextId, name, labels, keyName)]
    ensures !r.1 ==> r.0 == st
  {
    if name in o.serverCreateFails || NameTaken(st, name) then (st, false, "")
    else
      var s := Server(st.nextId, name, labels, keyName);
      (State(st.servers[st.nextId := s], st.keys, st.nextId + 1), true, "Server " + Decimal(st.nextId) + " created")
  }

  /** `hcloud ssh-key create`: fails on the oracle's say or when the name is taken. */
  function CreateKeyIn(st: State, o: Oracle, name: string, publicKey: string): (r: (State, bool))
    ensures WellFormed(st) ==> WellFormed(r.0)
    ensures Grows(st, r.0) && r.0.servers == st.servers && r.0.nextId == st.nextId
    ensures r.1 <==> name !in o.keyCreateFails && name !in st.keys
    ensures r.0.keys == if r.1 then st.keys[name := SshKey(name, publicKey, map[])] else st.keys
  {
    if name in o.keyCreateFails || name in st.keys then (st, false)
    else (State(st.servers, st.keys[name := SshKey(name, publicKey, map[])], st.nextId), true)
  }

  /** `hcloud server delete`: fails on the oracle's say or when nothing matches. */
  function DeleteServerIn(st: State, o: Oracle, ref: ServerRef): (r: (State, bool))
    ensures WellFormed(st) ==> WellFormed(r.0)
    ensures r.1 <==> ref !in o.serverDeleteFails && exists id :: id in st.servers && Matches(st.servers[id], ref)
    ensures forall id :: id in r.0.servers <==> id in st.servers && !(r.1 && Matches(st.servers[id], ref))
    ensures forall id :: id in r.0.servers ==> r.0.servers[id] == st.servers[id]
    ensures r.0.keys == st.keys && r.0.nextId == st.nextId
  {
    if ref in o.serverDeleteFails || !exists id :: id in st.servers && Matches(st.servers[id], ref) then (st, false)
    else (State(map id | id in st.servers && !Matches(st.servers[id], ref) :: st.servers[id], st.keys, st.nextId), true)
  }

  /** `hcloud ssh-key delete`: fails on the oracle's say or when the key is missing. */
  function DeleteKeyIn(st: State, o: Oracle, name: string): (r: (State, bool))
    ensures WellFormed(st) ==> WellFormed(r.0)
    ensures r.1 <==> name !in o.keyDeleteFails && name in st.keys
    ensures forall k :: k in r.0.keys <==> k in st.keys && !(r.1 && k == name)
    ensures forall k :: k in r.0.keys ==> r.0.keys[k] == st.keys[k]
    ensures r.0.servers == st.servers && r.0.nextId == st.nextId
  {
    if name in o.keyDeleteFails || name !in st.keys then (st, false)
    else (State(st.servers, st.keys - {name}, st.nextId), true)
  }

  /** Names of the keys labelled `server=<server>`. */
  function KeysLabelled(keys: map<string, SshKey>, server: string): set<string> {
    set k | k in keys && ServerLabel in keys[k].labels && keys[k].labels[ServerLabel] == server
  }

  /** The elements of a finite set in some order, each once (the order a listing command happens to print). */
  method Enumerate<T(==)>(s: set<T>) returns (xs: seq<T>)
    ensures forall x :: x in xs <==> x in s
    ensures forall i, j :: 0 <= i < j < |xs| ==> xs[i] != xs[j]
  {
    var rest := s;
    xs := [];
    while rest != {}
      invariant rest <= s
      invariant forall x :: x in xs <==> x in s && x !in rest
      invariant forall i, j :: 0 <= i < j < |xs| ==> xs[i] != xs[j]
      decreases |rest|
    {
      var x :| x in rest;
      xs := xs + [x];
      rest := rest - {x};
    }
  }

  class FakeCloud {
    var servers: map<nat, Server>
    var keys: map<string, SshKey>
    var nextId: nat
    const oracle: Oracle

    function Snapshot(): State
      reads this
    {
      State(servers, keys, nextId)
    }

    predicate Valid()
      reads this
    {
      WellFormed(Snapshot())
    }

    constructor (initial: State, oracle: Oracle)
      requires WellFormed(initial)
      ensures Valid() && Snapshot() == initial && this.oracle == oracle
    {
      servers, keys, nextId := initial.servers, initial.keys, initial.nextId;
      this.oracle := oracle;
    }

    /** `hcloud server list -o json -l managed-by=dev-box-provisioner`. */
    method ListManaged() returns (ok: bool, listed: seq<Server>)
      ensures ok == oracle.serverListWorks
      ensures ok ==> forall s :: s in listed <==> s in Managed(Snapshot())
      ensures !ok ==> listed == []
      ensures forall i, j :: 0 <= i < j < |listed| ==> listed[i] != listed[j]
    {
      ok := oracle.serverListWorks;
      listed := [];
      if ok {
        listed := Enumerate(Managed(Snapshot()));
      }
    }

    /** `hcloud server list -o noheader -o columns=name | grep -x '<name>' || true` printed something. */
    method ServerNameListed(name: string) returns (found: bool)
      ensures found == (oracle.serverListWorks && NameTaken(Snapshot(), name))
    {
      found := oracle.serverListWorks && exists id :: id in servers && servers[id].name == name;
    }

    /** `hcloud ssh-key list -o noheader -o columns=name | grep -x '<name>' || true` printed something. */
    method KeyNameListed(name: string) returns (found: bool)
      ensures found == (oracle.keyListWorks && name in keys)
    {
      found := oracle.keyListWorks && name in keys;
    }

    /** `curl -sf https://github.com/<user>.keys`: fails, or prints non-empty text. */
    method FetchGithubKeys(user: string) returns (ok: bool, text: string)
      ensures ok == (user in oracle.githubKeys && oracle.githubKeys[user] != "")
      ensures ok ==> text == oracle.githubKeys[user]
    {
      ok := user in oracle.githubKeys && oracle.githubKeys[user] != "";
      text := if ok then oracle.githubKeys[user] else "";
    }

    method CreateKey(name: string, publicKey: string) returns (ok: bool)
      requires Valid()
      modifies this
      ensures Valid()
      ensures (Snapshot(), ok) == CreateKeyIn(old(Snapshot()), oracle, name, publicKey)
    {
      var r := CreateKeyIn(Snapshot(), oracle, name, publicKey);
      servers, keys, nextId, ok := r.0.servers, r.0.keys, r.0.nextId, r.1;
    }

    method CreateServer(name: string, keyName: string, labels: map<string, string>) returns (ok: bool, output: string)
      requires Valid()
      modifies this
      ensures Valid()
      ensures (Snapshot(), ok, output) == CreateServerIn(old(Snapshot()), oracle, name, keyName, labels)
    {
      var r := CreateServerIn(Snapshot(), oracle, name, keyName, labels);
      servers, keys, nextId, ok, output := r.0.servers, r.0.keys, r.0.nextId, r.1, r.2;
    }

    method DeleteServer(ref: ServerRef) returns (ok: bool)
      requires Valid()
      modifies this
      ensures Valid()
      ensures (Snapshot(), ok) == DeleteServerIn(old(Snapshot()), oracle, ref)
    {
      var r := DeleteServerIn(Snapshot(), oracle, ref);
      servers, keys, nextId, ok := r.0.servers, r.0.keys, r.0.nextId, r.1;
    }

    /** `hcloud ssh-key list -o noheader -o columns=name -l server=<server>`, one name per line. */
    method ListKeysLabelled(server: string) returns (names: seq<string>)
      ensures forall k :: k in names <==> oracle.keyListWorks && k in KeysLabelled(keys, server)
      ensures forall i, j :: 0 <= i < j < |names| ==> names[i] != names[j]
    {
      names := [];
      if oracle.keyListWorks {
        names := Enumerate(KeysLabelled(keys, server));
      }
    }

    method DeleteKey(name: string) returns (ok: bool)
      requires Valid()
      modifies this
      ensures Valid()
      ensures (Snapshot(), ok) == DeleteKeyIn(old(Snapshot()), oracle, name)
    {
      var r := DeleteKeyIn(Snapshot(), oracle, name);
      servers, keys, nextId, ok := r.0.servers, r.0.keys, r.0.nextId, r.1;
    }
  }
}
