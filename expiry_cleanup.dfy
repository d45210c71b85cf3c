/**
 * expiry-cleanup.py: delete every managed server whose `expires` label lies
 * before today, then the SSH keys labelled `server=<its name>`, and count the
 * servers deleted.
 */
module ExpiryCleanup {
  import opened Wrappers
  import opened Dates
  import opened Cloud
  import Validation

  const ExpiresLabel: string := "expires"

  /** What the loop decides about one listed server. */
  datatype Status = NoExpiryLabel | InvalidExpiry | StillValid | Expired

  /**
   * A missing or empty `expires` label skips the server; a label that
   * `strptime(expires, '%Y-%m-%d')` rejects skips it too; otherwise the
   * server expires when its date lies strictly before today.
   */
  function Classify(s: Server, today: Date): Status {
    if ExpiresLabel !in s.labels || s.labels[ExpiresLabel] == "" then NoExpiryLabel
    else
      match ParseDate(s.labels[ExpiresLabel])
      case None => InvalidExpiry
      case Some(d) => if Before(d, today) then Expired else StillValid
  }

  /** The listed server is expired and its delete call succeeds. */
  predicate Deleted(s: Server, o: Oracle, today: Date) {
    Classify(s, today) == Expired && ById(s.id) !in o.serverDeleteFails
  }

  /** Ids of the servers among `ss` that the loop deletes. */
  function DeletedIds(ss: seq<Server>, o: Oracle, today: Date): set<nat> {
    set s | s in ss && Deleted(s, o, today) :: s.id
  }

  /** Names of the servers among `ss` that the loop deletes. */
  function DeletedNames(ss: seq<Server>, o: Oracle, today: Date): set<string> {
    set s | s in ss && Deleted(s, o, today) :: s.name
  }

  /**
   * The keys the key cleanup removes after the servers named `names` are gone:
   * those labelled `server=<name>`, with a non-empty name, whose delete call
   * succeeds; none when the key listing fails.
   */
  function KeysGone(keys: map<string, SshKey>, o: Oracle, names: set<string>): set<string> {
    if !o.keyListWorks then {}
    else
      set k | k in keys && k != "" && k !in o.keyDeleteFails
                && ServerLabel in keys[k].labels && keys[k].labels[ServerLabel] in names
  }

  /** The ids of the managed servers the run deletes; none when the listing fails. */
  function Gone(st: State, o: Oracle, today: Date): set<nat> {
    if !o.serverListWorks then {}
    else set s | s in Managed(st) && Deleted(s, o, today) :: s.id
  }

  /** The names of the managed servers the run deletes. */
  function GoneNames(st: State, o: Oracle, today: Date): set<string> {
    if !o.serverListWorks then {}
    else set s | s in Managed(st) && Deleted(s, o, today) :: s.name
  }

  /**
   * `hcloud ssh-key list -l server=<name>` and `hcloud ssh-key delete` for each
   * non-empty name it prints; the results of the deletes are ignored.
   */
  method DeleteKeysOf(cloud: FakeCloud, name: string)
    requires cloud.Valid()
    modifies cloud
    ensures cloud.Valid()
    ensures cloud.keys == old(cloud.keys) - KeysGone(old(cloud.keys), cloud.oracle, {name})
    ensures cloud.servers == old(cloud.servers) && cloud.nextId == old(cloud.nextId)
  {
    var names := cloud.ListKeysLabelled(name);
    for j := 0 to |names|
      invariant cloud.Valid()
      invariant cloud.keys == old(cloud.keys) - (set k | k in names[..j] && k != "" && k !in cloud.oracle.keyDeleteFails)
      invariant cloud.servers == old(cloud.servers) && cloud.nextId == old(cloud.nextId)
    {
      var keyName := names[j];
      assert names[..j + 1] == names[..j] + [keyName];
      if keyName != "" {
        assert keyName in names;
        assert keyName !in names[..j];
        var _ := cloud.DeleteKey(keyName);
      }
    }
    assert names[..|names|] == names;
  }

  /** `main`: walk the listed managed servers, delete the expired ones by id with their keys, and count them. */
  method Cleanup(cloud: FakeCloud, today: Date) returns (deletedCount: nat)
    requires cloud.Valid()
    modifies cloud
    ensures cloud.Valid()
    ensures cloud.servers == old(cloud.servers) - Gone(old(cloud.Snapshot()), cloud.oracle, today)
    ensures cloud.keys
         == old(cloud.keys) - KeysGone(old(cloud.keys), cloud.oracle, GoneNames(old(cloud.Snapshot()), cloud.oracle, today))
    ensures cloud.nextId == old(cloud.nextId)
    ensures deletedCount == |Gone(old(cloud.Snapshot()), cloud.oracle, today)|
    ensures deletedCount == |old(cloud.servers)| - |cloud.servers|
  {
    deletedCount := 0;
    var ok, listed := cloud.ListManaged();
    if !ok {
      return;
    }
    ghost var orig := cloud.Snapshot();
    ListedAreStored(orig, listed);
    deletedCount := CleanupListed(cloud, listed, today);
    ListingCoversManaged(orig, cloud.oracle, today, listed);
    CountIsServersRemoved(orig, cloud.oracle, today);
  }

  /** The loop over the listed servers, with its `continue`s and the counter. */
  method CleanupListed(cloud: FakeCloud, listed: seq<Server>, today: Date) returns (deletedCount: nat)
    requires cloud.Valid()
    requires forall j :: 0 <= j < |listed| ==> listed[j].id in cloud.servers && cloud.servers[listed[j].id] == listed[j]
    requires forall a, b :: 0 <= a < b < |listed| ==> listed[a] != listed[b]
    modifies cloud
    ensures cloud.Valid()
    ensures cloud.servers == old(cloud.servers) - DeletedIds(listed, cloud.oracle, today)
    ensures cloud.keys == old(cloud.keys) - KeysGone(old(cloud.keys), cloud.oracle, DeletedNames(listed, cloud.oracle, today))
    ensures cloud.nextId == old(cloud.nextId)
    ensures deletedCount == |DeletedIds(listed, cloud.oracle, today)|
  {
    deletedCount := 0;
    ghost var orig := cloud.Snapshot();
    for i := 0 to |listed|
      invariant cloud.Valid()
      invariant cloud.servers == orig.servers - DeletedIds(listed[..i], cloud.oracle, today)
      invariant cloud.keys == orig.keys - KeysGone(orig.keys, cloud.oracle, DeletedNames(listed[..i], cloud.oracle, today))
      invariant cloud.nextId == orig.nextId
      invariant deletedCount == |DeletedIds(listed[..i], cloud.oracle, today)|
    {
      var server := listed[i];
      ghost var before := cloud.Snapshot();
      PendingServerPresent(orig, cloud.oracle, today, listed, i);
      if Classify(server, today) == Expired {
        DeleteByIdIsRemove(before, cloud.oracle, server.id);
        var deleted := cloud.DeleteServer(ById(server.id));
        if deleted {
          DeleteKeysOf(cloud, server.name);
          deletedCount := deletedCount + 1;
        }
      }
      DeletedOneMore(listed, i, cloud.oracle, today);
      CleanupStep(orig, cloud.oracle, server, Deleted(server, cloud.oracle, today),
                  DeletedIds(listed[..i], cloud.oracle, today), DeletedNames(listed[..i], cloud.oracle, today),
                  DeletedIds(listed[..i + 1], cloud.oracle, today), DeletedNames(listed[..i + 1], cloud.oracle, today),
                  before, cloud.Snapshot());
    }
    assert listed[..|listed|] == listed;
  }

  // ---------------------------------------------------------------------
  // Proof steps of the loop
  // ---------------------------------------------------------------------

  /** Every listed server is the one stored under its id, so distinct entries have distinct ids. */
  lemma ListedAreStored(st: State, listed: seq<Server>)
    requires WellFormed(st)
    requires forall s :: s in listed <==> s in Managed(st)
    ensures forall j :: 0 <= j < |listed| ==> listed[j].id in st.servers && st.servers[listed[j].id] == listed[j]
  {
    forall j | 0 <= j < |listed|
      ensures listed[j].id in st.servers && st.servers[listed[j].id] == listed[j]
    {
      assert listed[j] in Managed(st);
    }
  }

  /** Deleting by id removes exactly that id. */
  lemma DeleteByIdIsRemove(st: State, o: Oracle, id: nat)
    requires WellFormed(st) && id in st.servers
    ensures DeleteServerIn(st, o, ById(id)).1 == (ById(id) !in o.serverDeleteFails)
    ensures DeleteServerIn(st, o, ById(id)).0
         == (if ById(id) !in o.serverDeleteFails then State(st.servers - {id}, st.keys, st.nextId) else st)
  {
    assert Matches(st.servers[id], ById(id));
  }

  /** The server the loop reaches next has not been deleted by an earlier turn. */
  lemma PendingServerPresent(orig: State, o: Oracle, today: Date, listed: seq<Server>, i: nat)
    requires i < |listed|
    requires forall j :: 0 <= j < |listed| ==> listed[j].id in orig.servers && orig.servers[listed[j].id] == listed[j]
    requires forall a, b :: 0 <= a < b < |listed| ==> listed[a] != listed[b]
    ensures listed[i].id in orig.servers - DeletedIds(listed[..i], o, today)
  {
    forall s | s in listed[..i] ensures s.id != listed[i].id {
      var j :| 0 <= j < i && listed[j] == s;
      assert orig.servers[listed[j].id] == listed[j] != listed[i];
    }
  }

  /** One turn of the loop keeps its invariant, over the deleted ids and names before and after the turn. */
  lemma CleanupStep(orig: State, o: Oracle, s: Server, gone: bool,
                    ids: set<nat>, names: set<string>, ids': set<nat>, names': set<string>, before: State, after: State)
    requires s.id !in ids
    requires ids' == ids + (if gone then {s.id} else {})
    requires names' == names + (if gone then {s.name} else {})
    requires before.servers == orig.servers - ids
    requires before.keys == orig.keys - KeysGone(orig.keys, o, names)
    requires after == if gone
                      then State(before.servers - {s.id}, before.keys - KeysGone(before.keys, o, {s.name}), before.nextId)
                      else before
    ensures after.servers == orig.servers - ids'
    ensures after.keys == orig.keys - KeysGone(orig.keys, o, names')
    ensures |ids'| == |ids| + (if gone then 1 else 0)
  {
    if gone {
      MapMinusTwice(orig.servers, ids, {s.id});
      KeysGoneStep(orig.keys, o, names, s.name);
    }
  }

  /** The deleted ids and names grow by the next server exactly when it is deleted. */
  lemma DeletedOneMore(listed: seq<Server>, i: nat, o: Oracle, today: Date)
    requires i < |listed|
    ensures DeletedIds(listed[..i + 1], o, today)
         == DeletedIds(listed[..i], o, today) + (if Deleted(listed[i], o, today) then {listed[i].id} else {})
    ensures DeletedNames(listed[..i + 1], o, today)
         == DeletedNames(listed[..i], o, today) + (if Deleted(listed[i], o, today) then {listed[i].name} else {})
  {
    assert listed[..i + 1] == listed[..i] + [listed[i]];
  }

  /** Removing the keys of one more name, from what is left, is removing the keys of all the names. */
  lemma KeysGoneStep(keys: map<string, SshKey>, o: Oracle, names: set<string>, name: string)
    ensures var left := keys - KeysGone(keys, o, names);
            left - KeysGone(left, o, {name}) == keys - KeysGone(keys, o, names + {name})
  {
  }

  lemma MapMinusTwice<K, V>(m: map<K, V>, a: set<K>, b: set<K>)
    ensures (m - a) - b == m - (a + b)
  {
  }

  /** After the whole listing, the deleted ids and names are those of the managed servers. */
  lemma ListingCoversManaged(st: State, o: Oracle, today: Date, listed: seq<Server>)
    requires o.serverListWorks
    requires forall s :: s in listed <==> s in Managed(st)
    ensures DeletedIds(listed, o, today) == Gone(st, o, today)
    ensures DeletedNames(listed, o, today) == GoneNames(st, o, today)
  {
  }

  // ---------------------------------------------------------------------
  // Properties
  // ---------------------------------------------------------------------

  /** A server is expired exactly when its label parses as a date strictly before today. */
  lemma ExpiredExactly(s: Server, today: Date)
    ensures Classify(s, today) == Expired <==>
      ExpiresLabel in s.labels && ParseDate(s.labels[ExpiresLabel]).Some?
      && Before(ParseDate(s.labels[ExpiresLabel]).value, today)
  {
  }

  /** A server expiring today is reported as still valid. */
  lemma ExpiringTodayStillValid(s: Server, today: Date)
    requires IsValid(today)
    requires ExpiresLabel in s.labels && s.labels[ExpiresLabel] == FormatDate(today)
    ensures Classify(s, today) == StillValid
  {
    ParseFormatRoundTrip(today);
  }

  /** A server that expired yesterday is deleted (unless its delete call fails). */
  lemma ExpiredYesterday(s: Server, today: Date)
    requires IsValid(today) && today != Date(1, 1, 1)
    requires ExpiresLabel in s.labels && s.labels[ExpiresLabel] == FormatDate(PreviousDay(today))
    ensures Classify(s, today) == Expired
  {
    ParseFormatRoundTrip(PreviousDay(today));
  }

  /**
   * Which servers the run deletes: exactly the managed, expired ones whose
   * delete call succeeds. Unmanaged servers, servers without a usable label
   * and servers still valid survive.
   */
  lemma GoneExactly(st: State, o: Oracle, today: Date, id: nat)
    requires WellFormed(st) && id in st.servers
    ensures id in Gone(st, o, today) <==>
      o.serverListWorks && IsManaged(st.servers[id]) && Classify(st.servers[id], today) == Expired
      && ById(id) !in o.serverDeleteFails
  {
    if id in Gone(st, o, today) {
      var s :| s in Managed(st) && Deleted(s, o, today) && s.id == id;
      var j :| j in st.servers && IsManaged(st.servers[j]) && st.servers[j] == s;
      assert j == id;
    } else if o.serverListWorks && IsManaged(st.servers[id]) {
      assert st.servers[id] in Managed(st);
    }
  }

  /** `deleted_count` is the number of servers that disappeared. */
  lemma CountIsServersRemoved(st: State, o: Oracle, today: Date)
    requires WellFormed(st)
    ensures |st.servers - Gone(st, o, today)| == |st.servers| - |Gone(st, o, today)|
  {
    var gone := Gone(st, o, today);
    assert gone <= st.servers.Keys by {
      forall id | id in gone ensures id in st.servers {
        var s :| s in Managed(st) && Deleted(s, o, today) && s.id == id;
      }
    }
    MapMinusCard(st.servers, gone);
  }

  lemma MapMinusCard<K, V>(m: map<K, V>, g: set<K>)
    requires g <= m.Keys
    ensures |m - g| == |m| - |g|
  {
    assert (m - g).Keys == m.Keys - g;
    assert m.Keys == (m.Keys - g) + g;
    assert (m.Keys - g) * g == {};
  }

  /**
   * A key that provisioning creates carries no labels, so the key cleanup
   * here never removes it.
   */
  lemma ProvisionedKeyNotCleanedUp(st: State, o: Oracle, name: string, publicKey: string, o': Oracle, names: set<string>)
    requires CreateKeyIn(st, o, name, publicKey).1
    ensures name in CreateKeyIn(st, o, name, publicKey).0.keys
    ensures name !in KeysGone(CreateKeyIn(st, o, name, publicKey).0.keys, o', names)
  {
  }

  /**
   * A date of the right shape that is no calendar date, which the
   * provisioner's shape check admits, is never taken for an expiry.
   */
  lemma ImpossibleDateNeverExpires(s: Server, today: Date)
    requires ExpiresLabel in s.labels && Validation.HasDateShape(s.labels[ExpiresLabel])
    requires !IsValid(Validation.ShapeFields(s.labels[ExpiresLabel]))
    ensures Classify(s, today) == InvalidExpiry
  {
    Validation.ShapeAndParseAgree(s.labels[ExpiresLabel]);
  }
}
