/**
 * provision.py: read the desired entries, refuse an oversized file, then
 * walk the entries one by one, skipping the ones that fail validation or
 * already exist, ensuring the owner's SSH key and creating each server.
 */
module Provision {
  import opened Wrappers
  import opened Dates
  import opened Validation
  import opened Desired
  import opened Cloud

  datatype SkipReason = MissingField | InvalidKey | InvalidName | InvalidDate

  /**
   * What the checks at the top of the loop make of one entry. A `key` or
   * `name` that is truthy but not a string reaches `re.match` and raises
   * TypeError, which ends the whole run.
   */
  datatype Admission = Admitted(key: string, name: string, until: string) | Rejected(reason: SkipReason) | TypeError

  function Admit(e: Entry): Admission {
    var until := Stringified(e.until);
    if !(Truthy(e.key) && Truthy(e.name) && Truthy(until)) then Rejected(MissingField)
    else if !e.key.Text? then TypeError
    else if !IsValidIdentifier(e.key.s) then Rejected(InvalidKey)
    else if !e.name.Text? then TypeError
    else if !IsValidIdentifier(e.name.s) then Rejected(InvalidName)
    else if !IsValidDateShape(until.s) then Rejected(InvalidDate)
    else Admitted(e.key.s, e.name.s, until.s)
  }

  /** What the run reports for one entry. */
  datatype Outcome =
    | Skipped(reason: SkipReason)
    | AlreadyExists
    | KeysUnavailable
    | KeyCreateFailed
    | WouldCreate
    | CreateFailed
    | Created(serverId: Option<string>)

  /** The labels every created server carries. */
  function ServerLabels(key: string, until: string): map<string, string> {
    map[ManagedLabel := ManagedValue, "owner" := key, "expires" := until]
  }

  /** One admitted entry: existence check, key fetch, key reuse or creation, server creation, id parsing. */
  function BoxStep(st: State, o: Oracle, key: string, name: string, until: string, dryRun: bool): (r: (State, Outcome))
    ensures !r.1.Skipped?
  {
    if dryRun then (st, WouldCreate)
    else if o.serverListWorks && NameTaken(st, name) then (st, AlreadyExists)
    else if key !in o.githubKeys || o.githubKeys[key] == "" then (st, KeysUnavailable)
    else
      var keyName := SshKeyName(key);
      var (st1, keyOk) :=
        if o.keyListWorks && keyName in st.keys then (st, true)
        else CreateKeyIn(st, o, keyName, FirstLine(o.githubKeys[key]));
      if !keyOk then (st1, KeyCreateFailed)
      else
        var (st2, ok, output) := CreateServerIn(st1, o, name, keyName, ServerLabels(key, until));
        if ok then (st2, Created(ParseServerId(output))) else (st2, CreateFailed)
  }

  /** One entry of the loop; None when it raises TypeError. */
  function Step(st: State, o: Oracle, e: Entry, dryRun: bool): Option<(State, Outcome)> {
    match Admit(e)
    case TypeError => None
    case Rejected(r) => Some((st, Skipped(r)))
    case Admitted(k, n, u) => Some(BoxStep(st, o, k, n, u, dryRun))
  }

  datatype Run = Run(after: State, outcomes: seq<Outcome>, aborted: bool)

  /** The `for box in data` loop, from state `st`. */
  function ProvisionEntries(st: State, o: Oracle, data: seq<Entry>, dryRun: bool): Run
    decreases |data|
  {
    if data == [] then Run(st, [], false)
    else
      match Step(st, o, data[0], dryRun)
      case None => Run(st, [], true)
      case Some((st1, out)) =>
        var rest := ProvisionEntries(st1, o, data[1..], dryRun);
        Run(rest.after, [out] + rest.outcomes, rest.aborted)
  }

  datatype Result = Result(after: State, exitCode: int, outcomes: seq<Outcome>)

  /** `main` after the configuration is read: the empty-file exit, the quota gate, then the loop. */
  function ProvisionRun(st: State, o: Oracle, data: seq<Entry>, maxServers: int, dryRun: bool): Result {
    if |data| == 0 then Result(st, 0, [])
    else if |data| > maxServers then Result(st, 1, [])
    else
      var r := ProvisionEntries(st, o, data, dryRun);
      Result(r.after, if r.aborted then 1 else 0, r.outcomes)
  }

  // ---------------------------------------------------------------------
  // The script, over the fake cloud
  // ---------------------------------------------------------------------

  method ProvisionBox(cloud: FakeCloud, key: string, name: string, until: string) returns (outcome: Outcome)
    requires cloud.Valid()
    modifies cloud
    ensures cloud.Valid()
    ensures (cloud.Snapshot(), outcome) == BoxStep(old(cloud.Snapshot()), cloud.oracle, key, name, until, false)
  {
    var listed := cloud.ServerNameListed(name);
    if listed {
      return AlreadyExists;
    }
    var fetched, sshKeys := cloud.FetchGithubKeys(key);
    if !fetched {
      return KeysUnavailable;
    }
    var keyName := SshKeyName(key);
    var existingKey := cloud.KeyNameListed(keyName);
    if !existingKey {
      var keyOk := cloud.CreateKey(keyName, FirstLine(sshKeys));
      if !keyOk {
        return KeyCreateFailed;
      }
    }
    var ok, output := cloud.CreateServer(name, keyName, ServerLabels(key, until));
    if !ok {
      return CreateFailed;
    }
    outcome := Created(ParseServerId(output));
  }

  function Prepend(outs: seq<Outcome>, r: Run): Run {
    Run(r.after, outs + r.outcomes, r.aborted)
  }

  lemma EntriesUnfold(st: State, o: Oracle, data: seq<Entry>, i: nat, dryRun: bool, st1: State, out: Outcome, outs: seq<Outcome>)
    requires i < |data| && Step(st, o, data[i], dryRun) == Some((st1, out))
    ensures Prepend(outs, ProvisionEntries(st, o, data[i..], dryRun))
         == Prepend(outs + [out], ProvisionEntries(st1, o, data[i + 1..], dryRun))
  {
    assert data[i..][0] == data[i] && data[i..][1..] == data[i + 1..];
    assert outs + [out] + ProvisionEntries(st1, o, data[i + 1..], dryRun).outcomes
        == outs + ([out] + ProvisionEntries(st1, o, data[i + 1..], dryRun).outcomes);
  }

  method ProvisionBoxes(cloud: FakeCloud, data: seq<Entry>, maxServers: int, dryRun: bool)
    returns (exitCode: int, outcomes: seq<Outcome>)
    requires cloud.Valid()
    modifies cloud
    ensures cloud.Valid()
    ensures Result(cloud.Snapshot(), exitCode, outcomes) == ProvisionRun(old(cloud.Snapshot()), cloud.oracle, data, maxServers, dryRun)
  {
    outcomes := [];
    if |data| == 0 {
      return 0, [];
    }
    if |data| > maxServers {
      return 1, [];
    }
    var i := 0;
    while i < |data|
      invariant 0 <= i <= |data|
      invariant cloud.Valid()
      invariant ProvisionEntries(old(cloud.Snapshot()), cloud.oracle, data, dryRun)
                == Prepend(outcomes, ProvisionEntries(cloud.Snapshot(), cloud.oracle, data[i..], dryRun))
    {
      ghost var before := cloud.Snapshot();
      var a := Admit(data[i]);
      if a.TypeError? {
        assert ProvisionEntries(before, cloud.oracle, data[i..], dryRun) == Run(before, [], true) by {
          assert data[i..][0] == data[i];
        }
        return 1, outcomes;
      }
      var outcome;
      if a.Rejected? {
        outcome := Skipped(a.reason);
      } else if dryRun {
        outcome := WouldCreate;
      } else {
        outcome := ProvisionBox(cloud, a.key, a.name, a.until);
      }
      assert Step(before, cloud.oracle, data[i], dryRun) == Some((cloud.Snapshot(), outcome));
      EntriesUnfold(before, cloud.oracle, data, i, dryRun, cloud.Snapshot(), outcome, outcomes);
      outcomes := outcomes + [outcome];
      i := i + 1;
    }
    assert data[i..] == [];
    exitCode := 0;
  }

  // ---------------------------------------------------------------------
  // Properties of the run
  // ---------------------------------------------------------------------

  /** An entry is admitted exactly when both identifiers and the date shape pass; a missing or empty field skips it. */
  lemma AdmissionRules(e: Entry)
    ensures Admit(e).Admitted? <==>
      e.key.Text? && IsValidIdentifier(e.key.s) && e.name.Text? && IsValidIdentifier(e.name.s)
      && Stringified(e.until).Text? && IsValidDateShape(Stringified(e.until).s)
    ensures Admit(e).Admitted? ==> Admit(e) == Admitted(e.key.s, e.name.s, Stringified(e.until).s)
    ensures !Truthy(e.key) || !Truthy(e.name) || !Truthy(e.until) ==> Admit(e) == Rejected(MissingField)
    ensures Admit(e).TypeError? <==>
      Truthy(e.key) && Truthy(e.name) && Truthy(Stringified(e.until))
      && (!e.key.Text? || (IsValidIdentifier(e.key.s) && !e.name.Text?))
  {
  }

  /** A YAML date in `until` is turned into its ISO text and passes the date check. */
  lemma YamlDateUntilAdmitted(key: string, name: string, d: Date)
    requires IsValidIdentifier(key) && IsValidIdentifier(name) && IsValid(d)
    ensures Admit(Entry(Text(key), Text(name), Other(FormatDate(d), true, true))) == Admitted(key, name, FormatDate(d))
  {
    FormattedDateHasShape(d);
  }

  /** The shape check admits a date no calendar has. */
  lemma ImpossibleDateAdmitted()
    ensures Admit(Entry(Text("alice"), Text("dev1"), Text("2024-13-40"))) == Admitted("alice", "dev1", "2024-13-40")
  {
    ShapeAdmitsImpossibleDate();
    assert IsValidIdentifier("alice") by { assert WithoutFinalNewline("alice") == "alice"; }
    assert IsValidIdentifier("dev1") by { assert WithoutFinalNewline("dev1") == "dev1"; }
  }

  /** Outcome i belongs to entry i; a skipped entry does not stop the loop; only a TypeError does. */
  lemma {:induction false} OutcomesAligned(st: State, o: Oracle, data: seq<Entry>, dryRun: bool)
    ensures var r := ProvisionEntries(st, o, data, dryRun);
      && |r.outcomes| <= |data|
      && (r.aborted <==> |r.outcomes| < |data|)
      && (r.aborted ==> Admit(data[|r.outcomes|]).TypeError?)
      && (forall i :: 0 <= i < |r.outcomes| ==>
            !Admit(data[i]).TypeError?
            && (Admit(data[i]).Rejected? <==> r.outcomes[i].Skipped?)
            && (Admit(data[i]).Rejected? ==> r.outcomes[i] == Skipped(Admit(data[i]).reason)))
    decreases |data|
  {
    if data != [] {
      match Step(st, o, data[0], dryRun)
      case None =>
        assert Admit(data[0]).TypeError?;
      case Some((st1, out)) =>
        OutcomesAligned(st1, o, data[1..], dryRun);
        var rest := ProvisionEntries(st1, o, data[1..], dryRun);
        var r := ProvisionEntries(st, o, data, dryRun);
        assert r.outcomes == [out] + rest.outcomes && r.aborted == rest.aborted;
        var a := Admit(data[0]);
        assert !a.TypeError? && (a.Rejected? <==> out.Skipped?) && (a.Rejected? ==> out == Skipped(a.reason));
        forall i | 0 <= i < |r.outcomes|
          ensures !Admit(data[i]).TypeError?
            && (Admit(data[i]).Rejected? <==> r.outcomes[i].Skipped?)
            && (Admit(data[i]).Rejected? ==> r.outcomes[i] == Skipped(Admit(data[i]).reason))
        {
          if i > 0 {
            assert data[1..][i - 1] == data[i] && r.outcomes[i] == rest.outcomes[i - 1];
          }
        }
        if rest.aborted {
          assert data[1..][|rest.outcomes|] == data[|rest.outcomes| + 1];
        }
    }
  }

  /** An empty (null) file: exit 0 with nothing done. Over quota: exit 1 with nothing done. At or under quota the entries are processed. */
  lemma QuotaGate(st: State, o: Oracle, data: seq<Entry>, maxServers: int, dryRun: bool)
    ensures |data| == 0 ==> ProvisionRun(st, o, data, maxServers, dryRun) == Result(st, 0, [])
    ensures 0 < |data| && maxServers < |data| ==> ProvisionRun(st, o, data, maxServers, dryRun) == Result(st, 1, [])
    ensures 0 < |data| <= maxServers && (forall i :: 0 <= i < |data| ==> !Admit(data[i]).TypeError?) ==>
      var r := ProvisionRun(st, o, data, maxServers, dryRun);
      r.exitCode == 0 && |r.outcomes| == |data|
  {
    OutcomesAligned(st, o, data, dryRun);
  }

  /** A dry run changes nothing and reports every admitted entry as one it would create. */
  lemma {:induction false} DryRunChangesNothing(st: State, o: Oracle, data: seq<Entry>)
    ensures var r := ProvisionEntries(st, o, data, true);
      r.after == st && forall i :: 0 <= i < |r.outcomes| && i < |data| ==> (r.outcomes[i] == WouldCreate <==> Admit(data[i]).Admitted?)
    decreases |data|
  {
    if data != [] {
      match Step(st, o, data[0], true)
      case None =>
      case Some((st1, out)) =>
        DryRunChangesNothing(st1, o, data[1..]);
        assert forall i :: 1 <= i < |data| ==> data[1..][i - 1] == data[i];
    }
  }

  /** One admitted entry creates at most the server with the next id, reported with that id, and at most its owner's key. */
  lemma BoxStepEffect(st: State, o: Oracle, key: string, name: string, until: string, dryRun: bool)
    requires WellFormed(st)
    ensures var (st1, out) := BoxStep(st, o, key, name, until, dryRun);
      && WellFormed(st1) && Grows(st, st1)
      && (forall id :: id in st1.servers && id !in st.servers ==>
            id == st.nextId && out == Created(Some(Decimal(id)))
            && st1.servers[id] == Server(id, name, ServerLabels(key, until), SshKeyName(key)))
      && (out.Created? ==> st.nextId in st1.servers && st.nextId !in st.servers)
      && (forall k :: k in st1.keys && k !in st.keys ==>
            k == SshKeyName(key) && key in o.githubKeys && st1.keys[k] == SshKey(k, FirstLine(o.githubKeys[key]), map[])
            && k !in o.keyCreateFails)
  {
    if dryRun || (o.serverListWorks && NameTaken(st, name)) || key !in o.githubKeys || o.githubKeys[key] == "" {
      return;
    }
    var keyName := SshKeyName(key);
    var (st1, keyOk) :=
      if o.keyListWorks && keyName in st.keys then (st, true)
      else CreateKeyIn(st, o, keyName, FirstLine(o.githubKeys[key]));
    KeyStageEffect(st, o, keyName, FirstLine(o.githubKeys[key]), o.keyListWorks && keyName in st.keys);
    if keyOk {
      ServerStageEffect(st1, o, name, keyName, ServerLabels(key, until));
    }
  }

  /** The key stage: reuse or create `keyName`; nothing but that key is added. */
  lemma KeyStageEffect(st: State, o: Oracle, keyName: string, publicKey: string, reuse: bool)
    requires WellFormed(st)
    ensures var (st1, _) := if reuse then (st, true) else CreateKeyIn(st, o, keyName, publicKey);
      && WellFormed(st1) && Grows(st, st1) && st1.servers == st.servers && st1.nextId == st.nextId
      && (forall k :: k in st1.keys && k !in st.keys ==>
            k == keyName && st1.keys[k] == SshKey(k, publicKey, map[]) && k !in o.keyCreateFails)
  {
  }

  /** The server stage: on success exactly the server with the next id is added, and its id is what the output reports. */
  lemma ServerStageEffect(st: State, o: Oracle, name: string, keyName: string, labels: map<string, string>)
    requires WellFormed(st)
    ensures var (st2, ok, output) := CreateServerIn(st, o, name, keyName, labels);
      && st2.keys == st.keys
      && (ok ==> st.nextId !in st.servers
                 && st2.servers == st.servers[st.nextId := Server(st.nextId, name, labels, keyName)]
                 && ParseServerId(output) == Some(Decimal(st.nextId)))
      && (!ok ==> st2 == st)
  {
    if !(name in o.serverCreateFails || NameTaken(st, name)) {
      ServerIdFromCreateOutput(Decimal(st.nextId), " created");
    }
  }

  /** The project only grows, and every server name stays unique: nothing is deleted, nothing is created twice. */
  lemma {:induction false} NothingRemovedNothingDuplicated(st: State, o: Oracle, data: seq<Entry>, dryRun: bool)
    requires WellFormed(st)
    ensures var r := ProvisionEntries(st, o, data, dryRun);
      WellFormed(r.after) && Grows(st, r.after)
    decreases |data|
  {
    if data != [] {
      match Step(st, o, data[0], dryRun)
      case None =>
      case Some((st1, out)) =>
        if Admit(data[0]).Admitted? {
          var a := Admit(data[0]);
          BoxStepEffect(st, o, a.key, a.name, a.until, dryRun);
        }
        NothingRemovedNothingDuplicated(st1, o, data[1..], dryRun);
    }
  }

  // ---------------------------------------------------------------------
  // Running the same file again
  // ---------------------------------------------------------------------

  /** Every key in `b` but not in `a` is one whose creation the oracle lets through. */
  ghost predicate NewKeysCreatable(a: State, b: State, o: Oracle) {
    forall k :: k in b.keys && k !in a.keys ==> k !in o.keyCreateFails
  }

  /** A run only adds keys whose creation succeeded. */
  lemma {:induction false} RunKeysCreatable(st: State, o: Oracle, data: seq<Entry>, dryRun: bool)
    requires WellFormed(st)
    ensures NewKeysCreatable(st, ProvisionEntries(st, o, data, dryRun).after, o)
    decreases |data|
  {
    if data != [] {
      match Step(st, o, data[0], dryRun)
      case None =>
      case Some((st1, out)) =>
        if Admit(data[0]).Admitted? {
          var a := Admit(data[0]);
          BoxStepEffect(st, o, a.key, a.name, a.until, dryRun);
        }
        RunKeysCreatable(st1, o, data[1..], dryRun);
    }
  }

  /**
   * Re-running one admitted record against a project `f` that already holds
   * what the first run of that record produced from `a` changes nothing and
   * creates no server: the name is taken, or the key or server creation that
   * failed before fails again.
   */
  lemma RerunBoxStable(a: State, f: State, o: Oracle, key: string, name: string, until: string)
    requires WellFormed(a) && WellFormed(f) && Grows(a, f)
    requires Grows(BoxStep(a, o, key, name, until, false).0, f)
    requires NewKeysCreatable(a, f, o)
    ensures BoxStep(f, o, key, name, until, false).0 == f
    ensures !BoxStep(f, o, key, name, until, false).1.Created?
  {
    if (o.serverListWorks && NameTaken(f, name)) || key !in o.githubKeys || o.githubKeys[key] == "" {
      return;
    }
    var keyName := SshKeyName(key);
    FirstRunLeaves(a, f, o, key, name, until);
    var (f1, keyOk) :=
      if o.keyListWorks && keyName in f.keys then (f, true)
      else CreateKeyIn(f, o, keyName, FirstLine(o.githubKeys[key]));
    assert f1 == f;
    if keyOk {
      assert !CreateServerIn(f, o, name, keyName, ServerLabels(key, until)).1;
    }
  }

  /**
   * What the first run of a record that got past the existence check and the
   * key fetch leaves in any `f` grown from it: the owner's key, unless its
   * creation fails; and, once the key is there to reuse, the server's name,
   * unless its creation fails.
   */
  lemma FirstRunLeaves(a: State, f: State, o: Oracle, key: string, name: string, until: string)
    requires WellFormed(a) && Grows(a, f)
    requires Grows(BoxStep(a, o, key, name, until, false).0, f)
    requires NewKeysCreatable(a, f, o)
    requires !(o.serverListWorks && NameTaken(f, name)) && key in o.githubKeys && o.githubKeys[key] != ""
    ensures SshKeyName(key) in f.keys || SshKeyName(key) in o.keyCreateFails
    ensures o.keyListWorks && SshKeyName(key) in f.keys ==> NameTaken(f, name) || name in o.serverCreateFails
  {
    var keyName := SshKeyName(key);
    var (a1, keyOk) :=
      if o.keyListWorks && keyName in a.keys then (a, true)
      else CreateKeyIn(a, o, keyName, FirstLine(o.githubKeys[key]));
    if keyOk {
      assert keyName in a1.keys;
      var (a2, ok, _) := CreateServerIn(a1, o, name, keyName, ServerLabels(key, until));
      assert BoxStep(a, o, key, name, until, false).0 == a2;
      if ok {
        assert a2.servers[a1.nextId].name == name;
      } else if NameTaken(a1, name) {
        var id :| id in a1.servers && a1.servers[id].name == name;
        assert id in f.servers && f.servers[id].name == name;
      }
    }
  }

  /**
   * The loop re-run from `f`, a project that contains the outcome of the run
   * from `a` and whose extra keys were all creatable, leaves `f` as it is,
   * creates no server and aborts exactly when the first run did.
   */
  lemma {:induction false} RerunStable(a: State, f: State, o: Oracle, data: seq<Entry>)
    requires WellFormed(a) && WellFormed(f) && Grows(a, f)
    requires Grows(ProvisionEntries(a, o, data, false).after, f)
    requires NewKeysCreatable(a, f, o)
    ensures var r := ProvisionEntries(f, o, data, false);
      && r.after == f
      && r.aborted == ProvisionEntries(a, o, data, false).aborted
      && forall i :: 0 <= i < |r.outcomes| ==> !r.outcomes[i].Created?
    decreases |data|
  {
    if data != [] {
      match Step(a, o, data[0], false)
      case None =>
      case Some((a1, out)) =>
        if Admit(data[0]).Admitted? {
          var e := Admit(data[0]);
          BoxStepEffect(a, o, e.key, e.name, e.until, false);
        }
        NothingRemovedNothingDuplicated(a1, o, data[1..], false);
        GrowsTransitive(a1, ProvisionEntries(a1, o, data[1..], false).after, f);
        RerunStable(a1, f, o, data[1..]);
        if Admit(data[0]).Admitted? {
          var e := Admit(data[0]);
          RerunBoxStable(a, f, o, e.key, e.name, e.until);
        }
        var rest := ProvisionEntries(f, o, data[1..], false);
        var out' := Step(f, o, data[0], false).value.1;
        assert ProvisionEntries(f, o, data, false).outcomes == [out'] + rest.outcomes;
    }
  }

  lemma GrowsTransitive(a: State, b: State, c: State)
    requires Grows(a, b) && Grows(b, c)
    ensures Grows(a, c)
  {
  }

  /**
   * Idempotency: provisioning the same file a second time, with the outside
   * world answering as before, changes nothing, creates no server and exits
   * with the same code.
   */
  lemma ProvisionIdempotent(st: State, o: Oracle, data: seq<Entry>, maxServers: int)
    requires WellFormed(st)
    ensures var r1 := ProvisionRun(st, o, data, maxServers, false);
      var r2 := ProvisionRun(r1.after, o, data, maxServers, false);
      && r2.after == r1.after
      && r2.exitCode == r1.exitCode
      && forall i :: 0 <= i < |r2.outcomes| ==> !r2.outcomes[i].Created?
  {
    if 0 < |data| <= maxServers {
      var f := ProvisionEntries(st, o, data, false).after;
      NothingRemovedNothingDuplicated(st, o, data, false);
      RunKeysCreatable(st, o, data, false);
      RerunStable(st, f, o, data);
    }
  }

  /** Entry i was admitted, reported server `id` as created, and that server carries the entry's name, labels and key. */
  ghost predicate ServerFromEntry(data: seq<Entry>, r: Run, i: int, id: nat) {
    && 0 <= i < |r.outcomes| && i < |data| && id in r.after.servers
    && var a := Admit(data[i]);
    && a.Admitted?
    && r.outcomes[i] == Created(Some(Decimal(id)))
    && r.after.servers[id] == Server(id, a.name, ServerLabels(a.key, a.until), SshKeyName(a.key))
  }

  lemma ServerFromLaterEntry(data: seq<Entry>, r: Run, rest: Run, out: Outcome, j: int, id: nat)
    requires |data| > 0 && r == Run(rest.after, [out] + rest.outcomes, rest.aborted)
    requires ServerFromEntry(data[1..], rest, j, id)
    ensures ServerFromEntry(data, r, j + 1, id)
  {
    assert data[1..][j] == data[j + 1];
  }

  /**
   * Every server the run adds is the server of an admitted entry, carrying
   * its name, the managed-by, owner and expires labels and the owner's key,
   * and that entry reports it as created with its id.
   */
  lemma {:induction false} CreatedServersMatchEntries(st: State, o: Oracle, data: seq<Entry>, dryRun: bool)
    requires WellFormed(st)
    ensures var r := ProvisionEntries(st, o, data, dryRun);
      forall id :: id in r.after.servers && id !in st.servers ==> exists i :: ServerFromEntry(data, r, i, id)
    decreases |data|
  {
    if data != [] {
      match Step(st, o, data[0], dryRun)
      case None =>
      case Some((st1, out)) =>
        var r := ProvisionEntries(st, o, data, dryRun);
        var rest := ProvisionEntries(st1, o, data[1..], dryRun);
        if Admit(data[0]).Admitted? {
          var a := Admit(data[0]);
          BoxStepEffect(st, o, a.key, a.name, a.until, dryRun);
        }
        NothingRemovedNothingDuplicated(st1, o, data[1..], dryRun);
        CreatedServersMatchEntries(st1, o, data[1..], dryRun);
        forall id | id in r.after.servers && id !in st.servers
          ensures exists i :: ServerFromEntry(data, r, i, id)
        {
          if id in st1.servers {
            assert ServerFromEntry(data, r, 0, id);
          } else {
            var j :| ServerFromEntry(data[1..], rest, j, id);
            ServerFromLaterEntry(data, r, rest, out, j, id);
          }
        }
    }
  }

  /** Entry i was admitted, and key `k` is its user's `<user>-github-key` holding the first line of the user's GitHub keys. */
  ghost predicate KeyFromEntry(o: Oracle, data: seq<Entry>, r: Run, i: int, k: string) {
    && 0 <= i < |r.outcomes| && i < |data| && k in r.after.keys
    && var a := Admit(data[i]);
    && a.Admitted? && k == SshKeyName(a.key) && a.key in o.githubKeys
    && r.after.keys[k] == SshKey(k, FirstLine(o.githubKeys[a.key]), map[])
  }

  lemma KeyFromLaterEntry(o: Oracle, data: seq<Entry>, r: Run, rest: Run, out: Outcome, j: int, k: string)
    requires |data| > 0 && r == Run(rest.after, [out] + rest.outcomes, rest.aborted)
    requires KeyFromEntry(o, data[1..], rest, j, k)
    ensures KeyFromEntry(o, data, r, j + 1, k)
  {
    assert data[1..][j] == data[j + 1];
  }

  /** Every SSH key the run adds belongs to the user of an admitted entry. */
  lemma {:induction false} CreatedKeysMatchEntries(st: State, o: Oracle, data: seq<Entry>, dryRun: bool)
    requires WellFormed(st)
    ensures var r := ProvisionEntries(st, o, data, dryRun);
      forall k :: k in r.after.keys && k !in st.keys ==> exists i :: KeyFromEntry(o, data, r, i, k)
    decreases |data|
  {
    if data != [] {
      match Step(st, o, data[0], dryRun)
      case None =>
      case Some((st1, out)) =>
        var r := ProvisionEntries(st, o, data, dryRun);
        var rest := ProvisionEntries(st1, o, data[1..], dryRun);
        if Admit(data[0]).Admitted? {
          var a := Admit(data[0]);
          BoxStepEffect(st, o, a.key, a.name, a.until, dryRun);
        }
        NothingRemovedNothingDuplicated(st1, o, data[1..], dryRun);
        CreatedKeysMatchEntries(st1, o, data[1..], dryRun);
        forall k | k in r.after.keys && k !in st.keys
          ensures exists i :: KeyFromEntry(o, data, r, i, k)
        {
          if k in st1.keys {
            assert KeyFromEntry(o, data, r, 0, k);
          } else {
            var j :| KeyFromEntry(o, data[1..], rest, j, k);
            KeyFromLaterEntry(o, data, r, rest, out, j, k);
          }
        }
    }
  }

  /** A server that exists before the run is still there, unchanged, and is the only one with its name afterwards. */
  lemma ExistingServerNeverDuplicated(st: State, o: Oracle, data: seq<Entry>, maxServers: int, dryRun: bool, id: nat)
    requires WellFormed(st) && id in st.servers && st.servers[id].name != ""
    ensures var after := ProvisionRun(st, o, data, maxServers, dryRun).after;
      id in after.servers && after.servers[id] == st.servers[id]
      && forall j :: j in after.servers && after.servers[j].name == st.servers[id].name ==> j == id
  {
    NothingRemovedNothingDuplicated(st, o, data, dryRun);
  }

  /** In a real run, an entry whose name the server list shows is skipped before anything is created. */
  lemma ListedNameSkipped(st: State, o: Oracle, e: Entry)
    requires o.serverListWorks && Admit(e).Admitted? && NameTaken(st, Admit(e).name)
    ensures Step(st, o, e, false) == Some((st, AlreadyExists))
  {
  }

  /** When the key list shows `<user>-github-key`, the key is reused and no key is created. */
  lemma ListedKeyReused(st: State, o: Oracle, e: Entry)
    requires Admit(e).Admitted? && o.keyListWorks && SshKeyName(Admit(e).key) in st.keys
    ensures Step(st, o, e, false).Some? && Step(st, o, e, false).value.0.keys == st.keys
  {
  }
}
