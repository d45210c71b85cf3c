/**
 * teardown.py: delete every managed server whose name is not in the
 * desired-state file. Expiry dates play no part.
 */
module Teardown {
  import opened Desired
  import opened Cloud

  /**
   * The desired names: every entry's truthy `name`. A name that is not a YAML
   * string never equals a server name (those are JSON strings), so only
   * string names are kept.
   */
  function DesiredNames(data: seq<Entry>): set<string> {
    set e | e in data && e.name.Text? && e.name.s != "" :: e.name.s
  }

  /** The listed managed servers' names; a server without a name is left out. */
  function ManagedNames(listed: set<Server>): set<string> {
    set s | s in listed && s.name != "" :: s.name
  }

  /** `to_delete = managed_names - current_names`. */
  function Unlisted(data: seq<Entry>, listed: set<Server>): set<string> {
    ManagedNames(listed) - DesiredNames(data)
  }

  /**
   * `main`: read the names, list the managed servers, delete the unlisted
   * ones. A truthy name that cannot be a set element makes reading the file
   * fail, and the script exits 1 with nothing done; otherwise it exits 0,
   * whatever the deletes do.
   */
  method TeardownUnlisted(cloud: FakeCloud, data: seq<Entry>) returns (exitCode: int, selected: set<string>, failed: set<string>)
    requires cloud.Valid()
    modifies cloud
    ensures cloud.Valid()
    ensures exitCode == if UnhashableName(data) then 1 else 0
    ensures selected == if !UnhashableName(data) && cloud.oracle.serverListWorks then Unlisted(data, Managed(old(cloud.Snapshot()))) else {}
    ensures failed == set n | n in selected && ByName(n) in cloud.oracle.serverDeleteFails
    ensures cloud.servers == WithoutNames(old(cloud.servers), selected - failed)
    ensures cloud.keys == old(cloud.keys) && cloud.nextId == old(cloud.nextId)
    ensures forall id :: id in old(cloud.servers) && !IsManaged(old(cloud.servers)[id]) ==>
              id in cloud.servers && cloud.servers[id] == old(cloud.servers)[id]
  {
    var readOk, desired := ReadDesiredNames(data);
    if !readOk {
      return 1, {}, {};
    }
    exitCode := 0;
    var ok, listed := cloud.ListManaged();
    if !ok {
      return 0, {}, {};
    }
    assert (set s | s in listed) == Managed(cloud.Snapshot());
    var managed := ManagedNames(set s | s in listed);
    selected := managed - desired;
    forall n | n in selected ensures NameTaken(cloud.Snapshot(), n) {
      var s :| s in Managed(cloud.Snapshot()) && s.name == n;
    }
    ghost var st := cloud.Snapshot();
    failed := DeleteNamed(cloud, selected);
    forall id | id in st.servers && !IsManaged(st.servers[id])
      ensures id in cloud.servers && cloud.servers[id] == st.servers[id]
    {
      UnmanagedServersSurvive(st, selected - failed, id);
    }
  }

  /**
   * `current_names`, collected record by record: the comprehension raises
   * TypeError at the first truthy name that cannot be a set element.
   */
  method ReadDesiredNames(data: seq<Entry>) returns (ok: bool, names: set<string>)
    ensures ok == !UnhashableName(data)
    ensures ok ==> names == DesiredNames(data)
  {
    names := {};
    for i := 0 to |data|
      invariant !UnhashableName(data[..i])
      invariant names == DesiredNames(data[..i])
    {
      var name := data[i].name;
      assert data[..i + 1] == data[..i] + [data[i]];
      if Truthy(name) && name.Other? && !name.hashable {
        assert data[i] in data;
        return false, {};
      }
      if name.Text? && name.s != "" {
        names := names + {name.s};
      }
    }
    assert data[..|data|] == data;
    ok := true;
  }

  /** The delete loop: `hcloud server delete <name>` for each selected name, counting the failures. */
  method DeleteNamed(cloud: FakeCloud, selected: set<string>) returns (failed: set<string>)
    requires cloud.Valid()
    requires forall n :: n in selected ==> NameTaken(cloud.Snapshot(), n)
    modifies cloud
    ensures cloud.Valid()
    ensures failed == set n | n in selected && ByName(n) in cloud.oracle.serverDeleteFails
    ensures cloud.servers == WithoutNames(old(cloud.servers), selected - failed)
    ensures cloud.keys == old(cloud.keys) && cloud.nextId == old(cloud.nextId)
  {
    failed := {};
    var remaining := selected;
    while remaining != {}
      invariant remaining <= selected && failed <= selected - remaining
      invariant cloud.Valid()
      invariant forall m :: m in selected - remaining ==> (m in failed <==> ByName(m) in cloud.oracle.serverDeleteFails)
      invariant cloud.servers == WithoutNames(old(cloud.servers), (selected - remaining) - failed)
      invariant cloud.keys == old(cloud.keys) && cloud.nextId == old(cloud.nextId)
      invariant forall m :: m in remaining ==> NameTaken(cloud.Snapshot(), m)
      decreases |remaining|
    {
      var n :| n in remaining;
      ghost var before := cloud.Snapshot();
      var deleted := cloud.DeleteServer(ByName(n));
      var failed' := if deleted then failed else failed + {n};
      DeleteStep(old(cloud.servers), before, cloud.Snapshot(), cloud.oracle, selected, remaining, failed, failed', n, deleted);
      failed, remaining := failed', remaining - {n};
    }
  }

  /** One turn of the delete loop keeps the loop's invariant. */
  lemma DeleteStep(orig: map<nat, Server>, before: State, after: State, o: Oracle,
                   selected: set<string>, remaining: set<string>, failed: set<string>, failed': set<string>,
                   n: string, deleted: bool)
    requires n in remaining && remaining <= selected && failed <= selected - remaining
    requires forall m :: m in selected - remaining ==> (m in failed <==> ByName(m) in o.serverDeleteFails)
    requires before.servers == WithoutNames(orig, (selected - remaining) - failed)
    requires forall m :: m in remaining ==> NameTaken(before, m)
    requires (after, deleted) == DeleteServerIn(before, o, ByName(n))
    requires failed' == if deleted then failed else failed + {n}
    ensures remaining - {n} <= selected && failed' <= selected - (remaining - {n})
    ensures forall m :: m in selected - (remaining - {n}) ==> (m in failed' <==> ByName(m) in o.serverDeleteFails)
    ensures after.servers == WithoutNames(orig, (selected - (remaining - {n})) - failed')
    ensures after.keys == before.keys && after.nextId == before.nextId
    ensures forall m :: m in remaining - {n} ==> NameTaken(after, m)
  {
    DeleteByNameIsWithoutName(before, o, n);
    if !deleted {
      MoveToDone(selected, remaining, failed, n);
    } else {
      WithoutNamesTwice(orig, (selected - remaining) - failed, {n});
      MoveToDone(selected, remaining, failed, n);
      StillTakenAfterDelete(before, n, remaining);
    }
  }

  /** Bookkeeping of the delete loop: `n` leaves `remaining` and joins either `failed` or the deleted names. */
  lemma MoveToDone(selected: set<string>, remaining: set<string>, failed: set<string>, n: string)
    requires n in remaining && remaining <= selected && failed <= selected - remaining
    ensures (selected - remaining) - failed + {n} == (selected - (remaining - {n})) - failed
    ensures (selected - (remaining - {n})) - (failed + {n}) == (selected - remaining) - failed
    ensures remaining - {n} <= selected
    ensures failed <= selected - (remaining - {n}) && failed + {n} <= selected - (remaining - {n})
  {
  }

  /** Deleting the servers named `n` leaves every other name still taken. */
  lemma StillTakenAfterDelete(st: State, n: string, remaining: set<string>)
    requires forall m :: m in remaining ==> NameTaken(st, m)
    ensures forall m :: m in remaining - {n} ==> NameTaken(State(WithoutNames(st.servers, {n}), st.keys, st.nextId), m)
  {
    forall m | m in remaining - {n}
      ensures NameTaken(State(WithoutNames(st.servers, {n}), st.keys, st.nextId), m)
    {
      var id :| id in st.servers && st.servers[id].name == m;
      assert id in WithoutNames(st.servers, {n});
    }
  }

  // ---------------------------------------------------------------------
  // Properties of the selection
  // ---------------------------------------------------------------------

  /** A name is selected exactly when some listed server bears it and no entry does. */
  lemma UnlistedSelection(data: seq<Entry>, listed: set<Server>, n: string)
    ensures n in Unlisted(data, listed) <==>
      n != "" && (exists s :: s in listed && s.name == n) && !(exists e :: e in data && e.name == Text(n))
  {
    if n in Unlisted(data, listed) {
      var s :| s in listed && s.name != "" && s.name == n;
    }
  }

  /** With no desired entries (an empty or null file) every named managed server is selected. */
  lemma EmptyFileSelectsAll(listed: set<Server>)
    ensures Unlisted([], listed) == ManagedNames(listed)
  {
  }

  /** Only names matter: changing the `key` and `until` of the entries leaves the selection as it was. */
  lemma ExpiryPlaysNoPart(data: seq<Entry>, data': seq<Entry>, listed: set<Server>)
    requires |data| == |data'|
    requires forall i :: 0 <= i < |data| ==> data[i].name == data'[i].name
    ensures Unlisted(data, listed) == Unlisted(data', listed)
  {
    forall n | n in DesiredNames(data) ensures n in DesiredNames(data') {
      var e :| e in data && e.name.Text? && e.name.s != "" && e.name.s == n;
      var i :| 0 <= i < |data| && data[i] == e;
      assert data'[i] in data';
    }
    forall n | n in DesiredNames(data') ensures n in DesiredNames(data) {
      var e :| e in data' && e.name.Text? && e.name.s != "" && e.name.s == n;
      var i :| 0 <= i < |data'| && data'[i] == e;
      assert data[i] in data;
    }
  }

  /**
   * Deleting managed names never touches an unmanaged server: names are
   * unique, so a managed name is never the name of an unmanaged server.
   */
  lemma UnmanagedServersSurvive(st: State, names: set<string>, id: nat)
    requires WellFormed(st) && names <= ManagedNames(Managed(st))
    requires id in st.servers && !IsManaged(st.servers[id])
    ensures id in WithoutNames(st.servers, names) && WithoutNames(st.servers, names)[id] == st.servers[id]
  {
  }

  /** A managed server whose name is desired is kept, whatever its expiry. */
  lemma DesiredServersKept(st: State, data: seq<Entry>, failed: set<string>, id: nat)
    requires id in st.servers && st.servers[id].name in DesiredNames(data)
    ensures id in WithoutNames(st.servers, Unlisted(data, Managed(st)) - failed)
  {
  }
}
