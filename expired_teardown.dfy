/**
 * scripts/teardown.py: delete every managed server that is missing from the
 * desired-state file, or whose `until` date there has passed.
 */
module TeardownWithExpiry {
  import opened Wrappers
  import opened Dates
  import opened Desired
  import opened Cloud
  import Teardown

  /**
   * `boxes_by_name`: each entry with a truthy name maps that name to its
   * `until`, turned into a string when it is some other truthy value. A later
   * entry with the same name overwrites an earlier one.
   */
  function BoxesByName(data: seq<Entry>): (boxes: map<Field, Field>)
    ensures forall f :: f in boxes ==> Truthy(f)
    ensures forall f :: f in boxes && Truthy(boxes[f]) ==> boxes[f].Text?
  {
    if data == [] then map[]
    else
      var last := data[|data| - 1];
      var boxes := BoxesByName(data[..|data| - 1]);
      if Truthy(last.name) then boxes[last.name := Stringified(last.until)] else boxes
  }

  /**
   * The loop that fills `boxes_by_name`. Storing a truthy name that cannot be
   * a dict key raises TypeError, and the map is not built.
   */
  method BuildBoxesByName(data: seq<Entry>) returns (ok: bool, boxes: map<Field, Field>)
    ensures ok == !UnhashableName(data)
    ensures ok ==> boxes == BoxesByName(data)
  {
    boxes := map[];
    for i := 0 to |data|
      invariant !UnhashableName(data[..i])
      invariant boxes == BoxesByName(data[..i])
    {
      assert data[..i + 1][..i] == data[..i];
      assert data[..i + 1] == data[..i] + [data[i]];
      var box := data[i];
      if Truthy(box.name) {
        if box.name.Other? && !box.name.hashable {
          assert box in data;
          return false, map[];
        }
        boxes := boxes[box.name := Stringified(box.until)];
      }
    }
    assert data[..|data|] == data;
    ok := true;
  }

  /** Why a server is selected: `"not in YAML"` or `"expired on <until>"`. */
  datatype Reason = NotInYaml | ExpiredOn(until: string)

  /** A truthy `until` that `strptime(until, '%Y-%m-%d')` accepts, dated strictly before today. */
  predicate ExpiredUntil(until: Field, today: Date) {
    until.Text? && until.s != "" && ParseDate(until.s).Some? && Before(ParseDate(until.s).value, today)
  }

  /** Every truthy value of the map is a string: what `BoxesByName` guarantees. */
  predicate StringValues(boxes: map<Field, Field>) {
    forall f :: f in boxes && Truthy(boxes[f]) ==> boxes[f].Text?
  }

  /**
   * The verdict on one managed name: a name missing from the map is selected;
   * a listed name is selected only when its `until` has passed.
   */
  function Verdict(name: string, boxes: map<Field, Field>, today: Date): Option<Reason>
    requires StringValues(boxes)
  {
    if Text(name) !in boxes then Some(NotInYaml)
    else
      var until := boxes[Text(name)];
      if ExpiredUntil(until, today) then Some(ExpiredOn(until.s)) else None
  }

  /** `to_delete` as a map: each selected managed name with its reason. */
  function Selection(managed: set<string>, boxes: map<Field, Field>, today: Date): map<string, Reason>
    requires StringValues(boxes)
  {
    map n | n in managed && Verdict(n, boxes, today).Some? :: Verdict(n, boxes, today).value
  }

  /** The selection the script makes from the file and the listed managed servers. */
  function Doomed(data: seq<Entry>, listed: set<Server>, today: Date): map<string, Reason> {
    Selection(Teardown.ManagedNames(listed), BoxesByName(data), today)
  }

  /** The loop over `managed_names` that appends `(name, reason)` to `to_delete`. */
  method SelectForDeletion(managed: set<string>, boxes: map<Field, Field>, today: Date)
    returns (toDelete: seq<(string, Reason)>)
    requires StringValues(boxes)
    ensures forall i, j :: 0 <= i < j < |toDelete| ==> toDelete[i].0 != toDelete[j].0
    ensures forall p :: p in toDelete <==> p.0 in Selection(managed, boxes, today) && Selection(managed, boxes, today)[p.0] == p.1
  {
    toDelete := [];
    var remaining := managed;
    while remaining != {}
      invariant remaining <= managed
      invariant forall p :: p in toDelete <==> p.0 in managed - remaining && Verdict(p.0, boxes, today) == Some(p.1)
      invariant forall i, j :: 0 <= i < j < |toDelete| ==> toDelete[i].0 != toDelete[j].0
      decreases |remaining|
    {
      var name :| name in remaining;
      var verdict := Verdict(name, boxes, today);
      if verdict.Some? {
        toDelete := toDelete + [(name, verdict.value)];
      }
      remaining := remaining - {name};
    }
  }

  /**
   * `main`: build the map, list the managed servers, select, and delete each
   * selected name; a failed delete does not stop the others, and a failed
   * listing deletes nothing. A failure to build the map exits 1 with nothing
   * done; otherwise the script exits 0.
   */
  method TeardownExpired(cloud: FakeCloud, data: seq<Entry>, today: Date)
    returns (exitCode: int, toDelete: seq<(string, Reason)>, failed: set<string>)
    requires cloud.Valid()
    modifies cloud
    ensures cloud.Valid()
    ensures exitCode == if UnhashableName(data) then 1 else 0
    ensures forall i, j :: 0 <= i < j < |toDelete| ==> toDelete[i].0 != toDelete[j].0
    ensures forall p :: p in toDelete <==>
              !UnhashableName(data) && cloud.oracle.serverListWorks
              && p.0 in Doomed(data, Managed(old(cloud.Snapshot())), today)
              && Doomed(data, Managed(old(cloud.Snapshot())), today)[p.0] == p.1
    ensures failed == set p | p in toDelete && ByName(p.0) in cloud.oracle.serverDeleteFails :: p.0
    ensures cloud.servers == WithoutNames(old(cloud.servers), (set p | p in toDelete :: p.0) - failed)
    ensures cloud.keys == old(cloud.keys) && cloud.nextId == old(cloud.nextId)
    ensures forall id :: id in old(cloud.servers) && !IsManaged(old(cloud.servers)[id]) ==>
              id in cloud.servers && cloud.servers[id] == old(cloud.servers)[id]
  {
    var readOk, boxes := BuildBoxesByName(data);
    if !readOk {
      return 1, [], {};
    }
    exitCode := 0;
    var ok, listed := cloud.ListManaged();
    if !ok {
      return 0, [], {};
    }
    assert (set s | s in listed) == Managed(cloud.Snapshot());
    var managed := Teardown.ManagedNames(set s | s in listed);
    toDelete := SelectForDeletion(managed, boxes, today);
    var names := set p | p in toDelete :: p.0;
    forall n | n in names ensures NameTaken(cloud.Snapshot(), n) {
      var s :| s in Managed(cloud.Snapshot()) && s.name == n;
    }
    assert names <= Teardown.ManagedNames(Managed(cloud.Snapshot()));
    ghost var st := cloud.Snapshot();
    failed := Teardown.DeleteNamed(cloud, names);
    forall id | id in st.servers && !IsManaged(st.servers[id])
      ensures id in cloud.servers && cloud.servers[id] == st.servers[id]
    {
      Teardown.UnmanagedServersSurvive(st, names - failed, id);
    }
  }

  // ---------------------------------------------------------------------
  // Properties
  // ---------------------------------------------------------------------

  /** The map's string keys are exactly the desired names. */
  lemma {:induction false} BoxesByNameKeys(data: seq<Entry>, n: string)
    ensures Text(n) in BoxesByName(data) <==> n in Teardown.DesiredNames(data)
    decreases |data|
  {
    if data != [] {
      var init := data[..|data| - 1];
      BoxesByNameKeys(init, n);
      assert data == init + [data[|data| - 1]];
      assert Teardown.DesiredNames(data) == Teardown.DesiredNames(init) + Teardown.DesiredNames([data[|data| - 1]]);
    }
  }

  /** The value stored under a name is the `until` of the last entry bearing that name. */
  lemma {:induction false} LastEntryWins(data: seq<Entry>, i: nat)
    requires i < |data| && Truthy(data[i].name)
    requires forall j :: i < j < |data| ==> data[j].name != data[i].name
    ensures data[i].name in BoxesByName(data) && BoxesByName(data)[data[i].name] == Stringified(data[i].until)
    decreases |data|
  {
    if i < |data| - 1 {
      LastEntryWins(data[..|data| - 1], i);
    }
  }

  /** A later entry with the same name decides: the earlier, passed date no longer selects the server. */
  lemma DuplicateNameLaterWins()
    ensures var early := Entry(Text("alice"), Text("dev1"), Text("2020-01-01"));
            var late := Entry(Text("alice"), Text("dev1"), Text("2999-01-01"));
            var today := Date(2026, 10, 18);
            Verdict("dev1", BoxesByName([early, late]), today) == None
            && Verdict("dev1", BoxesByName([late, early]), today) == Some(ExpiredOn("2020-01-01"))
  {
    var early := Entry(Text("alice"), Text("dev1"), Text("2020-01-01"));
    var late := Entry(Text("alice"), Text("dev1"), Text("2999-01-01"));
    LastEntryWins([early, late], 1);
    LastEntryWins([late, early], 1);
    PassedAndFutureDates();
  }

  lemma PassedAndFutureDates()
    ensures ParseDate("2020-01-01") == Some(Date(2020, 1, 1))
    ensures ParseDate("2999-01-01") == Some(Date(2999, 1, 1))
  {
    ParseFormatRoundTrip(Date(2020, 1, 1));
    assert FormatDate(Date(2020, 1, 1)) == "2020-01-01";
    ParseFormatRoundTrip(Date(2999, 1, 1));
    assert FormatDate(Date(2999, 1, 1)) == "2999-01-01";
  }

  /** Both directions of the verdict: "not in YAML" for an unlisted name, "expired" for a passed date, nothing else. */
  lemma VerdictCases(name: string, boxes: map<Field, Field>, today: Date, r: Reason)
    requires StringValues(boxes)
    ensures Verdict(name, boxes, today) == Some(r) <==>
      (Text(name) !in boxes && r == NotInYaml)
      || (Text(name) in boxes && ExpiredUntil(boxes[Text(name)], today) && r == ExpiredOn(boxes[Text(name)].s))
  {
  }

  /** A server whose `until` is today is kept. */
  lemma ExpiringTodayKept(name: string, boxes: map<Field, Field>, today: Date)
    requires StringValues(boxes) && IsValid(today)
    requires Text(name) in boxes && boxes[Text(name)] == Text(FormatDate(today))
    ensures Verdict(name, boxes, today) == None
  {
    ParseFormatRoundTrip(today);
  }

  /** A server whose `until` was yesterday is selected. */
  lemma ExpiredYesterdaySelected(name: string, boxes: map<Field, Field>, today: Date)
    requires StringValues(boxes) && IsValid(today) && today != Date(1, 1, 1)
    requires Text(name) in boxes && boxes[Text(name)] == Text(FormatDate(PreviousDay(today)))
    ensures Verdict(name, boxes, today) == Some(ExpiredOn(FormatDate(PreviousDay(today))))
  {
    ParseFormatRoundTrip(PreviousDay(today));
  }

  /** A listed server whose `until` is missing or does not parse is never selected. */
  lemma UnparseableUntilKept(name: string, boxes: map<Field, Field>, today: Date)
    requires StringValues(boxes) && Text(name) in boxes
    requires !boxes[Text(name)].Text? || ParseDate(boxes[Text(name)].s).None?
    ensures Verdict(name, boxes, today) == None
  {
  }

  /** A YAML date in `until` becomes its ISO text and selects exactly when it lies before today. */
  lemma YamlDateUntil(d: Date, today: Date)
    requires IsValid(d)
    ensures ExpiredUntil(Stringified(Other(FormatDate(d), true, true)), today) <==> Before(d, today)
  {
    ParseFormatRoundTrip(d);
  }

  /** The selection is the unlisted names of teardown.py plus the listed names whose date has passed. */
  lemma UnlistedOrExpired(data: seq<Entry>, listed: set<Server>, today: Date, n: string)
    ensures n in Doomed(data, listed, today) <==>
      n in Teardown.Unlisted(data, listed)
      || (n in Teardown.ManagedNames(listed) && Text(n) in BoxesByName(data)
          && ExpiredUntil(BoxesByName(data)[Text(n)], today))
    ensures n in Teardown.Unlisted(data, listed) ==> n in Doomed(data, listed, today) && Doomed(data, listed, today)[n] == NotInYaml
  {
    BoxesByNameKeys(data, n);
  }
}
