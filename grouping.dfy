/** The "group entries by equipmentId" loop that the manager dashboard, the senior manager
    dashboard and both PDF generators each carry a copy of: a `forEach` over the report's
    entries that creates `{ name, remarks, specs: [] }` the first time an equipment id is seen
    and pushes every entry onto its equipment's `specs`; the groups are then read back with
    `Object.entries`, that is, in order of first insertion.

    `GroupByEquipment` is that loop. `Grouped` is an independent, declarative description of
    its result (distinct ids in first-seen order, each with the entries of that id), and the
    lemmas state what the dashboards and the exports rely on. */
module Grouping {
  import opened Common
  import opened Dicts
  import opened Reports

  /** One value of `equipmentGroups`, together with its key. */
  datatype Group = Group(equipmentId: string, name: string, remarks: string, specs: seq<Entry>)

  predicate HasEquipment(s: seq<Entry>, id: string) {
    exists k :: 0 <= k < |s| && s[k].equipmentId == id
  }

  lemma HasEquipmentSnoc(s: seq<Entry>, id: string)
    requires s != []
    ensures HasEquipment(s, id) <==> HasEquipment(s[..|s| - 1], id) || s[|s| - 1].equipmentId == id
  {
    var p := s[..|s| - 1];
    if HasEquipment(s, id) && s[|s| - 1].equipmentId != id {
      var k :| 0 <= k < |s| && s[k].equipmentId == id;
      assert p[k] == s[k];
    }
    if HasEquipment(p, id) {
      var k :| 0 <= k < |p| && p[k].equipmentId == id;
      assert s[k] == p[k];
    }
  }

  lemma HasEquipmentSnocAll(s: seq<Entry>)
    requires s != []
    ensures forall id :: HasEquipment(s, id) <==> HasEquipment(s[..|s| - 1], id) || s[|s| - 1].equipmentId == id
  {
    forall id ensures HasEquipment(s, id) <==> HasEquipment(s[..|s| - 1], id) || s[|s| - 1].equipmentId == id {
      HasEquipmentSnoc(s, id);
    }
  }

  /** The equipment ids of s, each once, in the order they first occur. */
  function FirstSeenIds(s: seq<Entry>): (ids: seq<string>)
    ensures forall i, j :: 0 <= i < j < |ids| ==> ids[i] != ids[j]
  {
    if s == [] then []
    else
      var ids := FirstSeenIds(s[..|s| - 1]);
      if s[|s| - 1].equipmentId in ids then ids else ids + [s[|s| - 1].equipmentId]
  }

  /** The listed ids are exactly the equipment ids that occur. */
  lemma {:induction false} FirstSeenIdsMembers(s: seq<Entry>)
    ensures forall id :: id in FirstSeenIds(s) <==> HasEquipment(s, id)
  {
    if s != [] {
      HasEquipmentSnocAll(s);
      FirstSeenIdsMembers(s[..|s| - 1]);
    }
  }

  /** The position of the first entry with that equipment id. */
  function FirstIndex(s: seq<Entry>, id: string): (k: nat)
    requires HasEquipment(s, id)
    ensures k < |s| && s[k].equipmentId == id
    ensures forall j :: 0 <= j < k ==> s[j].equipmentId != id
  {
    HasEquipmentSnoc(s, id);
    var p := s[..|s| - 1];
    if HasEquipment(p, id) then
      var k := FirstIndex(p, id);
      assert forall j :: 0 <= j < k ==> s[j] == p[j];
      k
    else
      assert forall j :: 0 <= j < |p| ==> s[j] == p[j];
      |s| - 1
  }

  function OnEquipment(id: string): Entry -> bool {
    (e: Entry) => e.equipmentId == id
  }

  /** `specs` of the group of that id: the entries with that equipment id, in input order. */
  function EntriesFor(s: seq<Entry>, id: string): seq<Entry> {
    Filter(s, OnEquipment(id))
  }

  /** The group the loop builds for one id: named and remarked after the first entry with that id. */
  function GroupOf(s: seq<Entry>, id: string): Group
    requires HasEquipment(s, id)
  {
    var first := s[FirstIndex(s, id)];
    Group(id, first.equipmentName, first.equipmentRemarks, EntriesFor(s, id))
  }

  function GroupsFor(s: seq<Entry>, ids: seq<string>): (gs: seq<Group>)
    requires forall id :: id in ids ==> HasEquipment(s, id)
    ensures |gs| == |ids|
    ensures forall i :: 0 <= i < |ids| ==> gs[i] == GroupOf(s, ids[i])
  {
    if ids == [] then [] else [GroupOf(s, ids[0])] + GroupsFor(s, ids[1..])
  }

  /** The reference description of `Object.entries(equipmentGroups)` after the loop. */
  function Grouped(s: seq<Entry>): seq<Group> {
    FirstSeenIdsMembers(s);
    GroupsFor(s, FirstSeenIds(s))
  }

  /** The groups' entries, concatenated in group order. */
  function AllSpecs(gs: seq<Group>): seq<Entry> {
    if gs == [] then [] else AllSpecs(gs[..|gs| - 1]) + gs[|gs| - 1].specs
  }

  /** The total, over the groups, of the entries satisfying p in each group. */
  function SumCounts(gs: seq<Group>, p: Entry -> bool): nat {
    if gs == [] then 0 else SumCounts(gs[..|gs| - 1], p) + |Filter(gs[|gs| - 1].specs, p)|
  }

  // ---------------------------------------------------------------------------
  // The loop
  // ---------------------------------------------------------------------------

  lemma FirstSeenIdsSnoc(p: seq<Entry>, e: Entry)
    ensures FirstSeenIds(p + [e]) == if e.equipmentId in FirstSeenIds(p) then FirstSeenIds(p) else FirstSeenIds(p) + [e.equipmentId]
  {
    assert (p + [e])[..|p|] == p;
  }

  lemma EntriesForSnoc(p: seq<Entry>, e: Entry, id: string)
    ensures EntriesFor(p + [e], id) == EntriesFor(p, id) + (if e.equipmentId == id then [e] else [])
  {
    assert (p + [e])[..|p|] == p;
  }

  lemma {:induction false} EntriesForAbsent(s: seq<Entry>, id: string)
    requires !HasEquipment(s, id)
    ensures EntriesFor(s, id) == []
  {
    if s != [] {
      HasEquipmentSnoc(s, id);
      EntriesForAbsent(s[..|s| - 1], id);
    }
  }

  /** How one more entry changes the group of an id. */
  lemma GroupOfSnoc(p: seq<Entry>, e: Entry, id: string)
    requires HasEquipment(p + [e], id)
    ensures HasEquipment(p, id) ==>
      GroupOf(p + [e], id) == GroupOf(p, id).(specs := GroupOf(p, id).specs + (if e.equipmentId == id then [e] else []))
    ensures !HasEquipment(p, id) ==>
      e.equipmentId == id && GroupOf(p + [e], id) == Group(id, e.equipmentName, e.equipmentRemarks, [e])
  {
    var s := p + [e];
    assert s[..|s| - 1] == p;
    HasEquipmentSnoc(s, id);
    EntriesForSnoc(p, e, id);
    if HasEquipment(p, id) {
      assert FirstIndex(s, id) == FirstIndex(p, id);
    } else {
      EntriesForAbsent(p, id);
    }
  }

  /** What the table holds after the loop has seen the entries p. */
  ghost predicate TableFor(table: Dict<Group>, p: seq<Entry>) {
    && table.Valid()
    && table.keys == FirstSeenIds(p)
    && forall id :: id in table.vals ==> HasEquipment(p, id) && table.vals[id] == GroupOf(p, id)
  }

  /** The group the loop holds for an id after one more entry. */
  lemma StepGroup(table: Dict<Group>, p: seq<Entry>, e: Entry, g0: Group, x: string)
    requires TableFor(table, p)
    requires g0 == if e.equipmentId in table.vals then table.vals[e.equipmentId]
      else Group(e.equipmentId, e.equipmentName, e.equipmentRemarks, [])
    requires x in table.vals || x == e.equipmentId
    ensures HasEquipment(p + [e], x)
    ensures (if x == e.equipmentId then g0.(specs := g0.specs + [e]) else table.vals[x]) == GroupOf(p + [e], x)
  {
    FirstSeenIdsMembers(p);
    HasEquipmentSnoc(p + [e], x);
    assert (p + [e])[..|p|] == p;
    GroupOfSnoc(p, e, x);
    assert e.equipmentId !in table.vals ==> g0.specs + [e] == [e];
  }

  /** One iteration keeps the loop's invariant: the group of the entry's id is created on
      first sight, then the entry is pushed onto it. */
  lemma LoopStep(table: Dict<Group>, p: seq<Entry>, e: Entry, g0: Group)
    requires TableFor(table, p)
    requires g0 == if e.equipmentId in table.vals then table.vals[e.equipmentId]
      else Group(e.equipmentId, e.equipmentName, e.equipmentRemarks, [])
    ensures TableFor(table.Put(e.equipmentId, g0.(specs := g0.specs + [e])), p + [e])
  {
    var t2 := table.Put(e.equipmentId, g0.(specs := g0.specs + [e]));
    assert t2.keys == FirstSeenIds(p + [e]) by {
      FirstSeenIdsSnoc(p, e);
    }
    assert forall x :: x in t2.vals ==> HasEquipment(p + [e], x) && t2.vals[x] == GroupOf(p + [e], x) by {
      forall x | x in t2.vals
        ensures HasEquipment(p + [e], x) && t2.vals[x] == GroupOf(p + [e], x)
      {
        assert x != e.equipmentId ==> t2.Get(x) == table.Get(x);
        StepGroup(table, p, e, g0, x);
      }
    }
  }

  /** Reading the table back in key order gives the reference grouping. */
  lemma TableValues(table: Dict<Group>, s: seq<Entry>)
    requires TableFor(table, s)
    ensures table.Values() == Grouped(s)
  {
  }

  /** The `forEach` that fills `equipmentGroups`, followed by `Object.entries`. */
  method GroupByEquipment(entries: seq<Entry>) returns (groups: seq<Group>)
    ensures groups == Grouped(entries)
  {
    var table: Dict<Group> := EmptyDict();
    var i := 0;
    ghost var seen: seq<Entry> := [];
    while i < |entries|
      invariant 0 <= i <= |entries|
      invariant seen == entries[..i]
      invariant TableFor(table, seen)
    {
      var entry := entries[i];
      var id := entry.equipmentId;
      var g: Group;
      if table.Get(id).None? {
        g := Group(id, entry.equipmentName, entry.equipmentRemarks, []);
      } else {
        g := table.vals[id];
      }
      LoopStep(table, seen, entry, g);
      table := table.Put(id, g.(specs := g.specs + [entry]));
      seen := seen + [entry];
      i := i + 1;
    }
    assert seen == entries;
    TableValues(table, seen);
    groups := table.Values();
  }

  // ---------------------------------------------------------------------------
  // What the grouping guarantees
  // ---------------------------------------------------------------------------

  /** Groups have distinct ids, one per equipment id that occurs; each entry lies in the group
      of its own equipment id and in no other; and each group holds only entries of its id. */
  lemma GroupedPartition(s: seq<Entry>)
    ensures forall i, j :: 0 <= i < j < |Grouped(s)| ==> Grouped(s)[i].equipmentId != Grouped(s)[j].equipmentId
    ensures forall k :: 0 <= k < |s| ==> exists i :: 0 <= i < |Grouped(s)| && Grouped(s)[i].equipmentId == s[k].equipmentId
    ensures forall i, k :: 0 <= i < |Grouped(s)| && 0 <= k < |s| ==>
      (s[k] in Grouped(s)[i].specs <==> Grouped(s)[i].equipmentId == s[k].equipmentId)
    ensures forall i, e :: 0 <= i < |Grouped(s)| && e in Grouped(s)[i].specs ==> e.equipmentId == Grouped(s)[i].equipmentId
  {
    var ids := FirstSeenIds(s);
    var gs := Grouped(s);
    FirstSeenIdsMembers(s);
    forall k | 0 <= k < |s|
      ensures exists i :: 0 <= i < |gs| && gs[i].equipmentId == s[k].equipmentId
    {
      assert HasEquipment(s, s[k].equipmentId);
      var i :| 0 <= i < |ids| && ids[i] == s[k].equipmentId;
      assert gs[i].equipmentId == ids[i];
    }
    forall i | 0 <= i < |gs|
      ensures forall e :: e in gs[i].specs <==> e in s && e.equipmentId == gs[i].equipmentId
    {
      FilterMembers(s, OnEquipment(ids[i]));
    }
  }

  /** Groups come in order of the first occurrence of their equipment id. */
  lemma {:induction false} FirstSeenOrder(s: seq<Entry>)
    ensures forall i, j :: 0 <= i < j < |FirstSeenIds(s)| ==>
      HasEquipment(s, FirstSeenIds(s)[i]) && HasEquipment(s, FirstSeenIds(s)[j]) &&
      FirstIndex(s, FirstSeenIds(s)[i]) < FirstIndex(s, FirstSeenIds(s)[j])
  {
    FirstSeenIdsMembers(s);
    if s != [] {
      var p, e := s[..|s| - 1], s[|s| - 1];
      assert s == p + [e];
      FirstSeenOrder(p);
      FirstSeenIdsSnoc(p, e);
      var ids, L := FirstSeenIds(s), FirstSeenIds(p);
      FirstSeenIdsMembers(p);
      forall i, j | 0 <= i < j < |ids|
        ensures HasEquipment(s, ids[i]) && HasEquipment(s, ids[j]) && FirstIndex(s, ids[i]) < FirstIndex(s, ids[j])
      {
        assert ids[i] in ids && ids[j] in ids;
        assert ids[i] == L[i] && L[i] in L;
        assert FirstIndex(s, ids[i]) == FirstIndex(p, L[i]) < |p|;
        if j < |L| {
          assert ids[j] == L[j] && L[j] in L;
          assert FirstIndex(s, ids[j]) == FirstIndex(p, L[j]);
        } else {
          assert ids[j] == e.equipmentId && !HasEquipment(p, e.equipmentId);
          assert FirstIndex(s, ids[j]) == |s| - 1;
        }
      }
    } else {
      assert FirstSeenIds(s) == [];
    }
  }

  /** Groups come in order of first occurrence; each is named and remarked after the first
      entry with its id and holds that id's entries in input order. */
  lemma GroupedFirstSeenOrder(s: seq<Entry>)
    ensures forall i :: 0 <= i < |Grouped(s)| ==>
      var id := Grouped(s)[i].equipmentId;
      && HasEquipment(s, id)
      && Grouped(s)[i] == Group(id, s[FirstIndex(s, id)].equipmentName, s[FirstIndex(s, id)].equipmentRemarks, EntriesFor(s, id))
    ensures forall i, j :: 0 <= i < j < |Grouped(s)| ==>
      FirstIndex(s, Grouped(s)[i].equipmentId) < FirstIndex(s, Grouped(s)[j].equipmentId)
  {
    FirstSeenOrder(s);
    FirstSeenIdsMembers(s);
  }

  /** A group's entries keep the input order, in the sense that filtering distributes over
      concatenation: entries from an earlier part of the input come first. */
  lemma EntriesForAppend(a: seq<Entry>, b: seq<Entry>, id: string)
    ensures EntriesFor(a + b, id) == EntriesFor(a, id) + EntriesFor(b, id)
  {
    FilterAppend(a, b, OnEquipment(id));
  }

  function ConcatFor(s: seq<Entry>, ids: seq<string>): seq<Entry> {
    if ids == [] then [] else ConcatFor(s, ids[..|ids| - 1]) + EntriesFor(s, ids[|ids| - 1])
  }

  lemma {:induction false} AllSpecsGroupsFor(s: seq<Entry>, ids: seq<string>)
    requires forall id :: id in ids ==> HasEquipment(s, id)
    ensures AllSpecs(GroupsFor(s, ids)) == ConcatFor(s, ids)
  {
    if ids != [] {
      var ids' := ids[..|ids| - 1];
      AllSpecsGroupsFor(s, ids');
      assert GroupsFor(s, ids)[..|ids| - 1] == GroupsFor(s, ids');
    }
  }

  lemma {:induction false} ConcatForSnoc(p: seq<Entry>, e: Entry, ids: seq<string>)
    requires forall i, j :: 0 <= i < j < |ids| ==> ids[i] != ids[j]
    ensures multiset(ConcatFor(p + [e], ids)) ==
      multiset(ConcatFor(p, ids)) + (if e.equipmentId in ids then multiset{e} else multiset{})
  {
    if ids != [] {
      var ids', last := ids[..|ids| - 1], ids[|ids| - 1];
      ConcatForSnoc(p, e, ids');
      EntriesForSnoc(p, e, last);
      assert ids == ids' + [last];
      assert e.equipmentId in ids <==> e.equipmentId == last || e.equipmentId in ids';
      assert e.equipmentId == last ==> e.equipmentId !in ids';
    }
  }

  lemma ConcatForStep(p: seq<Entry>, e: Entry)
    ensures multiset(ConcatFor(p + [e], FirstSeenIds(p + [e]))) == multiset(ConcatFor(p, FirstSeenIds(p))) + multiset{e}
  {
    var L := FirstSeenIds(p);
    FirstSeenIdsSnoc(p, e);
    ConcatForSnoc(p, e, L);
    if e.equipmentId !in L {
      var ids := L + [e.equipmentId];
      assert ids[..|ids| - 1] == L;
      FirstSeenIdsMembers(p);
      EntriesForSnoc(p, e, e.equipmentId);
      EntriesForAbsent(p, e.equipmentId);
      assert ConcatFor(p + [e], ids) == ConcatFor(p + [e], L) + [e];
    }
  }

  lemma {:induction false} ConcatForFirstSeen(s: seq<Entry>)
    ensures multiset(ConcatFor(s, FirstSeenIds(s))) == multiset(s)
  {
    if s != [] {
      var p, e := s[..|s| - 1], s[|s| - 1];
      assert s == p + [e];
      ConcatForFirstSeen(p);
      ConcatForStep(p, e);
    } else {
      assert FirstSeenIds(s) == [];
    }
  }

  /** Concatenating the groups gives back the input, up to order: nothing is lost or duplicated. */
  lemma GroupedPermutation(s: seq<Entry>)
    ensures multiset(AllSpecs(Grouped(s))) == multiset(s)
    ensures |AllSpecs(Grouped(s))| == |s|
  {
    FirstSeenIdsMembers(s);
    AllSpecsGroupsFor(s, FirstSeenIds(s));
    ConcatForFirstSeen(s);
    assert |multiset(AllSpecs(Grouped(s)))| == |multiset(s)|;
  }

  lemma {:induction false} SumCountsAllSpecs(gs: seq<Group>, p: Entry -> bool)
    ensures SumCounts(gs, p) == |Filter(AllSpecs(gs), p)|
  {
    if gs != [] {
      var gs' := gs[..|gs| - 1];
      SumCountsAllSpecs(gs', p);
      FilterAppend(AllSpecs(gs'), gs[|gs| - 1].specs, p);
    }
  }

  /** Any per-group count `specs.filter(p).length` adds up, over the groups, to the same count
      over the whole report. */
  lemma GroupCountsAddUp(s: seq<Entry>, p: Entry -> bool)
    ensures SumCounts(Grouped(s), p) == |Filter(s, p)|
  {
    SumCountsAllSpecs(Grouped(s), p);
    GroupedPermutation(s);
    FilterCountPermutation(AllSpecs(Grouped(s)), s, p);
  }
}
