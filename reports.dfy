/** The persisted record shapes the dashboards and exports read back from the store, and the
    order-preserving `filter` they count with. */
module Reports {

  const StatusOk: string := "OK"
  const StatusNotOk: string := "Not OK"
  const PriorityP1: string := "P1"

  /** One (equipment, spec) result inside a report. A JavaScript `null` or `undefined` string
      field (an absent `equipmentRemarks`, an unset `priority`) is the empty string here. */
  datatype Entry = Entry(
    id: string,
    equipmentId: string,
    equipmentName: string,
    specId: string,
    specName: string,
    status: string,
    action: string,
    remarks: string,
    equipmentRemarks: string,
    priority: string)

  /** The local calendar date of a timestamp, as `getDate()`, `getMonth()` and `getFullYear()` give it. */
  datatype CalendarDate = CalendarDate(day: nat, month0: nat, year: int)

  /** What `Date` guarantees of its day and zero-based month. */
  predicate ValidDate(d: CalendarDate) {
    1 <= d.day <= 31 && d.month0 <= 11
  }

  datatype Report = Report(id: string, operatorName: string, shift: string, createdAt: CalendarDate, entries: seq<Entry>)

  predicate IsIssue(e: Entry) {
    e.status == StatusNotOk
  }

  predicate IsNotIssue(e: Entry) {
    !IsIssue(e)
  }

  predicate IsP1(e: Entry) {
    e.priority == PriorityP1
  }

  /** `s.filter(p)`: the entries satisfying p, in their original order. */
  function Filter(s: seq<Entry>, p: Entry -> bool): (r: seq<Entry>)
    ensures |r| <= |s|
  {
    if s == [] then [] else Filter(s[..|s| - 1], p) + (if p(s[|s| - 1]) then [s[|s| - 1]] else [])
  }

  /** The filter keeps exactly the entries satisfying p, and keeps all of them only when
      every entry satisfies p. */
  lemma {:induction false} FilterMembers(s: seq<Entry>, p: Entry -> bool)
    ensures forall e :: e in Filter(s, p) <==> e in s && p(e)
    ensures |Filter(s, p)| == |s| <==> forall i :: 0 <= i < |s| ==> p(s[i])
  {
    if s != [] {
      var s', x := s[..|s| - 1], s[|s| - 1];
      FilterMembers(s', p);
      assert s == s' + [x];
      if |Filter(s, p)| == |s| {
        assert p(x) && |Filter(s', p)| == |s'|;
        forall i | 0 <= i < |s| ensures p(s[i]) {
          if i < |s'| { assert s[i] == s'[i]; }
        }
      }
      if forall i :: 0 <= i < |s| ==> p(s[i]) {
        forall i | 0 <= i < |s'| ensures p(s'[i]) {
          assert s'[i] == s[i];
        }
        assert p(s[|s| - 1]);
      }
    }
  }

  /** Filtering a concatenation filters each part: the filter keeps relative order. */
  lemma {:induction false} FilterAppend(a: seq<Entry>, b: seq<Entry>, p: Entry -> bool)
    ensures Filter(a + b, p) == Filter(a, p) + Filter(b, p)
  {
    if b == [] {
      assert a + b == a;
    } else {
      var b' := b[..|b| - 1];
      FilterAppend(a, b', p);
      assert (a + b)[..|a + b| - 1] == a + b';
      assert (a + b)[|a + b| - 1] == b[|b| - 1];
    }
  }

  /** Taking one entry out of the middle removes at most that entry from the filter. */
  lemma FilterRemove(b: seq<Entry>, k: nat, p: Entry -> bool)
    requires k < |b|
    ensures |Filter(b, p)| == |Filter(b[..k] + b[k + 1..], p)| + (if p(b[k]) then 1 else 0)
  {
    assert b == b[..k] + [b[k]] + b[k + 1..];
    FilterAppend(b[..k] + [b[k]], b[k + 1..], p);
    FilterAppend(b[..k], [b[k]], p);
    FilterAppend(b[..k], b[k + 1..], p);
    assert Filter([b[k]], p) == Filter([], p) + (if p(b[k]) then [b[k]] else []) by {
      assert [b[k]][..0] == [];
    }
  }

  lemma MultisetRemove<T>(a: seq<T>, b: seq<T>, k: nat)
    requires |a| > 0 && k < |b| && b[k] == a[|a| - 1]
    requires multiset(a) == multiset(b)
    ensures multiset(a[..|a| - 1]) == multiset(b[..k] + b[k + 1..])
  {
    var x := a[|a| - 1];
    var a', b' := a[..|a| - 1], b[..k] + b[k + 1..];
    assert a == a' + [x];
    assert b == b[..k] + [x] + b[k + 1..];
    assert multiset(b) == multiset(b[..k]) + multiset{x} + multiset(b[k + 1..]);
    assert multiset(b') == multiset(b[..k]) + multiset(b[k + 1..]);
    assert multiset(a') + multiset{x} == multiset(b') + multiset{x};
    assert multiset(a') == multiset(a') + multiset{x} - multiset{x};
    assert multiset(b') == multiset(b') + multiset{x} - multiset{x};
  }

  /** Permuting the input does not change how many entries pass a filter. */
  lemma {:induction false} FilterCountPermutation(a: seq<Entry>, b: seq<Entry>, p: Entry -> bool)
    requires multiset(a) == multiset(b)
    ensures |Filter(a, p)| == |Filter(b, p)|
  {
    if a == [] {
      assert |b| == |multiset(b)| == 0;
    } else {
      var x := a[|a| - 1];
      assert x in multiset(b) by { assert x in multiset(a); }
      var k :| 0 <= k < |b| && b[k] == x;
      MultisetRemove(a, b, k);
      FilterCountPermutation(a[..|a| - 1], b[..k] + b[k + 1..], p);
      FilterRemove(b, k, p);
    }
  }

  /** Filtering one more entry. */
  lemma FilterSnoc(s: seq<Entry>, x: Entry, p: Entry -> bool)
    ensures Filter(s + [x], p) == Filter(s, p) + (if p(x) then [x] else [])
  {
    assert (s + [x])[..|s|] == s;
  }

  /** Every entry passes exactly one of a filter and its complement. */
  lemma {:induction false} FilterSplit(s: seq<Entry>)
    ensures multiset(Filter(s, IsIssue)) + multiset(Filter(s, IsNotIssue)) == multiset(s)
    ensures |Filter(s, IsIssue)| + |Filter(s, IsNotIssue)| == |s|
  {
    if s != [] {
      var p, x := s[..|s| - 1], s[|s| - 1];
      assert s == p + [x];
      FilterSplit(p);
      FilterSnoc(p, x, IsIssue);
      FilterSnoc(p, x, IsNotIssue);
    }
  }

  /** A filter is empty exactly when no entry satisfies p, and keeps everything exactly when
      every entry does. */
  lemma FilterCountBounds(s: seq<Entry>, p: Entry -> bool)
    ensures |Filter(s, p)| == 0 <==> forall i :: 0 <= i < |s| ==> !p(s[i])
    ensures |Filter(s, p)| == |s| <==> forall i :: 0 <= i < |s| ==> p(s[i])
  {
    FilterMembers(s, p);
    if |Filter(s, p)| > 0 {
      assert Filter(s, p)[0] in Filter(s, p);
    }
    forall i | 0 <= i < |s| && p(s[i]) ensures |Filter(s, p)| > 0 {
      assert s[i] in s;
    }
  }

  /** Filtering what already passed p by a q that p implies keeps it whole. */
  lemma {:induction false} FilterKeeps(s: seq<Entry>, p: Entry -> bool, q: Entry -> bool)
    requires forall e :: p(e) ==> q(e)
    ensures Filter(Filter(s, p), q) == Filter(s, p)
  {
    if s != [] {
      var s', x := s[..|s| - 1], s[|s| - 1];
      FilterKeeps(s', p, q);
      FilterAppend(Filter(s', p), if p(x) then [x] else [], q);
      FilterSnoc([], x, q);
    }
  }

  /** Filtering what passed p by a q that p excludes leaves nothing. */
  lemma {:induction false} FilterDrops(s: seq<Entry>, p: Entry -> bool, q: Entry -> bool)
    requires forall e :: p(e) ==> !q(e)
    ensures Filter(Filter(s, p), q) == []
  {
    if s != [] {
      var s', x := s[..|s| - 1], s[|s| - 1];
      FilterDrops(s', p, q);
      FilterAppend(Filter(s', p), if p(x) then [x] else [], q);
      FilterSnoc([], x, q);
    }
  }
}
