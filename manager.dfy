/** The manager dashboard: the issue counts, the summary badge, the per-equipment tables with
    the "Not OK first" display order, and the expanded-report accordion. */
module Manager {
  import opened Common
  import opened Reports
  import opened Grouping

  const WarningSign: string := "\U{26A0}\U{FE0F} "
  const AllSystemsOkText: string := "\U{2705} All Systems OK"
  const NotOkCell: string := "\U{274C} Not OK"
  const OkCell: string := "\U{2713} OK"

  /** `getIssueCount`: the number of "Not OK" entries. */
  function IssueCount(entries: seq<Entry>): (n: nat)
    ensures n <= |entries|
    ensures n == 0 <==> forall i :: 0 <= i < |entries| ==> !IsIssue(entries[i])
    ensures n == |entries| <==> forall i :: 0 <= i < |entries| ==> IsIssue(entries[i])
  {
    FilterCountBounds(entries, IsIssue);
    |Filter(entries, IsIssue)|
  }

  /** The per-group `issuesInEquipment` counts add up to the report's issue count. */
  lemma IssueCountsAddUp(entries: seq<Entry>)
    ensures SumIssues(Grouped(entries)) == IssueCount(entries)
  {
    GroupCountsAddUp(entries, IsIssue);
    SumIssuesCounts(Grouped(entries));
  }

  /** The sum of `issuesInEquipment` over the groups. */
  function SumIssues(gs: seq<Group>): nat {
    if gs == [] then 0 else SumIssues(gs[..|gs| - 1]) + IssueCount(gs[|gs| - 1].specs)
  }

  lemma {:induction false} SumIssuesCounts(gs: seq<Group>)
    ensures SumIssues(gs) == SumCounts(gs, IsIssue)
  {
    if gs != [] {
      SumIssuesCounts(gs[..|gs| - 1]);
    }
  }

  /** The issue count does not depend on the order of the entries. */
  lemma IssueCountPermutation(a: seq<Entry>, b: seq<Entry>)
    requires multiset(a) == multiset(b)
    ensures IssueCount(a) == IssueCount(b)
  {
    FilterCountPermutation(a, b, IsIssue);
  }

  // ---------------------------------------------------------------------------
  // The summary badge and the group header
  // ---------------------------------------------------------------------------

  datatype Badge = IssuesFound(count: nat) | AllSystemsOk

  /** The badge of a report's summary row. */
  function ReportBadge(entries: seq<Entry>): (b: Badge)
    ensures b.IssuesFound? <==> exists i :: 0 <= i < |entries| && IsIssue(entries[i])
    ensures b.IssuesFound? ==> 0 < b.count == IssueCount(entries) <= |entries|
  {
    var n := IssueCount(entries);
    if n > 0 then IssuesFound(n) else AllSystemsOk
  }

  /** The badge's text: "⚠️ n Issues Found" (always the plural noun) or "✅ All Systems OK". */
  function BadgeText(b: Badge): (t: string)
    ensures b.AllSystemsOk? <==> t == AllSystemsOkText
    ensures b.IssuesFound? ==>
      (|t| > |WarningSign| && t[..|WarningSign|] == WarningSign && LeadingNumber(t[|WarningSign|..]) == b.count)
  {
    match b
    case AllSystemsOk => AllSystemsOkText
    case IssuesFound(n) =>
      var digits := NatToString(n);
      var t := WarningSign + digits + " Issues Found";
      assert t[|WarningSign|..] == digits + " Issues Found";
      LeadingDigitsOf(digits, " Issues Found");
      NatToStringRoundTrip(n);
      t
  }

  /** The header of one equipment group: "⚠️ n Issue(s)" when it has issues, nothing otherwise. */
  function GroupIssueLabel(g: Group): (shown: Option<string>)
    ensures shown.Some? <==> IssueCount(g.specs) > 0
    ensures shown.Some? ==> shown.value == WarningSign + CountLabel(IssueCount(g.specs), "Issue")
  {
    var n := IssueCount(g.specs);
    if n > 0 then Some(WarningSign + CountLabel(n, "Issue")) else None
  }

  /** The issue label's number is the group's issue count, and it is plural exactly when the
      count is above one. */
  lemma GroupIssueLabelCount(g: Group)
    requires IssueCount(g.specs) > 0
    ensures var t := GroupIssueLabel(g).value;
      && LeadingNumber(t[|WarningSign|..]) == IssueCount(g.specs)
      && (t[|t| - 1] == 's' <==> IssueCount(g.specs) > 1)
  {
    var t := GroupIssueLabel(g).value;
    assert t[|WarningSign|..] == CountLabel(IssueCount(g.specs), "Issue");
  }

  // ---------------------------------------------------------------------------
  // The display order
  // ---------------------------------------------------------------------------

  /** The comparator as written, `(a, b) => (a.status === 'Not OK' ? -1 : 1)`: it looks at its
      first argument only. */
  function DisplayComparator(a: Entry, b: Entry): (c: int)
    ensures c == -1 <==> IsIssue(a)
    ensures c == 1 <==> !IsIssue(a)
  {
    if a.status == StatusNotOk then -1 else 1
  }

  /** The comparator is not consistent in the sense `Array.prototype.sort` requires: for two
      "Not OK" entries it says each comes before the other, and it never calls an entry equal
      to itself. With such a comparator the order `sort` produces is implementation-defined. */
  lemma DisplayComparatorInconsistent()
    ensures var a := Entry("r1", "eq_01", "Crusher", "sp_01", "Belt", StatusNotOk, "Repair", "torn", "", "");
      var b := a.(id := "r2", specId := "sp_02");
      DisplayComparator(a, b) < 0 && DisplayComparator(b, a) < 0
    ensures forall e: Entry :: DisplayComparator(e, e) != 0
  {
  }

  /** The evidently intended order: "Not OK" entries rank before all others. */
  function Rank(e: Entry): (r: nat)
    ensures r == 0 <==> IsIssue(e)
  {
    if IsIssue(e) then 0 else 1
  }

  /** A consistent comparator for that order. */
  function RankComparator(a: Entry, b: Entry): (c: int)
    ensures c < 0 <==> IsIssue(a) && !IsIssue(b)
    ensures c == 0 <==> (IsIssue(a) <==> IsIssue(b))
  {
    Rank(a) - Rank(b)
  }

  /** The rank comparator is antisymmetric and transitive, so `sort` with it is well defined. */
  lemma RankComparatorConsistent(a: Entry, b: Entry, c: Entry)
    ensures RankComparator(a, b) == -RankComparator(b, a)
    ensures RankComparator(a, a) == 0
    ensures RankComparator(a, b) <= 0 && RankComparator(b, c) <= 0 ==> RankComparator(a, c) <= 0
  {
  }

  /** The stable sort by rank: the "Not OK" entries in their order, then the rest in theirs. */
  function NotOkFirst(s: seq<Entry>): seq<Entry> {
    Filter(s, IsIssue) + Filter(s, IsNotIssue)
  }

  /** The display order is a rearrangement of the group's entries. */
  lemma NotOkFirstPermutation(s: seq<Entry>)
    ensures multiset(NotOkFirst(s)) == multiset(s)
    ensures |NotOkFirst(s)| == |s|
  {
    FilterSplit(s);
  }

  /** Every "Not OK" entry comes before every other entry, and exactly the first IssueCount
      positions hold "Not OK" entries. */
  lemma NotOkFirstSorted(s: seq<Entry>)
    ensures forall i, j :: 0 <= i < j < |NotOkFirst(s)| ==> RankComparator(NotOkFirst(s)[i], NotOkFirst(s)[j]) <= 0
    ensures forall i :: 0 <= i < |NotOkFirst(s)| ==> (IsIssue(NotOkFirst(s)[i]) <==> i < IssueCount(s))
  {
    var issues, rest := Filter(s, IsIssue), Filter(s, IsNotIssue);
    var r := NotOkFirst(s);
    FilterMembers(s, IsIssue);
    FilterMembers(s, IsNotIssue);
    forall i | 0 <= i < |r| ensures IsIssue(r[i]) <==> i < |issues| {
      if i < |issues| {
        assert r[i] == issues[i] && issues[i] in issues;
      } else {
        assert r[i] == rest[i - |issues|] && rest[i - |issues|] in rest;
      }
    }
  }

  /** The display order is stable: the "Not OK" entries keep their relative order, and so do
      the others. */
  lemma NotOkFirstStable(s: seq<Entry>)
    ensures Filter(NotOkFirst(s), IsIssue) == Filter(s, IsIssue)
    ensures Filter(NotOkFirst(s), IsNotIssue) == Filter(s, IsNotIssue)
  {
    var issues, rest := Filter(s, IsIssue), Filter(s, IsNotIssue);
    FilterAppend(issues, rest, IsIssue);
    FilterAppend(issues, rest, IsNotIssue);
    FilterKeeps(s, IsIssue, IsIssue);
    FilterDrops(s, IsNotIssue, IsIssue);
    FilterDrops(s, IsIssue, IsNotIssue);
    FilterKeeps(s, IsNotIssue, IsNotIssue);
  }

  /** `eqData.specs.sort(...)`, which reorders the group's array in place, with the consistent
      rank order: one pass moves the "Not OK" entries to the front, a second appends the rest. */
  method SortForDisplay(a: array<Entry>)
    modifies a
    ensures a[..] == NotOkFirst(old(a[..]))
  {
    var s := a[..];
    assert |Filter(s, IsIssue)| + |Filter(s, IsNotIssue)| == |s| by { FilterSplit(s); }
    var k := CopyMatching(a, s, 0, IsIssue);
    assert a[..k] == Filter(s, IsIssue);
    ghost var front := a[..k];
    k := CopyMatching(a, s, k, IsNotIssue);
    assert a[..k] == front + Filter(s, IsNotIssue);
    assert a[..] == a[..k];
  }

  /** Writes the entries of s that satisfy p, in order, into a from position k on. */
  method CopyMatching(a: array<Entry>, s: seq<Entry>, k: nat, p: Entry -> bool) returns (k': nat)
    requires a.Length == |s| && k + |Filter(s, p)| <= a.Length
    modifies a
    ensures k' == k + |Filter(s, p)|
    ensures a[..k'] == old(a[..k]) + Filter(s, p)
  {
    k' := k;
    var i := 0;
    while i < |s|
      invariant 0 <= i <= |s|
      invariant k' == k + |Filter(s[..i], p)| <= k + |Filter(s, p)|
      invariant a[..k'] == old(a[..k]) + Filter(s[..i], p)
    {
      FilterSnoc(s[..i], s[i], p);
      assert s[..i + 1] == s[..i] + [s[i]];
      PrefixFilterLength(s, i + 1, p);
      if p(s[i]) {
        a[k'] := s[i];
        k' := k' + 1;
      }
      i := i + 1;
    }
    assert s[..i] == s;
  }

  /** A prefix passes no more entries than the whole. */
  lemma PrefixFilterLength(s: seq<Entry>, i: nat, p: Entry -> bool)
    requires i <= |s|
    ensures |Filter(s[..i], p)| <= |Filter(s, p)|
  {
    assert s == s[..i] + s[i..];
    FilterAppend(s[..i], s[i..], p);
  }

  // ---------------------------------------------------------------------------
  // The tables
  // ---------------------------------------------------------------------------

  /** One table row: `[specName, "❌ Not OK" or "✓ OK", action || '-']`. */
  function ManagerRow(e: Entry): (row: seq<string>)
    ensures |row| == 3 && row[0] == e.specName
    ensures row[1] == NotOkCell <==> IsIssue(e)
    ensures row[1] == OkCell <==> !IsIssue(e)
    ensures row[2] == OrDash(e.action)
  {
    [e.specName, if IsIssue(e) then NotOkCell else OkCell, OrDash(e.action)]
  }

  /** The table of one group, in display order. */
  function ManagerTable(g: Group): seq<seq<string>> {
    var sorted := NotOkFirst(g.specs);
    seq(|sorted|, i requires 0 <= i < |sorted| => ManagerRow(sorted[i]))
  }

  /** A group's table has one row per entry, and its "Not OK" rows are exactly its first
      IssueCount rows. */
  lemma ManagerTableShape(g: Group)
    ensures |ManagerTable(g)| == |g.specs|
    ensures forall i :: 0 <= i < |ManagerTable(g)| ==>
      (ManagerTable(g)[i][1] == NotOkCell <==> i < IssueCount(g.specs))
  {
    NotOkFirstPermutation(g.specs);
    NotOkFirstSorted(g.specs);
  }

  /** The remarks block under a group: shown exactly when the group's remarks are non-empty. */
  function RemarksShown(g: Group): (r: Option<string>)
    ensures r.Some? <==> g.remarks != ""
    ensures r.Some? ==> r.value == g.remarks
  {
    if g.remarks != "" then Some(g.remarks) else None
  }

  // ---------------------------------------------------------------------------
  // The dashboard state
  // ---------------------------------------------------------------------------

  class ManagerDashboard {
    /** The reports as loaded; the request that loads them is not part of this model. */
    var reports: seq<Report>
    var expandedReportId: Option<string>

    constructor(loaded: seq<Report>)
      ensures reports == loaded && expandedReportId == None
    {
      reports := loaded;
      expandedReportId := None;
    }

    /** `toggleReport`: a click on a report's summary row. */
    method ToggleReport(id: string)
      modifies this
      ensures expandedReportId == Toggle(old(expandedReportId), id)
      ensures reports == old(reports)
    {
      expandedReportId := if expandedReportId == Some(id) then None else Some(id);
    }
  }
}
