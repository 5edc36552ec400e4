/** The senior manager's dashboard over the reports that hold P1 entries: the banner, the
    per-report P1 badge, the per-equipment critical label and table, the exclusive accordion and
    the P1 download button. */
module Senior {
  import opened Common
  import opened Reports
  import opened Grouping
  import opened Pdf
  import opened Exports
  import Manager

  /** The red circle before every count (U+1F534). */
  const RedCircle: string := "\U{1F534} "
  const CriticalCell: string := "\U{1F534} P1 - CRITICAL"
  const BannerSuffix: string := " containing P1 Critical Issues requiring immediate action"

  /** `getP1Count`: the number of entries whose priority is P1. */
  function P1Count(entries: seq<Entry>): (n: nat)
    ensures n <= |entries|
    ensures n == 0 <==> forall i :: 0 <= i < |entries| ==> !IsP1(entries[i])
    ensures n == |entries| <==> forall i :: 0 <= i < |entries| ==> IsP1(entries[i])
  {
    FilterCountBounds(entries, IsP1);
    |Filter(entries, IsP1)|
  }

  /** The per-equipment counts add up to the report's badge count. */
  lemma P1CountsAddUp(entries: seq<Entry>)
    ensures SumCounts(Grouped(entries), IsP1) == P1Count(entries)
  {
    GroupCountsAddUp(entries, IsP1);
  }

  // ---------------------------------------------------------------------------
  // The texts
  // ---------------------------------------------------------------------------

  /** The banner above the list: the success banner for an empty list, else the count of
      reports needing attention. */
  datatype Banner = NoCriticalIssues | UrgentAttention(text: string)

  function ReportsBanner(reports: seq<Report>): (b: Banner)
    ensures b.NoCriticalIssues? <==> reports == []
    ensures b.UrgentAttention? ==> LeadingNumber(b.text) == |reports|
    ensures b.UrgentAttention? ==> |b.text| > |BannerSuffix| && b.text[|b.text| - |BannerSuffix|..] == BannerSuffix
    ensures b.UrgentAttention? ==> b.text[..|b.text| - |BannerSuffix|] == CountLabel(|reports|, "Report")
  {
    if reports == [] then NoCriticalIssues
    else
      var text := CountLabel(|reports|, "Report") + BannerSuffix;
      CountLabelThen(|reports|, "Report", BannerSuffix);
      assert text[..|text| - |BannerSuffix|] == CountLabel(|reports|, "Report");
      assert text[|text| - |BannerSuffix|..] == BannerSuffix;
      UrgentAttention(text)
  }

  /** The banner says "Reports" exactly when there is more than one. */
  lemma BannerPlural(reports: seq<Report>)
    requires reports != []
    ensures var t := ReportsBanner(reports).text;
      t[|t| - |BannerSuffix| - 1] == 's' <==> |reports| > 1
  {
  }

  /** `🔴 {p1Count} P1 Issue{s}` on a report's summary row. */
  function P1Badge(entries: seq<Entry>): (t: string)
    ensures |t| > |RedCircle| && t[..|RedCircle|] == RedCircle
    ensures LeadingNumber(t[|RedCircle|..]) == P1Count(entries)
    ensures t[|t| - 1] == 's' <==> P1Count(entries) > 1
  {
    var t := RedCircle + CountLabel(P1Count(entries), "P1 Issue");
    assert t[|RedCircle|..] == CountLabel(P1Count(entries), "P1 Issue");
    t
  }

  /** `🔴 {p1InEquipment} Critical Issue{s}` beside an equipment's name, shown even when the
      count is zero. */
  function CriticalLabel(g: Group): (t: string)
    ensures |t| > |RedCircle| && t[..|RedCircle|] == RedCircle
    ensures LeadingNumber(t[|RedCircle|..]) == P1Count(g.specs)
    ensures t[|t| - 1] == 's' <==> P1Count(g.specs) > 1
  {
    var t := RedCircle + CountLabel(P1Count(g.specs), "Critical Issue");
    assert t[|RedCircle|..] == CountLabel(P1Count(g.specs), "Critical Issue");
    t
  }

  // ---------------------------------------------------------------------------
  // The tables
  // ---------------------------------------------------------------------------

  /** `[specName, "❌ Not OK", action || '-', "🔴 P1 - CRITICAL"]`. */
  function SeniorRow(e: Entry): seq<string> {
    [e.specName, Manager.NotOkCell, OrDash(e.action), CriticalCell]
  }

  /** The table of one group: its entries in input order, not sorted. */
  function SeniorTable(g: Group): seq<seq<string>> {
    seq(|g.specs|, i requires 0 <= i < |g.specs| => SeniorRow(g.specs[i]))
  }

  /** Row i is entry i of the group, and the status and priority cells are fixed texts: an
      entry whose stored status is OK or whose priority is not P1 still reads as a Not OK P1. */
  lemma SeniorTableShape(g: Group)
    ensures |SeniorTable(g)| == |g.specs|
    ensures forall i :: 0 <= i < |g.specs| ==>
      && SeniorTable(g)[i][0] == g.specs[i].specName
      && SeniorTable(g)[i][1] == Manager.NotOkCell
      && SeniorTable(g)[i][2] == OrDash(g.specs[i].action)
      && SeniorTable(g)[i][3] == CriticalCell
  {
  }

  /** The critical label counts the table's rows exactly when every entry of the group is P1;
      otherwise it counts fewer. */
  lemma CriticalLabelMatchesRows(g: Group)
    ensures LeadingNumber(CriticalLabel(g)[|RedCircle|..]) <= |SeniorTable(g)|
    ensures LeadingNumber(CriticalLabel(g)[|RedCircle|..]) == |SeniorTable(g)| <==>
      forall i :: 0 <= i < |g.specs| ==> IsP1(g.specs[i])
  {
  }

  // ---------------------------------------------------------------------------
  // The dashboard state
  // ---------------------------------------------------------------------------

  class SeniorManagerDashboard {
    /** The P1 reports as loaded; the request that loads them is not part of this model. */
    var reports: seq<Report>
    var expandedReportId: Option<string>

    constructor(loaded: seq<Report>)
      ensures reports == loaded && expandedReportId == None
    {
      reports := loaded;
      expandedReportId := None;
    }

    /** `toggleReport`: a click on a report's summary row. */
    method ToggleReport(id: string)
      modifies this
      ensures expandedReportId == Toggle(old(expandedReportId), id)
      ensures reports == old(reports)
    {
      expandedReportId := if expandedReportId == Some(id) then None else Some(id);
    }

    /** The "Download P1 Report" button: the click stops propagating, so the accordion stays
        as it is, and the P1 export of that report is produced. */
    method DownloadReport(report: Report, logoLoads: bool) returns (outcome: PdfOutcome)
      ensures outcome == Outcome(P1Critical, report, logoLoads)
      ensures logoLoads ==> TotalRows(outcome.doc.sections) == |report.entries|
    {
      outcome := GenerateP1PDF(report, logoLoads);
      DocumentRowCount(P1Critical, report);
    }
  }
}
