/** `generateISOPDF` and `generateP1PDF`: the two exports share their layout and differ in the
    title, the equipment heading, the priority column, the file name prefix and the alert. */
module Exports {
  import opened Common
  import opened Reports
  import opened Grouping
  import opened Pdf

  /** The full ISO checklist, or the senior manager's P1 report. */
  datatype Export = IsoChecklist | P1Critical

  const P1Marker: string := "P1 - CRITICAL"
  /** The warning sign before a P1 equipment heading (U+26A0, without a variation selector). */
  const CriticalSign: string := "\U{26A0} "
  const CriticalSuffix: string := " - CRITICAL"

  function Title(x: Export): string {
    match x
    case IsoChecklist => "TITLE : MHY Limestone Plant Daily LLF Checklist"
    case P1Critical => "P1 CRITICAL ISSUES - URGENT ATTENTION REQUIRED"
  }

  function FilePrefix(x: Export): string {
    match x
    case IsoChecklist => "ISO_Report_"
    case P1Critical => "P1_CRITICAL_Report_"
  }

  /** The alert of the `catch` block. */
  function FailureMessage(x: Export): string {
    match x
    case IsoChecklist => "Failed to generate PDF. Please try again."
    case P1Critical => "Failed to generate P1 PDF. Please try again."
  }

  /** The text in an equipment's header bar. */
  function Heading(x: Export, g: Group): string {
    match x
    case IsoChecklist => g.name
    case P1Critical => CriticalSign + g.name + CriticalSuffix
  }

  /** `[specName, status, action || '-', …]`: the ISO export shows the stored priority (or a
      dash), the P1 export a fixed marker. */
  function Row(x: Export, e: Entry): seq<string> {
    [e.specName, e.status, OrDash(e.action), if x == IsoChecklist then OrDash(e.priority) else P1Marker]
  }

  /** One equipment block: heading, one row per spec in input order, remarks. */
  function Section(x: Export, g: Group): PdfSection {
    PdfSection(Heading(x, g), seq(|g.specs|, i requires 0 <= i < |g.specs| => Row(x, g.specs[i])), RemarksLines(g))
  }

  function Sections(x: Export, gs: seq<Group>): seq<PdfSection> {
    seq(|gs|, i requires 0 <= i < |gs| => Section(x, gs[i]))
  }

  /** The content of the saved document. */
  function Document(x: Export, r: Report): PdfDocument {
    PdfDocument(
      Department, Division, Title(x),
      OperatorLine(r.operatorName), SubmittedLine(r.createdAt),
      TableHead, Sections(x, Grouped(r.entries)),
      Footer, PageLabel, FileName(FilePrefix(x), r.operatorName, r.createdAt))
  }

  /** What one click on a download button yields: the document, or the alert when the logo
      cannot be loaded (the failure of the `try` block that the model keeps). */
  function Outcome(x: Export, r: Report, logoLoads: bool): PdfOutcome {
    if logoLoads then Saved(Document(x, r)) else Failed(FailureMessage(x))
  }

  // ---------------------------------------------------------------------------
  // The generators
  // ---------------------------------------------------------------------------

  /** The `forEach` over `Object.entries(equipmentGroups)` that renders each block. */
  method RenderSections(x: Export, groups: seq<Group>) returns (sections: seq<PdfSection>)
    ensures sections == Sections(x, groups)
  {
    sections := [];
    var i := 0;
    while i < |groups|
      invariant 0 <= i <= |groups|
      invariant sections == Sections(x, groups[..i])
    {
      sections := sections + [Section(x, groups[i])];
      i := i + 1;
    }
    assert groups[..i] == groups;
  }

  method Generate(x: Export, report: Report, logoLoads: bool) returns (outcome: PdfOutcome)
    ensures outcome == Outcome(x, report, logoLoads)
  {
    if !logoLoads {
      return Failed(FailureMessage(x));
    }
    var groups := GroupByEquipment(report.entries);
    var sections := RenderSections(x, groups);
    var fileName := FilePrefix(x) + report.operatorName + "_" + FormatDateForISO(report.createdAt) + ".pdf";
    outcome := Saved(PdfDocument(
      Department, Division, Title(x),
      OperatorLine(report.operatorName), SubmittedLine(report.createdAt),
      TableHead, sections, Footer, PageLabel, fileName));
  }

  /** `generateISOPDF(report)`. */
  method GenerateISOPDF(report: Report, logoLoads: bool) returns (outcome: PdfOutcome)
    ensures outcome == Outcome(IsoChecklist, report, logoLoads)
  {
    outcome := Generate(IsoChecklist, report, logoLoads);
  }

  /** `generateP1PDF(report)`. */
  method GenerateP1PDF(report: Report, logoLoads: bool) returns (outcome: PdfOutcome)
    ensures outcome == Outcome(P1Critical, report, logoLoads)
  {
    outcome := Generate(P1Critical, report, logoLoads);
  }

  // ---------------------------------------------------------------------------
  // What the documents hold
  // ---------------------------------------------------------------------------

  /** One section per equipment, in order of first occurrence, and one table row per entry:
      no entry is dropped or printed twice. */
  lemma DocumentRowCount(x: Export, r: Report)
    ensures |Document(x, r).sections| == |Grouped(r.entries)|
    ensures TotalRows(Document(x, r).sections) == |r.entries|
  {
    var gs := Grouped(r.entries);
    TotalRowsOfGroups(Sections(x, gs), gs);
    GroupedTotalSpecs(r.entries);
  }

  /** Some section of equipment eqId holds the row. */
  predicate PrintedUnder(sections: seq<PdfSection>, gs: seq<Group>, eqId: string, row: seq<string>) {
    exists i, j :: 0 <= i < |gs| && i < |sections| && 0 <= j < |sections[i].body| &&
      gs[i].equipmentId == eqId && sections[i].body[j] == row
  }

  /** Every entry has its row in the section of its own equipment, and every row of a section
      belongs to an entry of that equipment. */
  lemma DocumentRowsPlaced(x: Export, r: Report)
    ensures forall k :: 0 <= k < |r.entries| ==>
      PrintedUnder(Document(x, r).sections, Grouped(r.entries), r.entries[k].equipmentId, Row(x, r.entries[k]))
    ensures forall i, j :: 0 <= i < |Grouped(r.entries)| && 0 <= j < |Grouped(r.entries)[i].specs| ==>
      Grouped(r.entries)[i].specs[j].equipmentId == Grouped(r.entries)[i].equipmentId &&
      Document(x, r).sections[i].body[j] == Row(x, Grouped(r.entries)[i].specs[j])
  {
    GroupedPartition(r.entries);
    RowsPlaced(x, r.entries, Grouped(r.entries));
  }

  /** The same, for any grouping that places every entry in a group of its equipment. */
  lemma RowsPlaced(x: Export, s: seq<Entry>, gs: seq<Group>)
    requires forall k :: 0 <= k < |s| ==> exists i :: 0 <= i < |gs| && gs[i].equipmentId == s[k].equipmentId
    requires forall i, k :: 0 <= i < |gs| && 0 <= k < |s| ==> (s[k] in gs[i].specs <==> gs[i].equipmentId == s[k].equipmentId)
    requires forall i, e :: 0 <= i < |gs| && e in gs[i].specs ==> e.equipmentId == gs[i].equipmentId
    ensures forall k :: 0 <= k < |s| ==> PrintedUnder(Sections(x, gs), gs, s[k].equipmentId, Row(x, s[k]))
    ensures forall i, j :: 0 <= i < |gs| && 0 <= j < |gs[i].specs| ==>
      gs[i].specs[j].equipmentId == gs[i].equipmentId && Sections(x, gs)[i].body[j] == Row(x, gs[i].specs[j])
  {
    var sections := Sections(x, gs);
    forall k | 0 <= k < |s|
      ensures PrintedUnder(sections, gs, s[k].equipmentId, Row(x, s[k]))
    {
      var e := s[k];
      assert exists i :: 0 <= i < |gs| && gs[i].equipmentId == e.equipmentId;
      var i :| 0 <= i < |gs| && gs[i].equipmentId == e.equipmentId;
      assert e in gs[i].specs;
      var j :| 0 <= j < |gs[i].specs| && gs[i].specs[j] == e;
      assert sections[i].body[j] == Row(x, e);
    }
    forall i, j | 0 <= i < |gs| && 0 <= j < |gs[i].specs|
      ensures gs[i].specs[j].equipmentId == gs[i].equipmentId
    {
      assert gs[i].specs[j] in gs[i].specs;
    }
  }

  /** A section's heading and remarks come from the first entry of its equipment: later
      entries of the same equipment cannot rename it or change its remarks. */
  lemma DocumentSectionsFromFirstEntry(x: Export, r: Report, i: nat)
    requires i < |Grouped(r.entries)|
    ensures var id := Grouped(r.entries)[i].equipmentId;
      HasEquipment(r.entries, id) &&
      var first := r.entries[FirstIndex(r.entries, id)];
      && Document(x, r).sections[i].heading == Heading(x, Group(id, first.equipmentName, first.equipmentRemarks, []))
      && (Document(x, r).sections[i].remarks != [] <==> first.equipmentRemarks != "")
      && (first.equipmentRemarks != "" ==> Document(x, r).sections[i].remarks == [RemarksHeading, first.equipmentRemarks])
  {
    FirstSeenIdsMembers(r.entries);
  }

  // ---------------------------------------------------------------------------
  // The cell styling of `didParseCell`
  // ---------------------------------------------------------------------------

  /** Whether a body cell is drawn in bold colour: the status column when it reads `Not OK`;
      the priority column when it reads `P1`, `P2` or `P3` in the ISO export and always in the
      P1 export. */
  predicate Emphasised(x: Export, column: nat, cell: string) {
    if column == 1 then cell == StatusNotOk
    else if column == 3 then (x == P1Critical || cell == "P1" || cell == "P2" || cell == "P3")
    else false
  }

  /** The status is emphasised exactly for Not OK entries, in either export. */
  lemma StatusEmphasis(x: Export, e: Entry)
    ensures Emphasised(x, 1, Row(x, e)[1]) <==> IsIssue(e)
  {
  }

  /** In the ISO export a P1 entry shows `P1` in bold, an entry without a priority shows a
      plain dash, and the priority cell is emphasised exactly when a P1, P2 or P3 is stored. */
  lemma IsoPriorityCell(e: Entry)
    ensures Row(IsoChecklist, e)[3] == PriorityP1 <==> IsP1(e)
    ensures e.priority == "" ==> Row(IsoChecklist, e)[3] == "-" && !Emphasised(IsoChecklist, 3, Row(IsoChecklist, e)[3])
    ensures Emphasised(IsoChecklist, 3, Row(IsoChecklist, e)[3]) <==> e.priority in {"P1", "P2", "P3"}
  {
  }

  /** The P1 export prints the same emphasised marker whatever priority is stored, and prints
      the stored status as is (unlike the senior dashboard, which prints a fixed Not OK). */
  lemma P1RowsMarked(gs: seq<Group>)
    ensures forall i, j :: 0 <= i < |gs| && 0 <= j < |gs[i].specs| ==>
      var row := Sections(P1Critical, gs)[i].body[j];
      row[3] == P1Marker && Emphasised(P1Critical, 3, row[3]) && row[1] == gs[i].specs[j].status
  {
    forall i, j | 0 <= i < |gs| && 0 <= j < |gs[i].specs|
      ensures Sections(P1Critical, gs)[i].body[j] == Row(P1Critical, gs[i].specs[j])
    {
      assert Sections(P1Critical, gs)[i] == Section(P1Critical, gs[i]);
    }
  }

  /** The two sections of one group agree apart from the heading decoration and the priority
      column. */
  lemma SectionsAgree(g: Group)
    ensures Section(P1Critical, g).heading == CriticalSign + Section(IsoChecklist, g).heading + CriticalSuffix
    ensures |Section(IsoChecklist, g).body| == |Section(P1Critical, g).body|
    ensures Section(IsoChecklist, g).remarks == Section(P1Critical, g).remarks
    ensures forall j :: 0 <= j < |g.specs| ==> Section(IsoChecklist, g).body[j][..3] == Section(P1Critical, g).body[j][..3]
  {
  }

  /** Both exports of the same groups list the same rows apart from the priority column, under
      the same equipment names and with the same remarks. */
  lemma ExportsAgree(gs: seq<Group>)
    ensures |Sections(IsoChecklist, gs)| == |Sections(P1Critical, gs)| == |gs|
    ensures forall i :: 0 <= i < |gs| ==>
      var iso, p1 := Sections(IsoChecklist, gs)[i], Sections(P1Critical, gs)[i];
      && p1.heading == CriticalSign + iso.heading + CriticalSuffix
      && |iso.body| == |p1.body|
      && iso.remarks == p1.remarks
      && forall j :: 0 <= j < |iso.body| ==> iso.body[j][..3] == p1.body[j][..3]
  {
    forall i | 0 <= i < |gs|
      ensures Sections(IsoChecklist, gs)[i] == Section(IsoChecklist, gs[i])
      ensures Sections(P1Critical, gs)[i] == Section(P1Critical, gs[i])
    {
      SectionsAgree(gs[i]);
    }
  }

  /** The two exports of one report are saved under different names. */
  lemma FileNamesDiffer(r: Report)
    ensures Document(IsoChecklist, r).fileName != Document(P1Critical, r).fileName
  {
    var a, b := Document(IsoChecklist, r).fileName, Document(P1Critical, r).fileName;
    assert a[0] == 'I' && b[0] == 'P';
  }

  /** A saved export's name gives back the operator and the submission date. */
  lemma DocumentFileName(x: Export, r: Report)
    requires ValidDate(r.createdAt)
    ensures ParseFileName(FilePrefix(x), Document(x, r).fileName) == Some(FileParts(r.operatorName, r.createdAt))
  {
    FileNameRoundTrip(FilePrefix(x), r.operatorName, r.createdAt);
  }
}
