/** What the two PDF exports have in common: the `DD-MM-YYYY` date, the fixed header and
    footer texts, the remarks block, the file name, and the document content they assemble
    (without any of the page geometry). */
module Pdf {
  import opened Common
  import opened Reports
  import opened Grouping

  // ---------------------------------------------------------------------------
  // `formatDateForISO`
  // ---------------------------------------------------------------------------

  /** `${day}-${month}-${year}` with day and month (one-based) padded to two digits. */
  function FormatDateForISO(d: CalendarDate): string {
    PadStart2(NatToString(d.day)) + "-" + PadStart2(NatToString(d.month0 + 1)) + "-" + IntToString(d.year)
  }

  /** Reads a `DD-MM-Y…` date back. */
  function ParseDateForISO(t: string): Option<CalendarDate> {
    if |t| >= 7 && AllDigits(t[..2]) && t[2] == '-' && AllDigits(t[3..5]) && t[5] == '-' && DigitsValue(t[3..5]) >= 1 then
      match ParseInt(t[6..])
      case Some(y) => Some(CalendarDate(DigitsValue(t[..2]), DigitsValue(t[3..5]) - 1, y))
      case None => None
    else None
  }

  /** The pieces of `a-b-c` when a and b have two characters each. */
  lemma DashedParts(a: string, b: string, c: string)
    requires |a| == 2 && |b| == 2
    ensures var t := a + "-" + b + "-" + c;
      |t| == 6 + |c| && t[..2] == a && t[2] == '-' && t[3..5] == b && t[5] == '-' && t[6..] == c
  {
    var t := a + "-" + b + "-" + c;
    assert t[..2] == a;
    assert t[3..5] == b;
    assert t[6..] == c;
  }

  /** The day and month fields of a valid date: two digits each. */
  lemma DayMonthFields(d: CalendarDate)
    requires ValidDate(d)
    ensures FormatDateForISO(d) == PadStart2(NatToString(d.day)) + "-" + PadStart2(NatToString(d.month0 + 1)) + "-" + IntToString(d.year)
    ensures |PadStart2(NatToString(d.day))| == 2 && AllDigits(PadStart2(NatToString(d.day)))
    ensures DigitsValue(PadStart2(NatToString(d.day))) == d.day
    ensures |PadStart2(NatToString(d.month0 + 1))| == 2 && AllDigits(PadStart2(NatToString(d.month0 + 1)))
    ensures DigitsValue(PadStart2(NatToString(d.month0 + 1))) == d.month0 + 1
  {
    PadStart2Value(d.day);
    PadStart2Value(d.month0 + 1);
  }

  /** The formatted date determines the date: day, month and year can be read back, whatever
      the year (a negative year keeps its minus sign). */
  lemma FormatDateRoundTrip(d: CalendarDate)
    requires ValidDate(d)
    ensures ParseDateForISO(FormatDateForISO(d)) == Some(d)
  {
    DayMonthFields(d);
    DashedParts(PadStart2(NatToString(d.day)), PadStart2(NatToString(d.month0 + 1)), IntToString(d.year));
    IntToStringRoundTrip(d.year);
  }

  /** For a four-digit year the date has the fixed shape `DD-MM-YYYY`: ten characters, dashes
      at positions 2 and 5 and digits everywhere else. */
  lemma FormatDateShape(d: CalendarDate)
    requires ValidDate(d) && 1000 <= d.year <= 9999
    ensures |FormatDateForISO(d)| == 10
    ensures FormatDateForISO(d)[2] == '-' && FormatDateForISO(d)[5] == '-'
    ensures forall i :: 0 <= i < 10 && i != 2 && i != 5 ==> IsDigit(FormatDateForISO(d)[i])
  {
    DayMonthFields(d);
    FourDigits(d.year);
    var dd, mm, yy := PadStart2(NatToString(d.day)), PadStart2(NatToString(d.month0 + 1)), IntToString(d.year);
    DashedParts(dd, mm, yy);
    var t := FormatDateForISO(d);
    forall i | 0 <= i < 10 && i != 2 && i != 5 ensures IsDigit(t[i]) {
      if i < 2 { assert t[i] == t[..2][i] == dd[i]; }
      else if i < 5 { assert t[i] == t[3..5][i - 3] == mm[i - 3]; }
      else { assert t[i] == t[6..][i - 6] == yy[i - 6]; }
    }
  }

  /** The formatted date holds only digits and dashes, so never an underscore. */
  lemma FormatDateNoUnderscore(d: CalendarDate)
    requires ValidDate(d)
    ensures forall i :: 0 <= i < |FormatDateForISO(d)| ==> FormatDateForISO(d)[i] != '_'
  {
    DayMonthFields(d);
    var dd, mm, yy := PadStart2(NatToString(d.day)), PadStart2(NatToString(d.month0 + 1)), IntToString(d.year);
    DashedParts(dd, mm, yy);
    YearText(d.year);
    var t := FormatDateForISO(d);
    forall i | 0 <= i < |t| ensures t[i] != '_' {
      if i < 2 { assert t[i] == t[..2][i] == dd[i]; }
      else if 2 < i < 5 { assert t[i] == t[3..5][i - 3] == mm[i - 3]; }
      else if 5 < i { assert t[i] == t[6..][i - 6] == yy[i - 6]; }
    }
  }

  /** The year is written with digits and at most a minus sign. */
  lemma YearText(y: int)
    ensures forall i :: 0 <= i < |IntToString(y)| ==> IntToString(y)[i] == '-' || IsDigit(IntToString(y)[i])
  {
    if y < 0 {
      var s := IntToString(y);
      assert forall i :: 1 <= i < |s| ==> s[i] == NatToString(-y)[i - 1];
    }
  }

  // ---------------------------------------------------------------------------
  // The fixed texts
  // ---------------------------------------------------------------------------

  /** The department box at the top left. */
  const Department: seq<string> := ["MECHANICAL", "MAINTENANCE & IBL"]
  const Division: string := "CHEMICALS' DIVISION"
  /** The column headings of every equipment table. */
  const TableHead: seq<string> := ["Parameter", "Status", "Action", "Priority"]
  const RemarksHeading: string := "Equipment Remarks:"
  const PageLabel: string := "Page 1 of 1"

  /** The signature row: form code, fitter, engineer, revision; 37 spaces separate the
      revision number from its date. */
  const Footer: seq<string> := [
    "QSF-510-02-07",
    "Name of fitter and sign",
    "Name of engineer and sign",
    "Rev No: 02" + Spaces(37) + "Rev Date: 25-05-2024"
  ]

  function Spaces(n: nat): (s: string)
    ensures |s| == n && forall i :: 0 <= i < n ==> s[i] == ' '
  {
    if n == 0 then "" else Spaces(n - 1) + " "
  }

  const OperatorPrefix: string := "Operator: "
  const SubmittedPrefix: string := "Submitted: "

  /** `Operator: ${operatorName}` */
  function OperatorLine(operatorName: string): string
  {
    OperatorPrefix + operatorName
  }

  /** `Submitted: ${formatDateForISO(createdAt)}` */
  function SubmittedLine(createdAt: CalendarDate): string {
    SubmittedPrefix + FormatDateForISO(createdAt)
  }

  /** The submission date can be read back from the submitted line. */
  lemma SubmittedLineRoundTrip(createdAt: CalendarDate)
    requires ValidDate(createdAt)
    ensures SubmittedLine(createdAt)[..|SubmittedPrefix|] == SubmittedPrefix
    ensures ParseDateForISO(SubmittedLine(createdAt)[|SubmittedPrefix|..]) == Some(createdAt)
  {
    assert SubmittedLine(createdAt)[|SubmittedPrefix|..] == FormatDateForISO(createdAt);
    FormatDateRoundTrip(createdAt);
  }

  /** `if (eqData.remarks)`: the heading and the remarks, or nothing. */
  function RemarksLines(g: Group): (lines: seq<string>)
    ensures lines != [] <==> g.remarks != ""
    ensures lines != [] ==> lines == [RemarksHeading, g.remarks]
  {
    if g.remarks != "" then [RemarksHeading, g.remarks] else []
  }

  // ---------------------------------------------------------------------------
  // The file name
  // ---------------------------------------------------------------------------

  /** `${prefix}${operatorName}_${formatDateForISO(createdAt)}.pdf` */
  function FileName(prefix: string, operatorName: string, createdAt: CalendarDate): string {
    prefix + operatorName + "_" + FormatDateForISO(createdAt) + ".pdf"
  }

  datatype FileParts = FileParts(operatorName: string, createdAt: CalendarDate)

  /** The position of the last occurrence of c. */
  function LastIndexOf(s: string, c: char): (r: Option<nat>)
    ensures r.Some? ==> r.value < |s| && s[r.value] == c && forall j :: r.value < j < |s| ==> s[j] != c
    ensures r.None? ==> forall j :: 0 <= j < |s| ==> s[j] != c
  {
    if s == [] then None
    else if s[|s| - 1] == c then Some(|s| - 1)
    else LastIndexOf(s[..|s| - 1], c)
  }

  /** Splits a file name back into operator name and date, at the last underscore. */
  function ParseFileName(prefix: string, fileName: string): Option<FileParts> {
    if |fileName| >= |prefix| + 4 && fileName[..|prefix|] == prefix && fileName[|fileName| - 4..] == ".pdf" then
      var middle := fileName[|prefix|..|fileName| - 4];
      match LastIndexOf(middle, '_')
      case None => None
      case Some(k) =>
        match ParseDateForISO(middle[k + 1..])
        case Some(d) => Some(FileParts(middle[..k], d))
        case None => None
    else None
  }

  /** The pieces of `prefix + middle + ".pdf"`. */
  lemma FileNameParts(prefix: string, middle: string)
    ensures var f := prefix + middle + ".pdf";
      |f| == |prefix| + |middle| + 4 && f[..|prefix|] == prefix && f[|f| - 4..] == ".pdf" && f[|prefix|..|f| - 4] == middle
  {
    var f := prefix + middle + ".pdf";
    assert f[..|prefix|] == prefix;
    assert f[|f| - 4..] == ".pdf";
    assert f[|prefix|..|f| - 4] == middle;
  }

  /** A tail without c does not move the last c. */
  lemma {:induction false} LastIndexOfAppend(s: string, t: string, c: char)
    requires forall i :: 0 <= i < |t| ==> t[i] != c
    ensures LastIndexOf(s + t, c) == LastIndexOf(s, c)
  {
    if t != [] {
      var t' := t[..|t| - 1];
      assert (s + t)[..|s + t| - 1] == s + t';
      LastIndexOfAppend(s, t', c);
    } else {
      assert s + t == s;
    }
  }

  /** In `name_date` with no underscore in date, the last underscore is the one after name. */
  lemma LastUnderscore(name: string, date: string)
    requires forall i :: 0 <= i < |date| ==> date[i] != '_'
    ensures LastIndexOf(name + "_" + date, '_') == Some(|name|)
    ensures (name + "_" + date)[..|name|] == name && (name + "_" + date)[|name| + 1..] == date
  {
    LastIndexOfAppend(name + "_", date, '_');
    var m := name + "_" + date;
    assert m[..|name|] == name;
    assert m[|name| + 1..] == date;
  }

  /** The file name determines the operator name and the date, even when the name itself
      contains underscores, because the date never does. */
  lemma FileNameRoundTrip(prefix: string, operatorName: string, createdAt: CalendarDate)
    requires ValidDate(createdAt)
    ensures ParseFileName(prefix, FileName(prefix, operatorName, createdAt)) == Some(FileParts(operatorName, createdAt))
  {
    var date := FormatDateForISO(createdAt);
    var middle := operatorName + "_" + date;
    assert FileName(prefix, operatorName, createdAt) == prefix + middle + ".pdf";
    FileNameParts(prefix, middle);
    FormatDateNoUnderscore(createdAt);
    LastUnderscore(operatorName, date);
    FormatDateRoundTrip(createdAt);
  }

  /** 25 May 2024; `getMonth()` gives 4 for May. */
  lemma DateExample()
    ensures FormatDateForISO(CalendarDate(25, 4, 2024)) == "25-05-2024"
  {
    assert NatToString(25) == "25" by { assert NatToString(25) == NatToString(2) + [DigitChar(5)]; }
    assert NatToString(2024) == "2024" by {
      assert NatToString(2024) == NatToString(202) + [DigitChar(4)];
      assert NatToString(202) == NatToString(20) + [DigitChar(2)];
      assert NatToString(20) == NatToString(2) + [DigitChar(0)];
    }
    assert PadStart2(NatToString(5)) == "05";
  }

  /** A report by "Raj Kumar" submitted on 25 May 2024. */
  lemma FileNameExample()
    ensures FileName("ISO_Report_", "Raj Kumar", CalendarDate(25, 4, 2024)) == "ISO_Report_Raj Kumar_25-05-2024.pdf"
  {
    DateExample();
  }

  // ---------------------------------------------------------------------------
  // The document content
  // ---------------------------------------------------------------------------

  /** One equipment block: its header text, its table body and its remarks block. */
  datatype PdfSection = PdfSection(heading: string, body: seq<seq<string>>, remarks: seq<string>)

  /** The text content of an export, top to bottom, and the name it is saved under. */
  datatype PdfDocument = PdfDocument(
    department: seq<string>,
    division: string,
    title: string,
    operatorLine: string,
    submittedLine: string,
    tableHead: seq<string>,
    sections: seq<PdfSection>,
    footer: seq<string>,
    pageLabel: string,
    fileName: string)

  /** A saved document, or the alert of the `catch` block. */
  datatype PdfOutcome = Saved(doc: PdfDocument) | Failed(message: string)

  /** The number of table rows over the sections. */
  function TotalRows(sections: seq<PdfSection>): nat {
    if sections == [] then 0 else TotalRows(sections[..|sections| - 1]) + |sections[|sections| - 1].body|
  }

  /** The total length of the groups' spec lists. */
  function TotalSpecs(gs: seq<Group>): nat {
    if gs == [] then 0 else TotalSpecs(gs[..|gs| - 1]) + |gs[|gs| - 1].specs|
  }

  lemma {:induction false} TotalSpecsAllSpecs(gs: seq<Group>)
    ensures TotalSpecs(gs) == |AllSpecs(gs)|
  {
    if gs != [] {
      TotalSpecsAllSpecs(gs[..|gs| - 1]);
    }
  }

  /** Over the groups of a report, the spec lists hold every entry once. */
  lemma GroupedTotalSpecs(s: seq<Entry>)
    ensures TotalSpecs(Grouped(s)) == |s|
  {
    TotalSpecsAllSpecs(Grouped(s));
    GroupedPermutation(s);
  }

  /** Sections with one row per spec, one per group, hold one row per group spec in total. */
  lemma {:induction false} TotalRowsOfGroups(sections: seq<PdfSection>, gs: seq<Group>)
    requires |sections| == |gs|
    requires forall i :: 0 <= i < |gs| ==> |sections[i].body| == |gs[i].specs|
    ensures TotalRows(sections) == TotalSpecs(gs)
  {
    if gs != [] {
      TotalRowsOfGroups(sections[..|sections| - 1], gs[..|gs| - 1]);
    }
  }
}
