# Equipment inspection client: a Dafny model

The system is a React client that plant operators use for daily equipment inspections. They
fill in a checklist (OK or Not OK per spec, with an action and remarks for a Not OK answer). They
save it per piece of equipment and then submit the whole report. Managers browse the submitted
reports grouped by equipment. Senior managers browse the reports that hold P1 (critical) entries.
Both kinds of report can be exported as a PDF.

This project models the sequential logic beneath the markup:

- **The inspection form** (`form.dfy`, `checklist.dfy`). This is the component state: operator
  name, shift, the one open accordion panel, the in-flight flag and the nested answer map
  `equipment → spec → {status, action, remarks}`.
  - The state is a class, `Form.ChecklistForm`; its methods are the event handlers.
  - The answer map and its updates are pure functions, and the lemmas state their properties.
  - The flattening loop that builds the submitted list is a method proved against a
    reference function.
- **Report aggregation** (`reports.dfy`, `grouping.dfy`). This covers the order-preserving
  filter and the "group by equipment in first-seen order" loop. The source writes that loop four
  times; here it is written once, as `Grouping.GroupByEquipment`, and the lemmas state the
  partition, order and counting facts the dashboards rely on.
- **The manager dashboard** (`manager.dfy`). This covers the issue counts, the badge and the
  labels, the "Not OK first" display sort (an in-place array method) and the accordion.
- **The senior manager dashboard** (`senior.dfy`). This covers the P1 counts, the banner and the
  badges, the fixed P1 row content, the accordion and the download button.
- **The PDF exports** (`pdf.dfy`, `exports.dfy`). This is the text the ISO and P1 generators put
  on the page: the `DD-MM-YYYY` date, the header and footer strings, the table rows per
  equipment, the remarks blocks and the file name.
  - No layout is modelled.
  - A document is a `Pdf.PdfDocument` value.

Conventions:

- A JavaScript object whose key order matters (`formData`, `equipmentGroups`) is a `Dicts.Dict`.
  A `Dict` is a key sequence in insertion order plus a map.
- A string that is `null` or `undefined` in the source is the empty string here.
- A timestamp is the `CalendarDate` (day, zero-based month, year) that `getDate`, `getMonth` and
  `getFullYear` give.
- The server's answer to a submission is an input, `Form.ServerReply`. The operator's answer to
  the confirmation dialog is a boolean. Whether the logo image loads is a boolean too, and it
  decides between a document and the alert of the `catch` block.

Where the design description and the code disagree, the model follows the code:

- The description says the full ISO export lists each group in the manager's display order. The
  code (`src/utils/pdfGenerator.js:170-175`) lists entries in input order, and so does the model.
- The description says the display sort is stable. The code's comparator at
  `src/ManagerDashboard.jsx:237` is not a consistent comparator at all (see Findings).
- The description says the submitted checklist follows the master-list order. The code
  (`src/EquipmentChecklist.jsx:206-210`) walks `formData` with `Object.entries`, so rows follow the
  order in which equipment and specs were first answered. The model does the same, and
  `Checklist.FlattenOrder` states it.

## Model

| member | source | states |
|---|---|---|
| Common.Trim | src/EquipmentChecklist.jsx:175 | `trim()` gives a slice of the input with only whitespace before and after it, and the slice neither starts nor ends with whitespace. |
| Common.TrimStart | src/EquipmentChecklist.jsx:175 | The first half of `trim()`: the result is the suffix of the input after its leading whitespace, and it does not start with whitespace. |
| Common.TrimEnd | src/EquipmentChecklist.jsx:175 | The second half of `trim()`: the result is the prefix of the input before its trailing whitespace, and it does not end with whitespace. |
| Common.BlankIffAllWhitespace | src/EquipmentChecklist.jsx:197 | `!name.trim()` holds exactly when every character of the name is whitespace. |
| Common.NatToStringRoundTrip | src/utils/pdfGenerator.js:45-47 | Reading back the decimal text of a number gives that number. |
| Common.IntToStringRoundTrip | src/utils/pdfGenerator.js:47 | Reading back the text of the year, with its sign, gives the year. |
| Common.PadStart2Value | src/utils/pdfGenerator.js:45-46 | `padStart(2, '0')` of a number below 100 gives two digits whose value is that number. |
| Common.FourDigits | src/utils/pdfGenerator.js:47 | A four-digit year is four characters long. |
| Common.OrDash | src/utils/pdfGenerator.js:173 | `x \|\| '-'` is x when x is non-empty and "-" otherwise; it is never empty. |
| Common.CountLabel | src/SeniorManagerDashboard.jsx:305 | `${n} noun${n > 1 ? 's' : ''}` starts with the number n and ends in 's' exactly when n > 1. |
| Common.CountLabelThen | src/SeniorManagerDashboard.jsx:305 | Text after a count label does not change the number read from its start. |
| Common.Toggle | src/EquipmentChecklist.jsx:145-147 | The exclusive accordion: the result is none exactly when the clicked id was open, and otherwise that id. |
| Common.ToggleTwice | src/ManagerDashboard.jsx:110-112 | Two clicks on the same id restore the state exactly when nothing or that id was open before. |
| Reports.Filter | src/ManagerDashboard.jsx:116 | `filter` never returns more entries than it was given. |
| Reports.FilterMembers | src/ManagerDashboard.jsx:116 | The filter keeps exactly the entries satisfying the predicate, and keeps all of them only when all satisfy it. |
| Reports.FilterAppend | src/ManagerDashboard.jsx:203 | Filtering a concatenation filters each part in turn, so relative order is kept. |
| Reports.FilterCountPermutation | src/ManagerDashboard.jsx:116 | Reordering the entries does not change a filter's count. |
| Reports.FilterSplit | src/ManagerDashboard.jsx:237 | Every entry is either Not OK or not, once: the two filters together are a permutation of the input. |
| Reports.FilterCountBounds | src/SeniorManagerDashboard.jsx:245 | A filter count is 0 exactly when no entry passes, and equals the length exactly when all pass. |
| Reports.FilterKeeps | src/ManagerDashboard.jsx:237 | Re-filtering by a weaker predicate changes nothing. |
| Reports.FilterDrops | src/ManagerDashboard.jsx:237 | Re-filtering by an excluded predicate leaves nothing. |
| Grouping.FirstSeenIds | src/ManagerDashboard.jsx:191-193 | The ids in order of first occurrence are distinct. |
| Grouping.FirstSeenIdsMembers | src/ManagerDashboard.jsx:191-193 | An id is among the first-seen ids exactly when some entry carries it. |
| Grouping.FirstIndex | src/ManagerDashboard.jsx:192-197 | The first entry with an id: it carries the id and no earlier entry does. |
| Grouping.GroupByEquipment | src/ManagerDashboard.jsx:190-200 | The `forEach` that fills `equipmentGroups`, followed by `Object.entries`, yields the reference grouping `Grouped`. The same loop appears at src/SeniorManagerDashboard.jsx:388-398, src/utils/pdfGenerator.js:144-154 and src/utils/pdfGeneratorP1.js:141-151. |
| Grouping.GroupedPartition | src/ManagerDashboard.jsx:190-200 | Group ids are distinct. Every entry lies in the group of its own equipment id and in no other, and a group holds only entries of its id. |
| Grouping.FirstSeenOrder | src/ManagerDashboard.jsx:191-198 | First-seen ids come in order of their first occurrence in the input. |
| Grouping.GroupedFirstSeenOrder | src/ManagerDashboard.jsx:191-198 | Groups come in order of first occurrence. Each group's name and remarks come from the first entry with its id, and its specs are its entries in input order. |
| Grouping.GroupedPermutation | src/ManagerDashboard.jsx:190-200 | Concatenating the groups' specs gives a permutation of the input. |
| Grouping.GroupCountsAddUp | src/ManagerDashboard.jsx:203 | For any predicate, the per-group counts add up to the count over the whole report. |
| Checklist.EquipmentNameLookup | src/EquipmentChecklist.jsx:207-208 | The name lookup never fails: a known id gets the name of its first master entry, and an unknown id stands for itself. |
| Checklist.SpecNameLookup | src/EquipmentChecklist.jsx:211-212 | The same holds for spec labels. |
| Checklist.MasterListFacts | src/EquipmentChecklist.jsx:5-41 | The master lists hold sixteen pieces of equipment and fifteen specs. The name "Crusher -1" belongs to two pieces of equipment. |
| Checklist.EquipmentIdsDistinct | src/EquipmentChecklist.jsx:6-23 | No two pieces of equipment in the master list share an id. |
| Checklist.SpecIdsDistinct | src/EquipmentChecklist.jsx:24-40 | No two checklist specs in the master list share an id. |
| Checklist.PutAnswer | src/EquipmentChecklist.jsx:150-161 | The nested spread stores the answer at (eq, sp), keeps every other answer, and adds a key only when it is new. |
| Checklist.SpecsOf | src/EquipmentChecklist.jsx:179 | `formData[eq] \|\| {}` gives exactly the answers stored for eq. |
| Checklist.SetStatus | src/EquipmentChecklist.jsx:149-162 | OK clears action and remarks. Any other status keeps a non-empty prior action or defaults it to "Repair", and keeps the prior remarks. Nothing else in the map changes. |
| Checklist.SetDetail | src/EquipmentChecklist.jsx:164-172 | Only the named field of the (eq, sp) answer changes, and no other answer does. |
| Checklist.SetStatusIdempotent | src/EquipmentChecklist.jsx:149-162 | Choosing the same status twice changes nothing the second time. |
| Checklist.OkDiscardsDetails | src/EquipmentChecklist.jsx:157-158 | After OK, switching back to Not OK gives the default action and empty remarks, whatever was typed before. |
| Checklist.DetailsSurviveNotOk | src/EquipmentChecklist.jsx:157-158 | Typed details survive a change between two statuses other than OK. |
| Checklist.AnsweredCountAfterStatus | src/EquipmentChecklist.jsx:180 | Answering a spec for the first time adds one to the equipment's answered count, and re-answering adds nothing. |
| Checklist.ValidateEquipment | src/EquipmentChecklist.jsx:174-194 | The save checks run in source order: blank name, then fewer answers than specs, then a Not OK answer without remarks. Each outcome holds exactly under its condition. |
| Checklist.RecordedMeansReady | src/EquipmentChecklist.jsx:174-194 | A recorded equipment has a non-blank name, at least as many answers as specs, and remarks on every Not OK answer. |
| Checklist.CompleteIffCountPasses | src/EquipmentChecklist.jsx:310-312 | When the answered keys are master spec ids, "complete" in the header holds exactly when the save check's count test passes. |
| Checklist.EmptyShaped | src/EquipmentChecklist.jsx:143 | The initial empty map is well shaped. |
| Checklist.SetStatusShaped | src/EquipmentChecklist.jsx:359-372 | A radio-button click keeps the answers shaped: master keys, OK or Not OK, and no details on an OK answer. |
| Checklist.SetDetailShaped | src/EquipmentChecklist.jsx:377-397 | Editing the detail inputs, which are shown only for a Not OK answer, keeps the answers shaped. |
| Checklist.ShapedCompleteIffCountPasses | src/EquipmentChecklist.jsx:310-312 | On shaped answers, "complete" holds exactly when the count test of the save check passes. |
| Checklist.SpecRows | src/EquipmentChecklist.jsx:210-222 | One row per given spec key, copying the answer and looking up the names. |
| Checklist.AppendSpecRows | src/EquipmentChecklist.jsx:210-222 | The inner `forEach` appends exactly the rows of one equipment's answers, in key order. |
| Checklist.BuildChecklist | src/EquipmentChecklist.jsx:203-224 | The nested `forEach` builds exactly the reference flattening `Flatten`. |
| Checklist.FlattenLength | src/EquipmentChecklist.jsx:203-224 | The list has one row per stored answer: the sum of the per-equipment answer counts. |
| Checklist.FlattenSound | src/EquipmentChecklist.jsx:214-222 | Each row copies status, action and remarks of the stored answer it stands for, and carries the looked-up names. |
| Checklist.FlattenComplete | src/EquipmentChecklist.jsx:203-224 | Every stored answer has a row: flattening drops nothing. |
| Checklist.FlattenOrder | src/EquipmentChecklist.jsx:206-210 | Rows follow the key insertion order of `formData` and then of each equipment's answers, not master-list order. |
| Form.SubmitGuard | src/EquipmentChecklist.jsx:197-199 | The three guards in order. Each result holds exactly under its condition, and none fires exactly when the request goes out. |
| Form.ReplyResult | src/EquipmentChecklist.jsx:238-250 | A reply is saved exactly when the server accepted the report, and it carries that report id. Otherwise it is a server or network error. |
| Form.ChecklistForm.constructor | src/EquipmentChecklist.jsx:137-143 | The initial state: no name, the morning shift, no open panel, no answers, nothing in flight. |
| Form.ChecklistForm.SetOperatorName | src/EquipmentChecklist.jsx:289 | Only the name changes. |
| Form.ChecklistForm.SetShift | src/EquipmentChecklist.jsx:294 | Only the shift changes. |
| Form.ChecklistForm.ToggleAccordion | src/EquipmentChecklist.jsx:145-147 | The open panel becomes `Toggle(old, id)`, and nothing else changes. |
| Form.ChecklistForm.HandleStatusChange | src/EquipmentChecklist.jsx:149-162 | The answers become `SetStatus(old answers, ...)`, and nothing else changes. |
| Form.ChecklistForm.HandleDetailChange | src/EquipmentChecklist.jsx:164-172 | The answers become `SetDetail(old answers, ...)`, and nothing else changes. |
| Form.ChecklistForm.HandleSingleAction | src/EquipmentChecklist.jsx:174-194 | The outcome is `ValidateEquipment`. The panel closes exactly on success, and nothing else changes. |
| Form.ChecklistForm.HandleGlobalSubmit | src/EquipmentChecklist.jsx:196-255 | A guard leaves the state unchanged and sends nothing. Otherwise one request goes out with name, shift and the flattened answers. A saved report clears name, answers and panel but keeps the shift. A failed one changes nothing. Nothing is in flight afterwards. |
| Form.ChecklistForm.Submit | src/EquipmentChecklist.jsx:201-254 | The part after the guards: the request, the reply's alert, and the reset that depends on the reply. |
| Form.ChecklistForm.ClearAfterSave | src/EquipmentChecklist.jsx:241-243 | The reset after a saved report: empty name, answers and panel, with the shift unchanged. |
| Form.AnyLacksRemarks | src/EquipmentChecklist.jsx:186 | The `some` loop finds a Not OK answer without remarks exactly when one exists. |
| Manager.IssueCount | src/ManagerDashboard.jsx:115-117 | The count of Not OK entries is at most the number of entries. It is 0 exactly when none is Not OK, and equals the length exactly when all are. |
| Manager.IssueCountsAddUp | src/ManagerDashboard.jsx:203 | The per-group issue counts add up to the report's issue count. |
| Manager.IssueCountPermutation | src/ManagerDashboard.jsx:237 | Sorting a group does not change its issue count. |
| Manager.ReportBadge | src/ManagerDashboard.jsx:169-177 | The badge shows a count exactly when some entry is Not OK, and that count is the issue count. Otherwise it shows "All Systems OK". |
| Manager.BadgeText | src/ManagerDashboard.jsx:171-175 | The badge text starts with the warning sign followed by the count, or is the all-OK text. |
| Manager.GroupIssueLabel | src/ManagerDashboard.jsx:220-223 | The group label is shown exactly when the group has an issue, and then reads as its count with the plural rule. |
| Manager.GroupIssueLabelCount | src/ManagerDashboard.jsx:222 | The shown label starts with the group's issue count and ends in 's' exactly when that count exceeds 1. |
| Manager.DisplayComparator | src/ManagerDashboard.jsx:237 | The comparator as written looks only at its first argument. |
| Manager.DisplayComparatorInconsistent | src/ManagerDashboard.jsx:237 | For two Not OK entries it says each comes first, and it never calls an entry equal to itself. |
| Manager.RankComparatorConsistent | src/ManagerDashboard.jsx:237 | The corrected comparator is antisymmetric, reflexive and transitive. |
| Manager.NotOkFirstPermutation | src/ManagerDashboard.jsx:237 | The display order is a permutation of the group's entries. |
| Manager.NotOkFirstSorted | src/ManagerDashboard.jsx:237 | Every Not OK entry precedes every other entry, and exactly the first IssueCount positions are Not OK. |
| Manager.NotOkFirstStable | src/ManagerDashboard.jsx:237 | Entries of equal status keep their relative order. |
| Manager.SortForDisplay | src/ManagerDashboard.jsx:237 | The in-place sort leaves the array in the stable Not OK first order of its old contents. |
| Manager.CopyMatching | src/ManagerDashboard.jsx:237 | One pass writes the matching entries, in order, after the given prefix. |
| Manager.ManagerRow | src/ManagerDashboard.jsx:238-249 | The row shows the spec name, "Not OK" exactly for an issue and "OK" otherwise, and the action or "-". |
| Manager.ManagerTableShape | src/ManagerDashboard.jsx:237-249 | One row per entry, and the Not OK rows are exactly the first IssueCount rows. |
| Manager.RemarksShown | src/ManagerDashboard.jsx:257-269 | The remarks box is shown exactly when the group's remarks are non-empty, and shows them. |
| Manager.ManagerDashboard.constructor | src/ManagerDashboard.jsx:83-85 | The dashboard starts with the given reports and no report expanded. |
| Manager.ManagerDashboard.ToggleReport | src/ManagerDashboard.jsx:110-112 | The expanded report becomes `Toggle(old, id)`, and the reports are unchanged. |
| Senior.P1Count | src/SeniorManagerDashboard.jsx:244-246 | The count of P1 entries is at most the number of entries. It is 0 exactly when none is P1, and equals the length exactly when all are. |
| Senior.P1CountsAddUp | src/SeniorManagerDashboard.jsx:401 | The per-group P1 counts add up to the report's P1 count. |
| Senior.ReportsBanner | src/SeniorManagerDashboard.jsx:283-307 | The success banner appears exactly for an empty list. Otherwise the banner starts with the number of reports and ends with the fixed sentence. |
| Senior.BannerPlural | src/SeniorManagerDashboard.jsx:305 | The banner says "Reports" exactly when there is more than one. |
| Senior.P1Badge | src/SeniorManagerDashboard.jsx:374 | The badge reads the report's P1 count after the red circle and ends in 's' exactly when that count exceeds 1. |
| Senior.CriticalLabel | src/SeniorManagerDashboard.jsx:420 | The label, shown even at zero, reads the group's P1 count with the plural rule. |
| Senior.SeniorTableShape | src/SeniorManagerDashboard.jsx:435-462 | One row per entry, in input order and unsorted. The row holds the spec name, a fixed "Not OK", the action or "-", and a fixed P1 marker, whatever is stored. |
| Senior.CriticalLabelMatchesRows | src/SeniorManagerDashboard.jsx:401-462 | The label counts at most the rows shown, and counts all of them exactly when every entry is P1. |
| Senior.SeniorManagerDashboard.constructor | src/SeniorManagerDashboard.jsx:212-214 | The dashboard starts with the given reports and no report expanded. |
| Senior.SeniorManagerDashboard.ToggleReport | src/SeniorManagerDashboard.jsx:239-241 | The expanded report becomes `Toggle(old, id)`, and the reports are unchanged. |
| Senior.SeniorManagerDashboard.DownloadReport | src/SeniorManagerDashboard.jsx:340-345 | The click yields the P1 export of the report, with one row per entry, and leaves the accordion as it is. |
| Pdf.FormatDateRoundTrip | src/utils/pdfGenerator.js:43-49 | Day, month and year can be read back from `DD-MM-YYYY`, for any year. |
| Pdf.FormatDateShape | src/utils/pdfGenerator.js:43-49 | For a four-digit year the date is ten characters: digits, with dashes at positions 2 and 5. |
| Pdf.FormatDateNoUnderscore | src/utils/pdfGenerator.js:43-49 | The date holds no underscore. |
| Pdf.DateExample | src/utils/pdfGenerator.js:43-49 | 25 May 2024 is written "25-05-2024". |
| Pdf.SubmittedLineRoundTrip | src/utils/pdfGenerator.js:138 | The submitted line is the prefix followed by a date that reads back as the submission date. |
| Pdf.RemarksLines | src/utils/pdfGenerator.js:225-233 | The remarks block is emitted exactly when the remarks are non-empty, and then holds the heading and the remarks. |
| Pdf.LastIndexOf | src/utils/pdfGenerator.js:277 | The position found holds the character, and no later position does. None means the character does not occur. |
| Pdf.FileNameRoundTrip | src/utils/pdfGenerator.js:277 | The file name gives back the operator name and the date, even when the name holds underscores. |
| Pdf.FileNameExample | src/utils/pdfGenerator.js:277 | "Raj Kumar" on 25 May 2024 gives `ISO_Report_Raj Kumar_25-05-2024.pdf`. |
| Pdf.GroupedTotalSpecs | src/utils/pdfGenerator.js:144-154 | The groups' spec lists hold every entry once. |
| Pdf.TotalRowsOfGroups | src/utils/pdfGenerator.js:170-175 | Sections with one row per spec hold as many rows as the groups hold specs. |
| Exports.RenderSections | src/utils/pdfGenerator.js:157-236 | The `forEach` over the groups renders exactly one section per group, in order. |
| Exports.Generate | src/utils/pdfGenerator.js:56-284 | A document when the logo loads, the export's alert otherwise. |
| Exports.GenerateISOPDF | src/utils/pdfGenerator.js:56-284 | The ISO export: the fixed header and footer, one section per equipment in first-seen order, and the `ISO_Report_` file name. |
| Exports.GenerateP1PDF | src/utils/pdfGeneratorP1.js:56-274 | The P1 export: the same, with the P1 title, the critical headings, the fixed priority cell and the `P1_CRITICAL_Report_` file name. |
| Exports.DocumentRowCount | src/utils/pdfGenerator.js:144-175 | One section per equipment and one row per entry: no entry is dropped or printed twice. |
| Exports.DocumentRowsPlaced | src/utils/pdfGenerator.js:157-175 | Every entry's row is printed under its own equipment, and every row of a section belongs to an entry of that equipment. |
| Exports.DocumentSectionsFromFirstEntry | src/utils/pdfGenerator.js:147-151 | A section's heading and remarks come from the first entry of its equipment. |
| Exports.StatusEmphasis | src/utils/pdfGenerator.js:199-205 | The status cell is emphasised exactly for Not OK entries. |
| Exports.IsoPriorityCell | src/utils/pdfGenerator.js:206-217 | The ISO priority cell reads "P1" exactly for P1 entries and a dash when no priority is set. It is emphasised exactly for P1, P2 and P3. |
| Exports.P1RowsMarked | src/utils/pdfGeneratorP1.js:169-174 | Every P1 row ends in "P1 - CRITICAL" whatever priority is stored, and shows the stored status. |
| Exports.SectionsAgree | src/utils/pdfGeneratorP1.js:163-174 | The P1 section of a group is its ISO section with the critical heading and another priority column. |
| Exports.ExportsAgree | src/utils/pdfGeneratorP1.js:141-174 | For the same groups both exports print the same rows, apart from the priority column, under the same names and with the same remarks. |
| Exports.FileNamesDiffer | src/utils/pdfGeneratorP1.js:267 | The two exports of one report never share a file name. |
| Exports.DocumentFileName | src/utils/pdfGeneratorP1.js:267 | A saved export's file name gives back the operator and the submission date. |

## Left out

- The `fetch` calls that submit and load reports. A reply to a submission is an input, and the
  loaded reports are a constructor argument of each dashboard. On a failed load the source keeps
  its initial empty list and shows an alert (`src/ManagerDashboard.jsx:83`, `:97-103`), which is
  the constructor called with no reports. The `loading` flag and its spinner are not modelled.
- `alert`, `console`, `navigate` and `window.confirm`. The confirmation is a boolean input, and
  the alerts are result values.
- Rendering, styles, hover handlers and colours.
- The PDF page layout: coordinates, column widths, fonts, colours, `splitTextToSize` and
  `doc.save`. This is floating-point, library-bound geometry.
- The black-and-white conversion of the logo (canvas and floating-point weights). Whether the
  logo loads is a boolean input.
- `new Date(...)` and `toLocaleString`, which depend on the time zone and the locale. Dates enter
  the model as calendar fields.
- `src/App.jsx`, which holds only routes.
- The server-side restriction of the senior view to P1 reports. The client does not do it, and
  the model shows what the client prints for whatever it is given.
- Key order of JavaScript objects for integer-like keys. Equipment and spec ids such as `eq_01`
  keep insertion order, and `Dicts.Dict` models exactly that.
- Grouping.GroupByEquipment: `equipmentGroups` is a plain `{}`. An equipment id that names an
  `Object.prototype` member, such as `constructor` or `toString`, finds that member, so
  `!equipmentGroups[id]` is false and `.specs.push` throws. The model treats every id as a fresh
  key and does not capture that crash.
- `trim()` uses a simplified set of whitespace characters: space, tab, newline, carriage return,
  vertical tab, form feed and the no-break space. The other Unicode space characters are not included.
- Form.ChecklistForm.HandleSingleAction: the equipment name passed to it appears only in alert
  texts, so it is not a parameter.
- Form.ChecklistForm.HandleGlobalSubmit: the `isSubmitting` flag is set while the request is in
  flight and cleared in `finally`. The handler runs to completion here, so only "false before and
  after" is observable. What this loses:
  - The request carries the name and answers as they were at the click
    (`src/EquipmentChecklist.jsx:206-229`).
  - Edits made while the request is pending are thrown away by the reset on success (`:243-244`).
  - Edits made while the request is pending are kept on failure. The model has no such edits.
- Checklist.SetDetail: an edit of the action or remarks of a spec with no status stores an answer
  whose status is empty. The inputs are rendered only for a Not OK answer, so this case is
  unreachable from the page. The model keeps it, and `Checklist.SetDetailShaped` states the
  reachable case.
- Manager.BadgeText: the summary badge always says "Issues Found", even for a count of 1. It is
  modelled as written.
- Manager.SortForDisplay: the model sorts with the consistent comparator. With the comparator as
  written the result order is implementation-defined (see Findings).

## Findings

| source | as written | input that shows it | evidently intended | confidence | as-written member | corrected member |
|---|---|---|---|---|---|---|
| src/ManagerDashboard.jsx:237 | `(a, b) => (a.status === 'Not OK' ? -1 : 1)` ignores `b`. It says a Not OK entry precedes every entry, including another Not OK entry and itself, so `sort` gets an inconsistent comparator and its result order is implementation-defined. | two Not OK entries a and b: cmp(a, b) = cmp(b, a) = -1, and cmp(e, e) is never 0 | a stable "Not OK first" order: Not OK entries in input order, then the rest in input order | not executed | Manager.DisplayComparatorInconsistent | Manager.SortForDisplay |
