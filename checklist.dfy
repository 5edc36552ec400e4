/** The daily inspection form: the master list of equipment and check parameters, the nested
    answer map `formData : equipment id -> spec id -> {status, action, remarks}`, the rules
    that update it, the per-equipment save check and the flattening of the map into the list
    of rows that is submitted. The form's component state is the class `ChecklistForm`. */
module Checklist {
  import opened Common
  import opened Dicts
  import opened Reports

  // ---------------------------------------------------------------------------
  // Master data
  // ---------------------------------------------------------------------------

  datatype Equipment = Equipment(id: string, name: string, location: string)

  /** One check parameter; `text` is the `label` shown for it. */
  datatype ChecklistSpec = ChecklistSpec(id: string, text: string)

  const OldCoalPlant: string := "Old Coal Plant"
  const NewCoalPlant: string := "New Coal Plant"

  /** The fixed lists the form is built from. */
  datatype MasterData = MasterData(equipments: seq<Equipment>, checklistSpecs: seq<ChecklistSpec>)

  /** `masterData`: sixteen pieces of equipment in two plants and fifteen check parameters. */
  const MasterList: MasterData := MasterData(Equipments, ChecklistSpecs)

  const Equipments: seq<Equipment> := [
    Equipment("eq_01", "L-1 Conveyor", OldCoalPlant),
    Equipment("eq_02", "Vibrofeeder -1", OldCoalPlant),
    Equipment("eq_03", "Vibrofeeder-2", OldCoalPlant),
    Equipment("eq_04", "Crusher -1", OldCoalPlant),
    Equipment("eq_05", "Crusher -2", OldCoalPlant),
    Equipment("eq_06", "B2-Conveyor", OldCoalPlant),
    Equipment("eq_07", "P-1 Conveyor", NewCoalPlant),
    Equipment("eq_08", "Vibrator -1", NewCoalPlant),
    Equipment("eq_09", "Vibrator -2", NewCoalPlant),
    Equipment("eq_10", "Crusher -1", NewCoalPlant),
    Equipment("eq_11", "Crusher -2", NewCoalPlant),
    Equipment("eq_12", "Vibrator-3", NewCoalPlant),
    Equipment("eq_13", "Vibrator -4", NewCoalPlant),
    Equipment("eq_14", "P2- Conveyor", NewCoalPlant),
    Equipment("eq_15", "R1- Conveyor", NewCoalPlant),
    Equipment("eq_16", "R2- Conveyor", NewCoalPlant)
  ]

  const ChecklistSpecs: seq<ChecklistSpec> := [
    ChecklistSpec("sp_01", "Abnormal Sound"),
    ChecklistSpec("sp_02", "Guard all"),
    ChecklistSpec("sp_03", "Condition of Gear box"),
    ChecklistSpec("sp_04", "V belt/ chain/coupling condition"),
    ChecklistSpec("sp_05", "Vibration"),
    ChecklistSpec("sp_06", "Bearing/Temp/Abnormality"),
    ChecklistSpec("sp_07", "Base plate J bolt"),
    ChecklistSpec("sp_08", "Condition of belt"),
    ChecklistSpec("sp_09", "Condition of roller"),
    ChecklistSpec("sp_10", "Condition of skirt plate/rubber"),
    ChecklistSpec("sp_11", "Oil/Grease level"),
    ChecklistSpec("sp_12", "Condition of pulley"),
    ChecklistSpec("sp_13", "Condition of Screen/Pan plate"),
    ChecklistSpec("sp_14", "Condition of dumping pad"),
    ChecklistSpec("sp_15", "Any other issues")
  ]

  /** The default action a "Not OK" answer gets. */
  const DefaultAction: string := "Repair"

  /** The shift the form starts on. */
  const DefaultShift: string := "Morning"

  /** `items.find(matches)`, as the position of the first match. */
  function FindFirst<T>(items: seq<T>, matches: T -> bool): (r: Option<nat>)
    ensures r.Some? ==> r.value < |items| && matches(items[r.value])
    ensures r.Some? ==> forall j :: 0 <= j < r.value ==> !matches(items[j])
    ensures r.None? ==> forall j :: 0 <= j < |items| ==> !matches(items[j])
  {
    if items == [] then None
    else if matches(items[0]) then Some(0)
    else
      var r := FindFirst(items[1..], matches);
      assert forall j :: 1 <= j < |items| ==> items[j] == items[1..][j - 1];
      if r.Some? then Some(r.value + 1) else None
  }

  /** `eqInfo ? eqInfo.name : eqId`: the name of the first master equipment with that id, or
      the id itself when there is none. */
  function EquipmentName(m: MasterData, id: string): string {
    var r := FindFirst(m.equipments, (e: Equipment) => e.id == id);
    if r.Some? then m.equipments[r.value].name else id
  }

  /** `specInfo ? specInfo.label : specId`, with the same fallback. */
  function SpecName(m: MasterData, id: string): string {
    var r := FindFirst(m.checklistSpecs, (s: ChecklistSpec) => s.id == id);
    if r.Some? then m.checklistSpecs[r.value].text else id
  }

  /** The name lookup never fails: a known id gets the name of its first master entry, an
      unknown one stands for itself. */
  lemma EquipmentNameLookup(m: MasterData, id: string)
    ensures (exists i :: 0 <= i < |m.equipments| && m.equipments[i].id == id) ==>
      exists i :: 0 <= i < |m.equipments| && m.equipments[i].id == id && EquipmentName(m, id) == m.equipments[i].name &&
        forall j :: 0 <= j < i ==> m.equipments[j].id != id
    ensures (forall i :: 0 <= i < |m.equipments| ==> m.equipments[i].id != id) ==> EquipmentName(m, id) == id
  {
    var r := FindFirst(m.equipments, (e: Equipment) => e.id == id);
    if r.Some? {
      assert m.equipments[r.value].id == id;
    }
  }

  lemma SpecNameLookup(m: MasterData, id: string)
    ensures (exists i :: 0 <= i < |m.checklistSpecs| && m.checklistSpecs[i].id == id) ==>
      exists i :: 0 <= i < |m.checklistSpecs| && m.checklistSpecs[i].id == id && SpecName(m, id) == m.checklistSpecs[i].text &&
        forall j :: 0 <= j < i ==> m.checklistSpecs[j].id != id
    ensures (forall i :: 0 <= i < |m.checklistSpecs| ==> m.checklistSpecs[i].id != id) ==> SpecName(m, id) == id
  {
    var r := FindFirst(m.checklistSpecs, (s: ChecklistSpec) => s.id == id);
    if r.Some? {
      assert m.checklistSpecs[r.value].id == id;
    }
  }

  /** The master lists hold sixteen pieces of equipment and fifteen specs, and two different
      pieces of equipment share the name "Crusher -1", so names are not keys. */
  lemma MasterListFacts()
    ensures |MasterList.equipments| == 16 && |MasterList.checklistSpecs| == 15
    ensures MasterList.equipments[3].id != MasterList.equipments[9].id
    ensures MasterList.equipments[3].name == MasterList.equipments[9].name == "Crusher -1"
  {
  }

  /** No two pieces of equipment share an id. */
  lemma EquipmentIdsDistinct()
    ensures forall i, j :: 0 <= i < j < |MasterList.equipments| ==>
      MasterList.equipments[i].id != MasterList.equipments[j].id
  {
  }

  /** No two checklist specs share an id. */
  lemma SpecIdsDistinct()
    ensures forall i, j :: 0 <= i < j < |MasterList.checklistSpecs| ==>
      MasterList.checklistSpecs[i].id != MasterList.checklistSpecs[j].id
  {
  }

  // ---------------------------------------------------------------------------
  // The answer map
  // ---------------------------------------------------------------------------

  /** One answer. A field the form never set (`undefined`) is the empty string. */
  datatype Answer = Answer(status: string, action: string, remarks: string)

  type SpecAnswers = Dict<Answer>

  type FormData = Dict<SpecAnswers>

  ghost predicate FormValid(fd: FormData) {
    fd.Valid() && forall e :: e in fd.vals ==> fd.vals[e].Valid()
  }

  /** `formData[eq]?.[sp]` */
  function AnswerAt(fd: FormData, eq: string, sp: string): Option<Answer> {
    if eq in fd.vals && sp in fd.vals[eq].vals then Some(fd.vals[eq].vals[sp]) else None
  }

  /** The answer the spread `...prev[eq]?.[sp]` starts from: missing fields are empty. */
  function Prior(fd: FormData, eq: string, sp: string): Answer {
    match AnswerAt(fd, eq, sp)
    case Some(a) => a
    case None => Answer("", "", "")
  }

  /** `Object.keys(formData[eq] || {})` */
  function SpecKeys(fd: FormData, eq: string): seq<string> {
    if eq in fd.vals then fd.vals[eq].keys else []
  }

  /** `filledCount`: the number of answered specs of one equipment. */
  function AnsweredCount(fd: FormData, eq: string): nat {
    |SpecKeys(fd, eq)|
  }

  /** `{ ...prev, [eq]: { ...prev[eq], [sp]: a } }` */
  function PutAnswer(fd: FormData, eq: string, sp: string, a: Answer): (r: FormData)
    requires FormValid(fd)
    ensures FormValid(r)
    ensures AnswerAt(r, eq, sp) == Some(a)
    ensures forall e, s :: (e != eq || s != sp) ==> AnswerAt(r, e, s) == AnswerAt(fd, e, s)
    ensures r.keys == if eq in fd.vals then fd.keys else fd.keys + [eq]
    ensures SpecKeys(r, eq) == if AnswerAt(fd, eq, sp).Some? then SpecKeys(fd, eq) else SpecKeys(fd, eq) + [sp]
    ensures forall e :: e != eq ==> SpecKeys(r, e) == SpecKeys(fd, e)
  {
    PutAnswerValid(fd, eq, sp, a);
    PutAnswerFrame(fd, eq, sp, a);
    PutAnswerKeys(fd, eq, sp, a);
    PutRaw(fd, eq, sp, a)
  }

  /** `prev[eq] || {}` */
  function SpecsOf(fd: FormData, eq: string): (answers: SpecAnswers)
    requires FormValid(fd)
    ensures answers.Valid() && answers.keys == SpecKeys(fd, eq)
    ensures forall sp :: AnswerAt(fd, eq, sp) == answers.Get(sp)
  {
    if eq in fd.vals then fd.vals[eq] else EmptyDict()
  }

  /** The stored answer of `PutAnswer`, kept apart so each fact about it is proved on its own. */
  function PutRaw(fd: FormData, eq: string, sp: string, a: Answer): FormData
    requires FormValid(fd)
  {
    fd.Put(eq, SpecsOf(fd, eq).Put(sp, a))
  }

  lemma PutAnswerValid(fd: FormData, eq: string, sp: string, a: Answer)
    requires FormValid(fd)
    ensures FormValid(PutRaw(fd, eq, sp, a))
  {
    var inner := SpecsOf(fd, eq).Put(sp, a);
    var r := PutRaw(fd, eq, sp, a);
    forall e | e in r.vals ensures r.vals[e].Valid() {
      if e != eq { assert r.vals[e] == fd.vals[e]; }
    }
  }

  lemma PutAnswerFrame(fd: FormData, eq: string, sp: string, a: Answer)
    requires FormValid(fd)
    ensures AnswerAt(PutRaw(fd, eq, sp, a), eq, sp) == Some(a)
    ensures forall e, s :: (e != eq || s != sp) ==> AnswerAt(PutRaw(fd, eq, sp, a), e, s) == AnswerAt(fd, e, s)
  {
    var answers := SpecsOf(fd, eq);
    var inner := answers.Put(sp, a);
    var r := PutRaw(fd, eq, sp, a);
    forall e, s | e != eq || s != sp ensures AnswerAt(r, e, s) == AnswerAt(fd, e, s) {
      if e == eq {
        assert AnswerAt(r, e, s) == inner.Get(s);
        assert AnswerAt(fd, e, s) == answers.Get(s);
      }
    }
  }

  lemma PutAnswerKeys(fd: FormData, eq: string, sp: string, a: Answer)
    requires FormValid(fd)
    ensures SpecKeys(PutRaw(fd, eq, sp, a), eq) == if AnswerAt(fd, eq, sp).Some? then SpecKeys(fd, eq) else SpecKeys(fd, eq) + [sp]
    ensures forall e :: e != eq ==> SpecKeys(PutRaw(fd, eq, sp, a), e) == SpecKeys(fd, e)
  {
    assert SpecsOf(fd, eq).Get(sp) == AnswerAt(fd, eq, sp);
  }

  /** `handleStatusChange(eq, sp, status)`. */
  function SetStatus(fd: FormData, eq: string, sp: string, status: string): (r: FormData)
    requires FormValid(fd)
    ensures FormValid(r)
    ensures AnswerAt(r, eq, sp).Some? && AnswerAt(r, eq, sp).value.status == status
    // marking OK clears the action and the remarks, whatever they were
    ensures status == StatusOk ==> AnswerAt(r, eq, sp).value.action == "" && AnswerAt(r, eq, sp).value.remarks == ""
    // any other status keeps a non-empty action and defaults an empty one to "Repair"
    ensures status != StatusOk && Prior(fd, eq, sp).action != "" ==> AnswerAt(r, eq, sp).value.action == Prior(fd, eq, sp).action
    ensures status != StatusOk && Prior(fd, eq, sp).action == "" ==> AnswerAt(r, eq, sp).value.action == DefaultAction
    ensures status != StatusOk ==> AnswerAt(r, eq, sp).value.remarks == Prior(fd, eq, sp).remarks
    // nothing else changes
    ensures forall e, s :: (e != eq || s != sp) ==> AnswerAt(r, e, s) == AnswerAt(fd, e, s)
    ensures r.keys == if eq in fd.vals then fd.keys else fd.keys + [eq]
    ensures SpecKeys(r, eq) == if AnswerAt(fd, eq, sp).Some? then SpecKeys(fd, eq) else SpecKeys(fd, eq) + [sp]
    ensures forall e :: e != eq ==> SpecKeys(r, e) == SpecKeys(fd, e)
  {
    var prev := Prior(fd, eq, sp);
    var action := if status == StatusOk then "" else if prev.action != "" then prev.action else DefaultAction;
    var remarks := if status == StatusOk then "" else prev.remarks;
    PutAnswer(fd, eq, sp, Answer(status, action, remarks))
  }

  /** The two fields the detail inputs edit. */
  datatype DetailField = ActionField | RemarksField

  /** `handleDetailChange(eq, sp, field, value)`. */
  function SetDetail(fd: FormData, eq: string, sp: string, field: DetailField, value: string): (r: FormData)
    requires FormValid(fd)
    ensures FormValid(r)
    ensures AnswerAt(r, eq, sp).Some?
    ensures AnswerAt(r, eq, sp).value.status == Prior(fd, eq, sp).status
    ensures AnswerAt(r, eq, sp).value.action == if field == ActionField then value else Prior(fd, eq, sp).action
    ensures AnswerAt(r, eq, sp).value.remarks == if field == RemarksField then value else Prior(fd, eq, sp).remarks
    ensures forall e, s :: (e != eq || s != sp) ==> AnswerAt(r, e, s) == AnswerAt(fd, e, s)
    ensures r.keys == if eq in fd.vals then fd.keys else fd.keys + [eq]
    ensures SpecKeys(r, eq) == if AnswerAt(fd, eq, sp).Some? then SpecKeys(fd, eq) else SpecKeys(fd, eq) + [sp]
    ensures forall e :: e != eq ==> SpecKeys(r, e) == SpecKeys(fd, e)
  {
    var prev := Prior(fd, eq, sp);
    PutAnswer(fd, eq, sp, match field
      case ActionField => prev.(action := value)
      case RemarksField => prev.(remarks := value))
  }

  /** Choosing the same status twice in a row changes nothing the second time: the action the
      first call chose is non-empty, so the second keeps it. */
  lemma SetStatusIdempotent(fd: FormData, eq: string, sp: string, status: string)
    requires FormValid(fd)
    ensures SetStatus(SetStatus(fd, eq, sp, status), eq, sp, status) == SetStatus(fd, eq, sp, status)
  {
    var r1 := SetStatus(fd, eq, sp, status);
    var a := AnswerAt(r1, eq, sp).value;
    assert Prior(r1, eq, sp) == a;
    assert SetStatus(r1, eq, sp, status) == PutAnswer(r1, eq, sp, a);
    PutAnswerUnchanged(r1, eq, sp);
  }

  /** Writing back the answer already stored changes nothing. */
  lemma PutAnswerUnchanged(fd: FormData, eq: string, sp: string)
    requires FormValid(fd) && AnswerAt(fd, eq, sp).Some?
    ensures PutAnswer(fd, eq, sp, AnswerAt(fd, eq, sp).value) == fd
  {
    var answers := fd.vals[eq];
    assert answers.vals[sp := answers.vals[sp]] == answers.vals;
    assert fd.vals[eq := answers] == fd.vals;
  }

  /** Marking an item OK discards what was typed for it: switching it back to "Not OK" gives
      the default action and empty remarks, whatever was entered before. */
  lemma OkDiscardsDetails(fd: FormData, eq: string, sp: string)
    requires FormValid(fd)
    ensures var r := SetStatus(SetStatus(fd, eq, sp, StatusOk), eq, sp, StatusNotOk);
      AnswerAt(r, eq, sp) == Some(Answer(StatusNotOk, DefaultAction, ""))
  {
  }

  /** Typed details survive a change between two statuses other than OK. */
  lemma DetailsSurviveNotOk(fd: FormData, eq: string, sp: string, action: string, remarks: string)
    requires FormValid(fd) && action != ""
    ensures var r1 := SetDetail(SetDetail(SetStatus(fd, eq, sp, StatusNotOk), eq, sp, ActionField, action), eq, sp, RemarksField, remarks);
      AnswerAt(SetStatus(r1, eq, sp, StatusNotOk), eq, sp) == Some(Answer(StatusNotOk, action, remarks))
  {
  }

  /** Answering a spec for the first time adds one to the equipment's answered count;
      re-answering it does not. */
  lemma AnsweredCountAfterStatus(fd: FormData, eq: string, sp: string, status: string)
    requires FormValid(fd)
    ensures AnsweredCount(SetStatus(fd, eq, sp, status), eq) ==
      AnsweredCount(fd, eq) + (if AnswerAt(fd, eq, sp).None? then 1 else 0)
    ensures forall e :: e != eq ==> AnsweredCount(SetStatus(fd, eq, sp, status), e) == AnsweredCount(fd, e)
  {
  }

  // ---------------------------------------------------------------------------
  // The per-equipment save check and the completeness marker
  // ---------------------------------------------------------------------------

  /** What `handleSingleAction` reports, in the order it checks. */
  datatype SaveOutcome = MissingOperatorName | Incomplete(filled: nat, total: nat) | MissingRemarks | Recorded

  /** A "Not OK" answer whose remarks are empty (`!item.remarks`; remarks of blanks only count as given). */
  predicate LacksRemarks(a: Answer) {
    a.status == StatusNotOk && a.remarks == ""
  }

  /** `Object.values(eqData).some(item => item.status === 'Not OK' && !item.remarks)` */
  predicate HasMissingRemarks(fd: FormData, eq: string) {
    exists sp :: sp in SpecKeys(fd, eq) && AnswerAt(fd, eq, sp).Some? && LacksRemarks(AnswerAt(fd, eq, sp).value)
  }

  /** The checks of `handleSingleAction` for one equipment, in source order: a blank operator
      name first, then fewer answers than there are specs, then a "Not OK" answer without
      remarks; an equipment that passes all three is recorded. */
  function ValidateEquipment(m: MasterData, operatorName: string, fd: FormData, eq: string): (r: SaveOutcome)
    ensures r == MissingOperatorName <==> IsBlank(operatorName)
    ensures r.Incomplete? <==> !IsBlank(operatorName) && AnsweredCount(fd, eq) < |m.checklistSpecs|
    ensures r.Incomplete? ==> r.filled == AnsweredCount(fd, eq) && r.total == |m.checklistSpecs|
    ensures r == MissingRemarks <==>
      !IsBlank(operatorName) && AnsweredCount(fd, eq) >= |m.checklistSpecs| && HasMissingRemarks(fd, eq)
    ensures r == Recorded <==>
      !IsBlank(operatorName) && AnsweredCount(fd, eq) >= |m.checklistSpecs| && !HasMissingRemarks(fd, eq)
  {
    if IsBlank(operatorName) then MissingOperatorName
    else if AnsweredCount(fd, eq) < |m.checklistSpecs| then Incomplete(AnsweredCount(fd, eq), |m.checklistSpecs|)
    else if HasMissingRemarks(fd, eq) then MissingRemarks
    else Recorded
  }

  /** A recorded equipment has an operator name with a visible character, at least as many
      answers as specs, and remarks on every "Not OK" answer. */
  lemma RecordedMeansReady(m: MasterData, operatorName: string, fd: FormData, eq: string)
    requires FormValid(fd)
    requires ValidateEquipment(m, operatorName, fd, eq) == Recorded
    ensures exists i :: 0 <= i < |operatorName| && !IsWhitespace(operatorName[i])
    ensures AnsweredCount(fd, eq) >= |m.checklistSpecs|
    ensures forall sp :: AnswerAt(fd, eq, sp).Some? && AnswerAt(fd, eq, sp).value.status == StatusNotOk ==>
      AnswerAt(fd, eq, sp).value.remarks != ""
  {
    BlankIffAllWhitespace(operatorName);
    forall sp | AnswerAt(fd, eq, sp).Some? && AnswerAt(fd, eq, sp).value.status == StatusNotOk
      ensures AnswerAt(fd, eq, sp).value.remarks != ""
    {
      assert sp in SpecKeys(fd, eq);
    }
  }

  /** `isComplete`: the header's "Complete" marker. */
  predicate IsComplete(m: MasterData, fd: FormData, eq: string) {
    AnsweredCount(fd, eq) == |m.checklistSpecs|
  }

  predicate IsMasterSpec(m: MasterData, sp: string) {
    exists i :: 0 <= i < |m.checklistSpecs| && m.checklistSpecs[i].id == sp
  }

  function SpecIds(m: MasterData): (ids: seq<string>)
    ensures |ids| == |m.checklistSpecs|
    ensures forall i :: 0 <= i < |ids| ==> ids[i] == m.checklistSpecs[i].id
  {
    seq(|m.checklistSpecs|, i requires 0 <= i < |m.checklistSpecs| => m.checklistSpecs[i].id)
  }

  lemma {:induction false} DistinctCard(s: seq<string>)
    requires forall i, j :: 0 <= i < j < |s| ==> s[i] != s[j]
    ensures |set x | x in s| == |s|
  {
    if s != [] {
      var p := s[..|s| - 1];
      DistinctCard(p);
      assert (set x | x in s) == (set x | x in p) + {s[|s| - 1]};
      assert s[|s| - 1] !in p;
    }
  }

  lemma {:induction false} CardAtMost(s: seq<string>)
    ensures |set x | x in s| <= |s|
  {
    if s != [] {
      var p := s[..|s| - 1];
      CardAtMost(p);
      assert (set x | x in s) == (set x | x in p) + {s[|s| - 1]};
    }
  }

  /** When every answered key is a master spec id (as the form's radio buttons guarantee), an
      equipment has at most as many answers as there are specs, so the save check's count test
      passes exactly when the header shows the equipment complete. */
  lemma CompleteIffCountPasses(m: MasterData, fd: FormData, eq: string)
    requires FormValid(fd)
    requires forall sp :: sp in SpecKeys(fd, eq) ==> IsMasterSpec(m, sp)
    ensures AnsweredCount(fd, eq) <= |m.checklistSpecs|
    ensures IsComplete(m, fd, eq) <==> !(AnsweredCount(fd, eq) < |m.checklistSpecs|)
  {
    var ks := SpecKeys(fd, eq);
    DistinctCard(ks);
    CardAtMost(SpecIds(m));
    forall x | x in ks ensures x in SpecIds(m) {
      var i :| 0 <= i < |m.checklistSpecs| && m.checklistSpecs[i].id == x;
      assert SpecIds(m)[i] == x;
    }
    SubsetCard(set x | x in ks, set x | x in SpecIds(m));
  }

  lemma SubsetCard(a: set<string>, b: set<string>)
    requires a <= b
    ensures |a| <= |b|
  {
    assert b == a + (b - a);
    assert a * (b - a) == {};
  }

  // ---------------------------------------------------------------------------
  // What the rendered controls can produce
  // ---------------------------------------------------------------------------

  predicate IsMasterEquipment(m: MasterData, eq: string) {
    exists i :: 0 <= i < |m.equipments| && m.equipments[i].id == eq
  }

  /** The answers the form's controls can leave behind: radio buttons exist only for master
      equipment and master specs and set "OK" or "Not OK"; an OK answer has no details. */
  ghost predicate Shaped(m: MasterData, fd: FormData) {
    && FormValid(fd)
    && (forall eq :: eq in fd.vals ==> IsMasterEquipment(m, eq))
    && (forall eq, sp :: AnswerAt(fd, eq, sp).Some? ==> ShapedAnswer(m, sp, AnswerAt(fd, eq, sp).value))
  }

  predicate ShapedAnswer(m: MasterData, sp: string, a: Answer) {
    && IsMasterSpec(m, sp)
    && (a.status == StatusOk || a.status == StatusNotOk)
    && (a.status == StatusOk ==> a.action == "" && a.remarks == "")
  }

  lemma EmptyShaped(m: MasterData)
    ensures Shaped(m, EmptyDict())
  {
  }

  /** A radio button click keeps the answers shaped. */
  lemma SetStatusShaped(m: MasterData, fd: FormData, eq: string, sp: string, status: string)
    requires Shaped(m, fd) && IsMasterEquipment(m, eq) && IsMasterSpec(m, sp)
    requires status == StatusOk || status == StatusNotOk
    ensures Shaped(m, SetStatus(fd, eq, sp, status))
  {
    var r := SetStatus(fd, eq, sp, status);
    forall e | e in r.vals ensures IsMasterEquipment(m, e) {
      if e != eq { assert e in fd.vals by { assert SpecKeys(r, e) == SpecKeys(fd, e); } }
    }
    forall e, s | AnswerAt(r, e, s).Some? ensures ShapedAnswer(m, s, AnswerAt(r, e, s).value) {
      if e != eq || s != sp { assert AnswerAt(r, e, s) == AnswerAt(fd, e, s); }
    }
  }

  /** The action select and the remarks input are rendered only for a "Not OK" answer, and
      editing them keeps the answers shaped. */
  lemma SetDetailShaped(m: MasterData, fd: FormData, eq: string, sp: string, field: DetailField, value: string)
    requires Shaped(m, fd) && AnswerAt(fd, eq, sp).Some? && AnswerAt(fd, eq, sp).value.status == StatusNotOk
    ensures Shaped(m, SetDetail(fd, eq, sp, field, value))
  {
    var r := SetDetail(fd, eq, sp, field, value);
    forall e | e in r.vals ensures IsMasterEquipment(m, e) {
      assert r.keys == fd.keys;
    }
    forall e, s | AnswerAt(r, e, s).Some? ensures ShapedAnswer(m, s, AnswerAt(r, e, s).value) {
      if e != eq || s != sp { assert AnswerAt(r, e, s) == AnswerAt(fd, e, s); }
    }
  }

  /** On shaped answers an equipment has at most one answer per spec, so the save check's count
      test passes exactly when the header shows the equipment complete. */
  lemma ShapedCompleteIffCountPasses(m: MasterData, fd: FormData, eq: string)
    requires Shaped(m, fd)
    ensures AnsweredCount(fd, eq) <= |m.checklistSpecs|
    ensures IsComplete(m, fd, eq) <==> !(AnsweredCount(fd, eq) < |m.checklistSpecs|)
  {
    forall sp | sp in SpecKeys(fd, eq) ensures IsMasterSpec(m, sp) {
      assert AnswerAt(fd, eq, sp).Some?;
    }
    CompleteIffCountPasses(m, fd, eq);
  }

  // ---------------------------------------------------------------------------
  // Flattening the answers into submitted rows
  // ---------------------------------------------------------------------------

  /** One element of `checklistArray`. */
  datatype ChecklistItem = ChecklistItem(
    equipmentId: string,
    equipmentName: string,
    specId: string,
    specName: string,
    status: string,
    action: string,
    remarks: string)

  /** The row pushed for one answer: ids as keyed, names looked up, details copied. */
  function Row(m: MasterData, eq: string, sp: string, a: Answer): ChecklistItem {
    ChecklistItem(eq, EquipmentName(m, eq), sp, SpecName(m, sp), a.status, a.action, a.remarks)
  }

  /** The rows of one equipment, for the spec keys ks, in key order. */
  function SpecRows(m: MasterData, eq: string, answers: SpecAnswers, ks: seq<string>): (rows: seq<ChecklistItem>)
    requires forall k :: k in ks ==> k in answers.vals
    ensures |rows| == |ks|
    ensures forall i :: 0 <= i < |ks| ==> rows[i] == Row(m, eq, ks[i], answers.vals[ks[i]])
  {
    if ks == [] then [] else SpecRows(m, eq, answers, ks[..|ks| - 1]) + [Row(m, eq, ks[|ks| - 1], answers.vals[ks[|ks| - 1]])]
  }

  /** The rows of the equipment keys ks, one block per equipment, in key order. */
  function EquipmentRows(m: MasterData, fd: FormData, ks: seq<string>): seq<ChecklistItem>
    requires FormValid(fd)
    requires forall k :: k in ks ==> k in fd.vals
  {
    if ks == [] then []
    else
      var k := ks[|ks| - 1];
      EquipmentRows(m, fd, ks[..|ks| - 1]) + SpecRows(m, k, fd.vals[k], fd.vals[k].keys)
  }

  /** `checklistArray` after the nested `forEach`: `Object.entries` order at both levels,
      which is insertion order and not master-list order. */
  function Flatten(m: MasterData, fd: FormData): seq<ChecklistItem>
    requires FormValid(fd)
  {
    EquipmentRows(m, fd, fd.keys)
  }

  /** The number of answers over the equipment keys ks. */
  function TotalAnswered(fd: FormData, ks: seq<string>): nat {
    if ks == [] then 0 else TotalAnswered(fd, ks[..|ks| - 1]) + AnsweredCount(fd, ks[|ks| - 1])
  }

  lemma SpecRowsSnoc(m: MasterData, eq: string, answers: SpecAnswers, ks: seq<string>, j: nat)
    requires j < |ks| && forall k :: k in ks ==> k in answers.vals
    ensures SpecRows(m, eq, answers, ks[..j + 1]) ==
      SpecRows(m, eq, answers, ks[..j]) + [Row(m, eq, ks[j], answers.vals[ks[j]])]
  {
    assert ks[..j + 1][..j] == ks[..j];
  }

  lemma EquipmentRowsSnoc(m: MasterData, fd: FormData, ks: seq<string>, i: nat)
    requires FormValid(fd) && i < |ks| && forall k :: k in ks ==> k in fd.vals
    ensures EquipmentRows(m, fd, ks[..i + 1]) ==
      EquipmentRows(m, fd, ks[..i]) + SpecRows(m, ks[i], fd.vals[ks[i]], fd.vals[ks[i]].keys)
  {
    assert ks[..i + 1][..i] == ks[..i];
  }

  /** The inner `forEach` over one equipment's answers, appending one row per answer. */
  method AppendSpecRows(m: MasterData, eqId: string, specs: SpecAnswers, items: seq<ChecklistItem>)
    returns (out: seq<ChecklistItem>)
    requires specs.Valid()
    ensures out == items + SpecRows(m, eqId, specs, specs.keys)
  {
    out := items;
    var eqName := EquipmentName(m, eqId);
    var j := 0;
    while j < |specs.keys|
      invariant 0 <= j <= |specs.keys|
      invariant out == items + SpecRows(m, eqId, specs, specs.keys[..j])
    {
      var specId := specs.keys[j];
      var details := specs.vals[specId];
      SpecRowsSnoc(m, eqId, specs, specs.keys, j);
      out := out + [ChecklistItem(eqId, eqName, specId, SpecName(m, specId), details.status, details.action, details.remarks)];
      j := j + 1;
    }
    assert specs.keys[..j] == specs.keys;
  }

  /** The nested `forEach` that pushes one row per answer. */
  method BuildChecklist(m: MasterData, fd: FormData) returns (items: seq<ChecklistItem>)
    requires FormValid(fd)
    ensures items == Flatten(m, fd)
  {
    items := [];
    var i := 0;
    while i < |fd.keys|
      invariant 0 <= i <= |fd.keys|
      invariant items == EquipmentRows(m, fd, fd.keys[..i])
    {
      var eqId := fd.keys[i];
      EquipmentRowsSnoc(m, fd, fd.keys, i);
      items := AppendSpecRows(m, eqId, fd.vals[eqId], items);
      i := i + 1;
    }
    assert fd.keys[..i] == fd.keys;
  }

  /** One row per answer: the length is the total of the answered counts. */
  lemma {:induction false} EquipmentRowsLength(m: MasterData, fd: FormData, ks: seq<string>)
    requires FormValid(fd)
    requires forall k :: k in ks ==> k in fd.vals
    ensures |EquipmentRows(m, fd, ks)| == TotalAnswered(fd, ks)
  {
    if ks != [] {
      EquipmentRowsLength(m, fd, ks[..|ks| - 1]);
    }
  }

  lemma FlattenLength(m: MasterData, fd: FormData)
    requires FormValid(fd)
    ensures |Flatten(m, fd)| == TotalAnswered(fd, fd.keys)
  {
    EquipmentRowsLength(m, fd, fd.keys);
  }

  /** Every row comes from an answer of an equipment in ks and copies it. */
  lemma {:induction false} EquipmentRowsSound(m: MasterData, fd: FormData, ks: seq<string>, i: nat)
    requires FormValid(fd)
    requires forall k :: k in ks ==> k in fd.vals
    requires i < |EquipmentRows(m, fd, ks)|
    ensures EquipmentRows(m, fd, ks)[i].equipmentId in ks
    ensures AnswerAt(fd, EquipmentRows(m, fd, ks)[i].equipmentId, EquipmentRows(m, fd, ks)[i].specId).Some?
    ensures EquipmentRows(m, fd, ks)[i] == Row(m, EquipmentRows(m, fd, ks)[i].equipmentId, EquipmentRows(m, fd, ks)[i].specId,
      AnswerAt(fd, EquipmentRows(m, fd, ks)[i].equipmentId, EquipmentRows(m, fd, ks)[i].specId).value)
  {
    var ks', k := ks[..|ks| - 1], ks[|ks| - 1];
    var front := EquipmentRows(m, fd, ks');
    if i < |front| {
      EquipmentRowsSound(m, fd, ks', i);
    } else {
      var answers := fd.vals[k];
      assert answers.keys[i - |front|] in answers.vals;
    }
  }

  /** Each submitted row carries the status, action and remarks of the answer it stands for,
      and the master names of its equipment and spec (or the raw ids). */
  lemma FlattenSound(m: MasterData, fd: FormData, i: nat)
    requires FormValid(fd)
    requires i < |Flatten(m, fd)|
    ensures var r := Flatten(m, fd)[i];
      && AnswerAt(fd, r.equipmentId, r.specId) == Some(Answer(r.status, r.action, r.remarks))
      && r.equipmentName == EquipmentName(m, r.equipmentId)
      && r.specName == SpecName(m, r.specId)
  {
    EquipmentRowsSound(m, fd, fd.keys, i);
  }

  lemma {:induction false} EquipmentRowsComplete(m: MasterData, fd: FormData, ks: seq<string>, eq: string, sp: string)
    requires FormValid(fd)
    requires forall k :: k in ks ==> k in fd.vals
    requires eq in ks && AnswerAt(fd, eq, sp).Some?
    ensures Row(m, eq, sp, AnswerAt(fd, eq, sp).value) in EquipmentRows(m, fd, ks)
  {
    var ks', k := ks[..|ks| - 1], ks[|ks| - 1];
    assert ks == ks' + [k];
    if eq == k {
      var answers := fd.vals[k];
      var j :| 0 <= j < |answers.keys| && answers.keys[j] == sp;
      assert SpecRows(m, k, answers, answers.keys)[j] == Row(m, eq, sp, AnswerAt(fd, eq, sp).value);
    } else {
      EquipmentRowsComplete(m, fd, ks', eq, sp);
    }
  }

  /** Every answer in the map is submitted: flattening drops nothing. */
  lemma FlattenComplete(m: MasterData, fd: FormData, eq: string, sp: string)
    requires FormValid(fd)
    requires AnswerAt(fd, eq, sp).Some?
    ensures Row(m, eq, sp, AnswerAt(fd, eq, sp).value) in Flatten(m, fd)
  {
    EquipmentRowsComplete(m, fd, fd.keys, eq, sp);
  }

  /** The first position of a key. */
  function IndexOf(ks: seq<string>, k: string): (i: nat)
    requires k in ks
    ensures i < |ks| && ks[i] == k
    ensures forall j :: 0 <= j < i ==> ks[j] != k
  {
    if ks[0] == k then 0 else 1 + IndexOf(ks[1..], k)
  }

  /** Rows come in (equipment key position, spec key position) order, strictly: all rows of
      an earlier equipment key precede those of a later one, rows of one equipment follow its
      spec key order, and no (equipment, spec) pair appears twice. */
  lemma {:induction false} EquipmentRowsOrder(m: MasterData, fd: FormData, ks: seq<string>)
    requires FormValid(fd)
    requires forall k :: k in ks ==> k in fd.vals
    requires forall i, j :: 0 <= i < j < |ks| ==> ks[i] != ks[j]
    ensures forall i, j :: 0 <= i < j < |EquipmentRows(m, fd, ks)| ==> RowsOrdered(fd, ks, EquipmentRows(m, fd, ks)[i], EquipmentRows(m, fd, ks)[j])
  {
    if ks != [] {
      var ks', k := ks[..|ks| - 1], ks[|ks| - 1];
      var rows, front := EquipmentRows(m, fd, ks), EquipmentRows(m, fd, ks');
      EquipmentRowsOrder(m, fd, ks');
      forall i, j | 0 <= i < j < |rows|
        ensures RowsOrdered(fd, ks, rows[i], rows[j])
      {
        if j < |front| {
          OrderedWithinFront(m, fd, ks, i, j);
        } else if i < |front| {
          OrderedAcross(m, fd, ks, i, j);
        } else {
          OrderedWithinLast(m, fd, ks, i, j);
        }
      }
    }
  }

  /** Two rows of earlier equipment keep their order when a key is added at the end. */
  lemma OrderedWithinFront(m: MasterData, fd: FormData, ks: seq<string>, i: nat, j: nat)
    requires FormValid(fd) && ks != []
    requires forall k :: k in ks ==> k in fd.vals
    requires i < j < |EquipmentRows(m, fd, ks[..|ks| - 1])|
    requires RowsOrdered(fd, ks[..|ks| - 1], EquipmentRows(m, fd, ks[..|ks| - 1])[i], EquipmentRows(m, fd, ks[..|ks| - 1])[j])
    requires forall i, j :: 0 <= i < j < |ks| ==> ks[i] != ks[j]
    ensures RowsOrdered(fd, ks, EquipmentRows(m, fd, ks)[i], EquipmentRows(m, fd, ks)[j])
  {
    var ks' := ks[..|ks| - 1];
    var front := EquipmentRows(m, fd, ks');
    var a, b := front[i], front[j];
    assert EquipmentRows(m, fd, ks)[i] == a && EquipmentRows(m, fd, ks)[j] == b;
    IndexOfPrefix(ks, a.equipmentId);
    IndexOfPrefix(ks, b.equipmentId);
  }

  /** A row of an earlier equipment precedes every row of the last one. */
  lemma OrderedAcross(m: MasterData, fd: FormData, ks: seq<string>, i: nat, j: nat)
    requires FormValid(fd) && ks != []
    requires forall k :: k in ks ==> k in fd.vals
    requires forall i, j :: 0 <= i < j < |ks| ==> ks[i] != ks[j]
    requires i < |EquipmentRows(m, fd, ks[..|ks| - 1])| <= j < |EquipmentRows(m, fd, ks)|
    ensures RowsOrdered(fd, ks, EquipmentRows(m, fd, ks)[i], EquipmentRows(m, fd, ks)[j])
  {
    var ks', k := ks[..|ks| - 1], ks[|ks| - 1];
    var front := EquipmentRows(m, fd, ks');
    var answers := fd.vals[k];
    var back := SpecRows(m, k, answers, answers.keys);
    EquipmentRowsSound(m, fd, ks', i);
    var a, b := front[i], back[j - |front|];
    assert EquipmentRows(m, fd, ks)[i] == a && EquipmentRows(m, fd, ks)[j] == b;
    IndexOfPrefix(ks, a.equipmentId);
    assert answers.keys[j - |front|] in answers.vals;
    IndexOfLast(ks);
  }

  /** Rows of the last equipment follow its spec key order. */
  lemma OrderedWithinLast(m: MasterData, fd: FormData, ks: seq<string>, i: nat, j: nat)
    requires FormValid(fd) && ks != []
    requires forall k :: k in ks ==> k in fd.vals
    requires |EquipmentRows(m, fd, ks[..|ks| - 1])| <= i < j < |EquipmentRows(m, fd, ks)|
    ensures RowsOrdered(fd, ks, EquipmentRows(m, fd, ks)[i], EquipmentRows(m, fd, ks)[j])
  {
    var ks', k := ks[..|ks| - 1], ks[|ks| - 1];
    var front := EquipmentRows(m, fd, ks');
    var answers := fd.vals[k];
    var x, y := i - |front|, j - |front|;
    SpecRowAt(m, k, answers, x);
    SpecRowAt(m, k, answers, y);
  }

  /** A row of one equipment's block: its ids, and the spec key's position. */
  lemma SpecRowAt(m: MasterData, eq: string, answers: SpecAnswers, x: nat)
    requires answers.Valid() && x < |answers.keys|
    ensures SpecRows(m, eq, answers, answers.keys)[x].equipmentId == eq
    ensures SpecRows(m, eq, answers, answers.keys)[x].specId == answers.keys[x]
    ensures IndexOf(answers.keys, answers.keys[x]) == x
  {
    DistinctIndexOf(answers.keys, x);
  }

  lemma IndexOfPrefix(ks: seq<string>, x: string)
    requires ks != [] && x in ks[..|ks| - 1]
    ensures x in ks && IndexOf(ks, x) == IndexOf(ks[..|ks| - 1], x) < |ks| - 1
  {
    var i := IndexOf(ks[..|ks| - 1], x);
    assert ks[i] == x;
    assert forall j :: 0 <= j < i ==> ks[j] == ks[..|ks| - 1][j];
    IndexOfUnique(ks, x, i);
  }

  lemma IndexOfLast(ks: seq<string>)
    requires ks != [] && forall i, j :: 0 <= i < j < |ks| ==> ks[i] != ks[j]
    ensures IndexOf(ks, ks[|ks| - 1]) == |ks| - 1
  {
    IndexOfUnique(ks, ks[|ks| - 1], |ks| - 1);
  }

  lemma DistinctIndexOf(ks: seq<string>, i: nat)
    requires i < |ks| && forall a, b :: 0 <= a < b < |ks| ==> ks[a] != ks[b]
    ensures IndexOf(ks, ks[i]) == i
  {
    IndexOfUnique(ks, ks[i], i);
  }

  /** The first position is the one no earlier position matches. */
  lemma IndexOfUnique(ks: seq<string>, x: string, i: nat)
    requires i < |ks| && ks[i] == x && forall j :: 0 <= j < i ==> ks[j] != x
    ensures IndexOf(ks, x) == i
  {
    var r := IndexOf(ks, x);
    assert !(r < i) && !(i < r);
  }

  /** Row a comes strictly before row b in (equipment key, spec key) order. */
  ghost predicate RowsOrdered(fd: FormData, ks: seq<string>, a: ChecklistItem, b: ChecklistItem)
    requires FormValid(fd)
  {
    && a.equipmentId in ks && b.equipmentId in ks
    && a.specId in SpecKeys(fd, a.equipmentId) && b.specId in SpecKeys(fd, b.equipmentId)
    && (|| IndexOf(ks, a.equipmentId) < IndexOf(ks, b.equipmentId)
        || (a.equipmentId == b.equipmentId &&
            IndexOf(SpecKeys(fd, a.equipmentId), a.specId) < IndexOf(SpecKeys(fd, b.equipmentId), b.specId)))
  }

  lemma FlattenOrder(m: MasterData, fd: FormData)
    requires FormValid(fd)
    ensures forall i, j :: 0 <= i < j < |Flatten(m, fd)| ==> RowsOrdered(fd, fd.keys, Flatten(m, fd)[i], Flatten(m, fd)[j])
  {
    EquipmentRowsOrder(m, fd, fd.keys);
  }
}
