/** The inspection form's component state and its event handlers: the operator's name and
    shift, the one open accordion panel, the answer map, the per-equipment save check and the
    report submission. Each handler runs to completion, so the state React would re-render
    from is the state after the handler. */
module Form {
  import opened Common
  import opened Dicts
  import opened Checklist

  /** What the server does with the request: answers `ok` with a report id, answers with an
      error detail, or never answers (a failed `fetch` or an unreadable body). */
  datatype ServerReply = Accepted(reportId: string) | Refused(detail: string) | NoReply

  /** The alert `handleGlobalSubmit` ends with. */
  datatype SubmitResult =
    | NameRequired
    | NothingToSubmit
    | NotConfirmed
    | Saved(reportId: string)
    | ServerError(detail: string)
    | NetworkError

  /** The JSON body posted to `/submit`. */
  datatype Payload = Payload(operatorName: string, shift: string, checklist: seq<ChecklistItem>)

  /** The three guards of `handleGlobalSubmit`, in order; None when the request goes out. */
  function SubmitGuard(operatorName: string, fd: FormData, confirmed: bool): (r: Option<SubmitResult>)
    ensures r == Some(NameRequired) <==> IsBlank(operatorName)
    ensures r == Some(NothingToSubmit) <==> !IsBlank(operatorName) && fd.keys == []
    ensures r == Some(NotConfirmed) <==> !IsBlank(operatorName) && fd.keys != [] && !confirmed
    ensures r == None <==> !IsBlank(operatorName) && fd.keys != [] && confirmed
  {
    if IsBlank(operatorName) then Some(NameRequired)
    else if fd.keys == [] then Some(NothingToSubmit)
    else if !confirmed then Some(NotConfirmed)
    else None
  }

  /** The alert for a reply. */
  function ReplyResult(reply: ServerReply): (r: SubmitResult)
    ensures r.Saved? <==> reply.Accepted?
    ensures reply.Accepted? ==> r.reportId == reply.reportId
    ensures reply.Refused? ==> r == ServerError(reply.detail)
    ensures reply.NoReply? ==> r == NetworkError
  {
    match reply
    case Accepted(id) => Saved(id)
    case Refused(detail) => ServerError(detail)
    case NoReply => NetworkError
  }

  class ChecklistForm {
    /** The fixed equipment and checklist lists the form renders. */
    const master: MasterData
    var operatorName: string
    var shift: string
    var isSubmitting: bool
    var openEquipmentId: Option<string>
    var formData: FormData

    /** Between events the answer map is well formed and no submission is in flight. */
    ghost predicate Valid()
      reads this
    {
      FormValid(formData) && !isSubmitting
    }

    /** The initial state: no name, the morning shift, nothing open, no answers. */
    constructor()
      ensures Valid()
      ensures master == MasterList
      ensures operatorName == "" && shift == DefaultShift && openEquipmentId == None
      ensures formData == EmptyDict()
    {
      master := MasterList;
      operatorName := "";
      shift := DefaultShift;
      isSubmitting := false;
      openEquipmentId := None;
      formData := EmptyDict();
    }

    /** The operator name input. */
    method SetOperatorName(name: string)
      requires Valid()
      modifies this
      ensures Valid()
      ensures operatorName == name
      ensures shift == old(shift) && openEquipmentId == old(openEquipmentId) && formData == old(formData)
    {
      operatorName := name;
    }

    /** The shift select. */
    method SetShift(s: string)
      requires Valid()
      modifies this
      ensures Valid()
      ensures shift == s
      ensures operatorName == old(operatorName) && openEquipmentId == old(openEquipmentId) && formData == old(formData)
    {
      shift := s;
    }

    /** `toggleAccordion`: a click on an equipment header. */
    method ToggleAccordion(id: string)
      requires Valid()
      modifies this
      ensures Valid()
      ensures openEquipmentId == Toggle(old(openEquipmentId), id)
      ensures operatorName == old(operatorName) && shift == old(shift) && formData == old(formData)
    {
      openEquipmentId := if openEquipmentId == Some(id) then None else Some(id);
    }

    /** `handleStatusChange`: a click on an OK or Not OK radio button. */
    method HandleStatusChange(eqId: string, specId: string, status: string)
      requires Valid()
      modifies this
      ensures Valid()
      ensures formData == SetStatus(old(formData), eqId, specId, status)
      ensures operatorName == old(operatorName) && shift == old(shift) && openEquipmentId == old(openEquipmentId)
    {
      formData := SetStatus(formData, eqId, specId, status);
    }

    /** `handleDetailChange`: an edit of the action select or the remarks input. */
    method HandleDetailChange(eqId: string, specId: string, field: DetailField, value: string)
      requires Valid()
      modifies this
      ensures Valid()
      ensures formData == SetDetail(old(formData), eqId, specId, field, value)
      ensures operatorName == old(operatorName) && shift == old(shift) && openEquipmentId == old(openEquipmentId)
    {
      formData := SetDetail(formData, eqId, specId, field, value);
    }

    /** `handleSingleAction`: the "Save ... Log" button of one equipment. It stores nothing;
        on success it only closes the panel. */
    method HandleSingleAction(eqId: string) returns (outcome: SaveOutcome)
      requires Valid()
      modifies this
      ensures Valid()
      ensures outcome == ValidateEquipment(master, operatorName, formData, eqId)
      ensures openEquipmentId == if outcome == Recorded then None else old(openEquipmentId)
      ensures operatorName == old(operatorName) && shift == old(shift) && formData == old(formData)
    {
      if IsBlank(operatorName) {
        return MissingOperatorName;
      }
      var eqData := SpecsOf(formData, eqId);
      var filledCount := |eqData.keys|;
      if filledCount < |master.checklistSpecs| {
        return Incomplete(filledCount, |master.checklistSpecs|);
      }
      var missingRemarks := AnyLacksRemarks(eqData);
      if missingRemarks {
        assert HasMissingRemarks(formData, eqId) by {
          var sp :| sp in eqData.vals && LacksRemarks(eqData.vals[sp]);
          assert AnswerAt(formData, eqId, sp) == Some(eqData.vals[sp]);
        }
        return MissingRemarks;
      }
      assert !HasMissingRemarks(formData, eqId) by {
        forall sp | sp in SpecKeys(formData, eqId) && AnswerAt(formData, eqId, sp).Some?
          ensures !LacksRemarks(AnswerAt(formData, eqId, sp).value)
        {
          assert AnswerAt(formData, eqId, sp) == Some(eqData.vals[sp]);
        }
      }
      openEquipmentId := None;
      return Recorded;
    }

    /** `handleGlobalSubmit`: the guards, then one request carrying every answer; a saved
        report clears the name, the answers and the open panel but keeps the shift, and a
        failed one leaves the form as it was. `confirmed` is the operator's answer to the
        confirmation dialog and `reply` what the server does. */
    method HandleGlobalSubmit(confirmed: bool, reply: ServerReply) returns (result: SubmitResult, request: Option<Payload>)
      requires Valid()
      modifies this
      ensures Valid()
      ensures SubmitGuard(old(operatorName), old(formData), confirmed).Some? ==>
        && result == SubmitGuard(old(operatorName), old(formData), confirmed).value
        && request == None
        && operatorName == old(operatorName) && formData == old(formData) && openEquipmentId == old(openEquipmentId)
      ensures SubmitGuard(old(operatorName), old(formData), confirmed).None? ==>
        && result == ReplyResult(reply)
        && request == Some(Payload(old(operatorName), old(shift), Flatten(master, old(formData))))
      ensures SubmitGuard(old(operatorName), old(formData), confirmed).None? && result.Saved? ==>
        operatorName == "" && formData == EmptyDict() && openEquipmentId == None
      ensures SubmitGuard(old(operatorName), old(formData), confirmed).None? && !result.Saved? ==>
        operatorName == old(operatorName) && formData == old(formData) && openEquipmentId == old(openEquipmentId)
      ensures shift == old(shift)
    {
      var guard := SubmitGuard(operatorName, formData, confirmed);
      if guard.Some? {
        return guard.value, None;
      }
      result, request := Submit(reply);
    }

    /** What follows the guards: the request goes out with the current name, shift and
        flattened answers, and the reply decides whether the form is reset. */
    method Submit(reply: ServerReply) returns (result: SubmitResult, request: Option<Payload>)
      requires Valid()
      modifies this
      ensures Valid()
      ensures result == ReplyResult(reply)
      ensures request == Some(Payload(old(operatorName), old(shift), Flatten(master, old(formData))))
      ensures result.Saved? ==> operatorName == "" && formData == EmptyDict() && openEquipmentId == None
      ensures !result.Saved? ==>
        operatorName == old(operatorName) && formData == old(formData) && openEquipmentId == old(openEquipmentId)
      ensures shift == old(shift)
    {
      var checklistArray := BuildChecklist(master, formData);
      request := Some(Payload(operatorName, shift, checklistArray));
      isSubmitting := true;
      result := ReplyResult(reply);
      if result.Saved? {
        ClearAfterSave();
      }
      isSubmitting := false;
    }

    /** The reset after a saved report: the name, the answers and the open panel. */
    method ClearAfterSave()
      modifies this
      ensures operatorName == "" && formData == EmptyDict() && openEquipmentId == None && FormValid(formData)
      ensures shift == old(shift) && isSubmitting == old(isSubmitting)
    {
      var empty: FormData := EmptyDict();
      assert FormValid(empty) by { assert empty.vals == map[]; }
      formData := empty;
      operatorName := "";
      openEquipmentId := None;
    }
  }

  /** `Object.values(eqData).some(item => item.status === 'Not OK' && !item.remarks)`. */
  method AnyLacksRemarks(eqData: SpecAnswers) returns (found: bool)
    requires eqData.Valid()
    ensures found <==> exists sp :: sp in eqData.vals && LacksRemarks(eqData.vals[sp])
  {
    var values := eqData.Values();
    var i := 0;
    while i < |values|
      invariant 0 <= i <= |values|
      invariant forall j :: 0 <= j < i ==> !LacksRemarks(values[j])
    {
      if LacksRemarks(values[i]) {
        assert eqData.keys[i] in eqData.vals;
        return true;
      }
      i := i + 1;
    }
    forall sp | sp in eqData.vals ensures !LacksRemarks(eqData.vals[sp]) {
      var j :| 0 <= j < |eqData.keys| && eqData.keys[j] == sp;
      assert values[j] == eqData.vals[sp];
    }
    return false;
  }
}
