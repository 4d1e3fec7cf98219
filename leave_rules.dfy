/** The decisions of LeaveServiceImpl that only read the store: the checks made
    before a leave is applied for, the lookup by id and the two status rules. */
module LeaveRules {
  import opened Common
  import opened Text
  import opened Entities
  import opened Dtos
  import opened LeaveQueries

  /** getLeaveById */
  function GetLeaveById(t: LeaveRows, id: nat): (r: Result<LeaveRow>)
    ensures r.Ok? <==> id in t
    ensures r.Ok? ==> r.value == t[id]
    ensures r.Err? ==> r.error == NotFound("Leave not found with id: " + NatText(id))
  {
    FindById(t, id, "Leave")
  }

  /** validateLeaveRequest, returning the employee the leave is for: the dates
      first, then the employee, then approved leaves of anyone over the range. */
  function ValidateLeaveRequest(employees: set<nat>, t: LeaveRows, dto: LeaveDto): (r: Result<nat>)
    ensures r.Ok? <==> dto.startDate <= dto.endDate && dto.employeeId.Some? && dto.employeeId.value in employees &&
                       forall k :: k in t && t[k].status == APPROVED ==> !Overlaps(t[k], dto.startDate, dto.endDate)
    ensures r.Ok? ==> dto.employeeId == Some(r.value)
    ensures dto.startDate > dto.endDate ==> r == Err(IllegalArgument("Start date cannot be after end date"))
    ensures dto.startDate <= dto.endDate && dto.employeeId.Some? && dto.employeeId.value !in employees ==>
              r == Err(NotFound("Employee not found with id: " + NatText(dto.employeeId.value)))
    ensures r.Err? && dto.startDate <= dto.endDate && dto.employeeId.Some? && dto.employeeId.value in employees ==>
              r == Err(IllegalArgument("There are already approved leaves for this date range"))
  {
    if dto.startDate > dto.endDate then Err(IllegalArgument("Start date cannot be after end date"))
    else if dto.employeeId.None? then Err(IllegalArgument(NullIdMessage))
    else if dto.employeeId.value !in employees then
      Err(NotFound("Employee not found with id: " + NatText(dto.employeeId.value)))
    else if FindOverlappingApprovedLeaves(t, dto.startDate, dto.endDate) != {} then
      assert exists k :: k in FindOverlappingApprovedLeaves(t, dto.startDate, dto.endDate);
      Err(IllegalArgument("There are already approved leaves for this date range"))
    else
      assert forall k :: k in t && t[k].status == APPROVED && Overlaps(t[k], dto.startDate, dto.endDate) ==>
        k in FindOverlappingApprovedLeaves(t, dto.startDate, dto.endDate);
      Ok(dto.employeeId.value)
  }

  /** An accepted request shares no day with any approved leave of any employee. */
  lemma AcceptedRequestAvoidsApprovedDays(employees: set<nat>, t: LeaveRows, dto: LeaveDto, k: nat, d: Date)
    requires ValidateLeaveRequest(employees, t, dto).Ok?
    requires k in t && t[k].status == APPROVED && t[k].startDate <= t[k].endDate
    requires Covers(dto.startDate, dto.endDate, d)
    ensures !Covers(t[k].startDate, t[k].endDate, d)
  {
    OverlapsIffSharedDay(t[k], dto.startDate, dto.endDate);
  }

  /** The overlap check is not limited to the requesting employee: another
      employee's approved leave on the same day blocks the request. */
  lemma OtherEmployeesLeaveBlocks()
    ensures ValidateLeaveRequest({1, 2}, map[10 := LeaveRow(Some(2), APPROVED, 5, 5)],
                                 LeaveDto(Some(1), Some(VACATION), None, 5, 6, None, None))
            == Err(IllegalArgument("There are already approved leaves for this date range"))
  {
    var t := map[10 := LeaveRow(Some(2), APPROVED, 5, 5)];
    assert Overlaps(t[10], 5, 6);
  }

  /** cancelLeave: only a pending leave may be cancelled. */
  function CancelOutcome(status: LeaveStatus): (r: Result<LeaveStatus>)
    ensures r.Ok? <==> status == PENDING
    ensures r.Ok? ==> r.value == CANCELLED
    ensures r.Err? ==> r.error == IllegalState("Only pending leaves can be cancelled")
  {
    if status == PENDING then Ok(CANCELLED) else Err(IllegalState("Only pending leaves can be cancelled"))
  }

  /** updateLeaveStatus keeps the current reason unless given a non-blank one.
      The two ensures clauses are the whole definition; BlankReasonKeepsCurrent
      and UpdateLeaveStatus build on them. */
  function ReasonAfterUpdate(current: Option<string>, incoming: Option<string>): (r: Option<string>)
    ensures incoming.Some? && !IsBlank(incoming.value) ==> r == incoming
    ensures incoming.None? || IsBlank(incoming.value) ==> r == current
  {
    if incoming.Some? && !IsBlank(incoming.value) then incoming else current
  }

  /** A reason that is empty or only whitespace never replaces the stored one. */
  lemma BlankReasonKeepsCurrent(current: Option<string>)
    ensures ReasonAfterUpdate(current, Some("")) == current
    ensures ReasonAfterUpdate(current, Some(" \t")) == current
  {
    assert IsBlank("");
    assert IsWhitespace(" \t"[0]) && IsWhitespace(" \t"[1]);
  }
}
