/** LeaveServiceImpl over the leave and employee tables. Every public method is
    one transaction: a method that fails has written nothing. */
module LeaveService {
  import opened Common
  import opened Text
  import opened Entities
  import opened Dtos
  import opened LeaveQueries
  import opened LeaveRules
  import opened Repositories

  class LeaveService {
    const leaves: LeaveRepository
    const employees: EmployeeRepository

    ghost predicate Valid()
      reads this, leaves, leaves.rows.Values`id, employees, employees.rows.Values`id
    {
      leaves.Valid() && employees.Valid()
    }

    constructor (leaves: LeaveRepository, employees: EmployeeRepository)
      requires leaves.Valid() && employees.Valid()
      ensures Valid() && this.leaves == leaves && this.employees == employees
    {
      this.leaves := leaves;
      this.employees := employees;
    }

    /** applyLeave: after validateLeaveRequest passes, a new PENDING leave of the
        requesting employee is saved; otherwise nothing is. */
    method ApplyLeave(today: Date, dto: LeaveDto) returns (r: Result<nat>)
      requires Valid()
      modifies leaves
      ensures Valid()
      ensures var check := ValidateLeaveRequest(old(employees.rows.Keys), old(leaves.Rows()), dto);
              check.Err? ==> r == Err(check.error) && leaves.rows == old(leaves.rows)
      ensures ValidateLeaveRequest(old(employees.rows.Keys), old(leaves.Rows()), dto).Ok? ==>
                r.Ok? && r.value !in old(leaves.rows) && r.value in leaves.rows &&
                leaves.rows == old(leaves.rows)[r.value := leaves.rows[r.value]] &&
                fresh(leaves.rows[r.value])
      ensures r.Ok? ==>
                var l := leaves.rows[r.value];
                l.status == PENDING && l.employee == employees.rows[dto.employeeId.value] &&
                l.leaveType == dto.leaveType && l.reason == dto.reason &&
                l.startDate == dto.startDate && l.endDate == dto.endDate &&
                l.createdAt == (if dto.createdAt.Some? then dto.createdAt.value else today) &&
                leaves.Rows() == old(leaves.Rows())[r.value := LeaveRow(dto.employeeId, PENDING, dto.startDate, dto.endDate)]
    {
      var check := ValidateLeaveRequest(employees.rows.Keys, leaves.Rows(), dto);
      if check.Err? {
        return Err(check.error);
      }
      var id := SaveNewLeave(today, dto, employees.rows[check.value]);
      r := Ok(id);
    }

    /** The new PENDING leave of `employee` built from the request and saved
        under the next id. */
    method SaveNewLeave(today: Date, dto: LeaveDto, employee: Employee) returns (id: nat)
      requires Valid() && employee.id == dto.employeeId
      modifies leaves
      ensures Valid()
      ensures id !in old(leaves.rows) && id in leaves.rows && fresh(leaves.rows[id])
      ensures leaves.rows == old(leaves.rows)[id := leaves.rows[id]]
      ensures var l := leaves.rows[id];
              l.status == PENDING && l.employee == employee &&
              l.leaveType == dto.leaveType && l.reason == dto.reason &&
              l.startDate == dto.startDate && l.endDate == dto.endDate &&
              l.createdAt == (if dto.createdAt.Some? then dto.createdAt.value else today)
      ensures leaves.Rows() == old(leaves.Rows())[id := LeaveRow(dto.employeeId, PENDING, dto.startDate, dto.endDate)]
    {
      var leave := new Leave.FromRequest(if dto.createdAt.Some? then dto.createdAt.value else today, dto.updatedAt,
                                         dto.leaveType, dto.reason, dto.startDate, dto.endDate);
      leave.employee := employee;
      id := leaves.Insert(leave);
    }

    /** updateLeaveStatus: any status may be set from any status; the reason is
        replaced only by a non-blank one. The update hook stamps today's date
        when the row actually changed. */
    method UpdateLeaveStatus(today: Date, leaveId: nat, status: LeaveStatus, reason: Option<string>)
        returns (r: Result<()>)
      requires Valid()
      modifies if leaveId in leaves.rows then {leaves.rows[leaveId]} else {}
      ensures Valid()
      ensures leaveId !in leaves.rows ==> r == Err(NotFound("Leave not found with id: " + NatText(leaveId)))
      ensures leaveId in leaves.rows ==>
                var l := leaves.rows[leaveId];
                r == Ok(()) && l.status == status && l.reason == ReasonAfterUpdate(old(l.reason), reason) &&
                l.employee == old(l.employee) && l.startDate == old(l.startDate) && l.endDate == old(l.endDate) &&
                l.leaveType == old(l.leaveType) &&
                l.updatedAt == (if old(l.status) != status || old(l.reason) != l.reason then Some(today)
                                else old(l.updatedAt))
    {
      if leaveId !in leaves.rows {
        return Err(NotFound("Leave not found with id: " + NatText(leaveId)));
      }
      var leave := leaves.rows[leaveId];
      var changed := leave.status != status || ReasonAfterUpdate(leave.reason, reason) != leave.reason;
      leave.status := status;
      leave.reason := ReasonAfterUpdate(leave.reason, reason);
      if changed {
        leave.OnUpdate(today);
      }
      r := Ok(());
    }

    /** cancelLeave: a pending leave becomes CANCELLED; any other is left as it is. */
    method CancelLeave(today: Date, leaveId: nat) returns (r: Result<()>)
      requires Valid()
      modifies if leaveId in leaves.rows then {leaves.rows[leaveId]} else {}
      ensures Valid()
      ensures leaveId !in leaves.rows ==> r == Err(NotFound("Leave not found with id: " + NatText(leaveId)))
      ensures leaveId in leaves.rows && old(leaves.rows[leaveId].status) != PENDING ==>
                r == Err(IllegalState("Only pending leaves can be cancelled")) &&
                unchanged(leaves.rows[leaveId])
      ensures leaveId in leaves.rows && old(leaves.rows[leaveId].status) == PENDING ==>
                var l := leaves.rows[leaveId];
                r == Ok(()) && l.status == CANCELLED && l.updatedAt == Some(today) &&
                l.reason == old(l.reason) && l.employee == old(l.employee) && l.leaveType == old(l.leaveType) &&
                l.startDate == old(l.startDate) && l.endDate == old(l.endDate)
    {
      if leaveId !in leaves.rows {
        return Err(NotFound("Leave not found with id: " + NatText(leaveId)));
      }
      var leave := leaves.rows[leaveId];
      var outcome := CancelOutcome(leave.status);
      if outcome.Err? {
        return Err(outcome.error);
      }
      leave.status := outcome.value;
      leave.OnUpdate(today);
      r := Ok(());
    }

    /** getPendingLeaves: exactly the leaves whose status is PENDING. */
    function GetPendingLeaves(): (r: set<nat>)
      reads this, leaves, leaves.rows.Values`employee, leaves.rows.Values`status
      reads leaves.rows.Values`startDate, leaves.rows.Values`endDate
      reads (set k | k in leaves.rows && leaves.rows[k].employee != null :: leaves.rows[k].employee)`id
      ensures forall k :: k in r <==> k in leaves.rows && leaves.rows[k].status == PENDING
    {
      FindByStatus(leaves.Rows(), PENDING)
    }

    /** getLeavesByEmployeeId: exactly the leaves whose employee has that id. */
    function GetLeavesByEmployeeId(employeeId: nat): (r: set<nat>)
      reads this, leaves, leaves.rows.Values`employee, leaves.rows.Values`status
      reads leaves.rows.Values`startDate, leaves.rows.Values`endDate
      reads (set k | k in leaves.rows && leaves.rows[k].employee != null :: leaves.rows[k].employee)`id
      ensures forall k :: k in r <==>
                k in leaves.rows && leaves.rows[k].employee != null && leaves.rows[k].employee.id == Some(employeeId)
    {
      FindByEmployee(leaves.Rows(), employeeId)
    }
  }
}
