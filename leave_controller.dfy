/** The authorization decisions of LeaveController, made before it calls the
    leave service. */
module LeaveController {
  import opened Common
  import opened EmployeeQueries
  import opened LeaveQueries
  import opened Security

  /** Roles of the `hasRole('admin') or hasRole('user')` guard. */
  const AdminOrUser: set<string> := {"admin", "user"}

  /** Roles of the `hasRole('admin')` guard. */
  const AdminOnly: set<string> := {"admin"}

  /** applyLeave: a non-admin may apply only for the employee the token identifies. */
  function ApplyLeaveAccess(ctx: SecurityContext, jwt: Jwt, t: Contacts, requestEmployeeId: Option<nat>): (r: Result<()>)
    ensures r.Ok? <==> PreAuthorize(ctx, AdminOrUser).Ok? &&
                       (IsAdmin(ctx) || (EmployeeIdFromToken(ctx, Some(jwt), t).Ok? &&
                                         requestEmployeeId == Some(EmployeeIdFromToken(ctx, Some(jwt), t).value)))
    ensures PreAuthorize(ctx, AdminOrUser).Err? ==> r == Err(PreAuthorize(ctx, AdminOrUser).error)
    ensures PreAuthorize(ctx, AdminOrUser).Ok? && !IsAdmin(ctx) && EmployeeIdFromToken(ctx, Some(jwt), t).Err? ==>
              r == Err(EmployeeIdFromToken(ctx, Some(jwt), t).error)
    ensures PreAuthorize(ctx, AdminOrUser).Ok? && !IsAdmin(ctx) && EmployeeIdFromToken(ctx, Some(jwt), t).Ok? &&
            requestEmployeeId != Some(EmployeeIdFromToken(ctx, Some(jwt), t).value) ==>
              r == Err(AccessDenied("You can only apply leave for yourself"))
  {
    var gate := PreAuthorize(ctx, AdminOrUser);
    if gate.Err? then gate
    else if IsAdmin(ctx) then Ok(())
    else
      var me := EmployeeIdFromToken(ctx, Some(jwt), t);
      if me.Err? then Err(me.error)
      else if Some(me.value) != requestEmployeeId then Err(AccessDenied("You can only apply leave for yourself"))
      else Ok(())
  }

  /** getLeavesByEmployeeId: a non-admin may list only their own leaves. */
  function ListLeavesAccess(ctx: SecurityContext, jwt: Jwt, t: Contacts, employeeId: nat): (r: Result<()>)
    ensures r.Ok? <==> PreAuthorize(ctx, AdminOrUser).Ok? &&
                       (IsAdmin(ctx) || EmployeeIdFromToken(ctx, Some(jwt), t) == Ok(employeeId))
    ensures PreAuthorize(ctx, AdminOrUser).Err? ==> r == Err(PreAuthorize(ctx, AdminOrUser).error)
    ensures PreAuthorize(ctx, AdminOrUser).Ok? && !IsAdmin(ctx) && EmployeeIdFromToken(ctx, Some(jwt), t).Err? ==>
              r == Err(EmployeeIdFromToken(ctx, Some(jwt), t).error)
    ensures PreAuthorize(ctx, AdminOrUser).Ok? && !IsAdmin(ctx) && EmployeeIdFromToken(ctx, Some(jwt), t).Ok? &&
            EmployeeIdFromToken(ctx, Some(jwt), t) != Ok(employeeId) ==>
              r == Err(AccessDenied("You can only view your own leaves"))
  {
    var gate := PreAuthorize(ctx, AdminOrUser);
    if gate.Err? then gate
    else if IsAdmin(ctx) then Ok(())
    else
      var me := EmployeeIdFromToken(ctx, Some(jwt), t);
      if me.Err? then Err(me.error)
      else if me.value != employeeId then Err(AccessDenied("You can only view your own leaves"))
      else Ok(())
  }

  /** getLeaveById and cancelLeave: the caller needs hasLeaveAccess; `message` is
      the endpoint's refusal. */
  function LeaveAccess(ctx: SecurityContext, jwt: Jwt, t: Contacts, leaves: LeaveRows, leaveId: nat, message: string): (r: Result<()>)
    ensures r.Ok? <==> PreAuthorize(ctx, AdminOrUser).Ok? && HasLeaveAccess(ctx, Some(jwt), t, leaves, leaveId) == Ok(true)
    ensures PreAuthorize(ctx, AdminOrUser).Ok? && HasLeaveAccess(ctx, Some(jwt), t, leaves, leaveId) == Ok(false) ==>
              r == Err(AccessDenied(message))
    ensures PreAuthorize(ctx, AdminOrUser).Err? ==> r == Err(PreAuthorize(ctx, AdminOrUser).error)
    ensures PreAuthorize(ctx, AdminOrUser).Ok? && HasLeaveAccess(ctx, Some(jwt), t, leaves, leaveId).Err? ==>
              r == Err(HasLeaveAccess(ctx, Some(jwt), t, leaves, leaveId).error)
  {
    var gate := PreAuthorize(ctx, AdminOrUser);
    if gate.Err? then gate
    else
      var access := HasLeaveAccess(ctx, Some(jwt), t, leaves, leaveId);
      if access.Err? then Err(access.error)
      else if !access.value then Err(AccessDenied(message))
      else Ok(())
  }

  const GetLeaveRefusal := "You don't have permission to access this leave"
  const CancelLeaveRefusal := "You don't have permission to cancel this leave"

  /** A non-admin who gets through the leave guard owns the leave. */
  lemma LeaveAccessMeansOwnLeave(ctx: SecurityContext, jwt: Jwt, t: Contacts, leaves: LeaveRows, leaveId: nat, message: string)
    requires LeaveAccess(ctx, jwt, t, leaves, leaveId, message).Ok? && !IsAdmin(ctx)
    ensures leaveId in leaves && EmployeeIdFromToken(ctx, Some(jwt), t).Ok?
    ensures var me := EmployeeIdFromToken(ctx, Some(jwt), t).value;
            me in t && leaves[leaveId].employeeId == Some(me) &&
            MatchesEither(t[me], UserEmailFromJwt(Some(jwt), ctx).value)
  {
  }

  /** The pending list, the pending count and status changes need the admin role,
      whatever the caller's employee record. */
  lemma AdminOnlyEndpointsNeedAdminRole(ctx: SecurityContext)
    ensures PreAuthorize(ctx, AdminOnly).Ok? <==> HasRole(ctx, "admin")
  {
    if HasRole(ctx, "admin") {
      assert "admin" in AdminOnly;
    }
  }
}
