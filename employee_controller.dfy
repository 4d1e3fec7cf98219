/** The access checks of EmployeeController. Each endpoint resolves the caller in
    its own way, and not always as SecurityService does. */
module EmployeeController {
  import opened Common
  import opened Text
  import opened EmployeeQueries
  import EmployeeRules
  import opened Security

  const AdminOrUser: set<string> := {"admin", "user"}

  /** getAllEmployees: every employee for an admin; for anyone else the one record
      found for the email of the token's claims. */
  function GetAllEmployees(ctx: SecurityContext, jwt: Jwt, t: Contacts): (r: Result<set<nat>>)
    ensures PreAuthorize(ctx, AdminOrUser).Err? ==> r == Err(PreAuthorize(ctx, AdminOrUser).error)
    ensures PreAuthorize(ctx, AdminOrUser).Ok? && IsAdmin(ctx) ==> r == Ok(t.Keys)
    ensures PreAuthorize(ctx, AdminOrUser).Ok? && !IsAdmin(ctx) && EmailFromClaims(jwt).Some? ==>
              var found := EmployeeRules.GetEmployeeByEmail(t, EmailFromClaims(jwt).value);
              (forall k: nat :: r == Ok({k}) <==> found == Ok(k)) &&
              (r.Err? <==> found.Err?) && (r.Err? ==> r.error == found.error)
    ensures r.Ok? && !IsAdmin(ctx) ==>
              EmailFromClaims(jwt).Some? &&
              exists k :: r.value == {k} && k in t &&
                (MatchesEither(t[k], EmailFromClaims(jwt).value) ||
                 (StartsWith(EmailFromClaims(jwt).value, "auth0|") &&
                  MatchesEither(t[k], AfterFirst(EmailFromClaims(jwt).value, '|'))))
    ensures PreAuthorize(ctx, AdminOrUser).Ok? && !IsAdmin(ctx) && EmailFromClaims(jwt).None? ==>
              r == Err(AccessDenied("Unable to identify user - no email available in token"))
  {
    var gate := PreAuthorize(ctx, AdminOrUser);
    if gate.Err? then Err(gate.error)
    else if IsAdmin(ctx) then Ok(t.Keys)
    else
      var email := EmailFromClaims(jwt);
      if email.None? then Err(AccessDenied("Unable to identify user - no email available in token"))
      else
        var found := EmployeeRules.GetEmployeeByEmail(t, email.value);
        if found.Err? then Err(found.error) else Ok({found.value})
  }

  /** getEmployeeById: the employee is looked up first; a non-admin's token subject
      must then be the employee's email or personal email. */
  function GetEmployeeById(ctx: SecurityContext, jwt: Jwt, t: Contacts, id: nat): (r: Result<Contact>)
    ensures r.Ok? <==> PreAuthorize(ctx, AdminOrUser).Ok? && id in t &&
                       (IsAdmin(ctx) || (jwt.subject.Some? && MatchesEither(t[id], jwt.subject.value)))
    ensures r.Ok? ==> id in t && r.value == t[id]
    ensures PreAuthorize(ctx, AdminOrUser).Err? ==> r == Err(PreAuthorize(ctx, AdminOrUser).error)
    ensures PreAuthorize(ctx, AdminOrUser).Ok? && id !in t ==>
              r == Err(NotFound("Employee not found with id: " + NatText(id)))
    ensures PreAuthorize(ctx, AdminOrUser).Ok? && id in t && !IsAdmin(ctx) && jwt.subject.None? ==>
              r == Err(NullPointer)
    ensures PreAuthorize(ctx, AdminOrUser).Ok? && id in t && !IsAdmin(ctx) && jwt.subject.Some? &&
            !MatchesEither(t[id], jwt.subject.value) ==>
              r == Err(AccessDenied("You can only access your own employee record"))
  {
    var gate := PreAuthorize(ctx, AdminOrUser);
    if gate.Err? then Err(gate.error)
    else
      var employee := EmployeeRules.GetEmployeeById(t, id);
      if employee.Err? then employee
      else if IsAdmin(ctx) then employee
      else if jwt.subject.None? then Err(NullPointer)
      else if !MatchesEither(employee.value, jwt.subject.value) then
        Err(AccessDenied("You can only access your own employee record"))
      else employee
  }

  /** The two ways of recognising the owner disagree: a token whose email claim is
      the employee's email but whose subject is a provider id passes
      validateEmployeeAccess and is refused by getEmployeeById. */
  lemma SubjectCheckRefusesOwnerWithEmailClaim()
    ensures var t := map[3 := Contact(Some("a@x"), None, None)];
            var jwt := Jwt(Some("a@x"), None, Some("auth0|99"), Some(["user"]));
            var ctx := Some(JwtAuthentication(jwt));
            ValidateEmployeeAccess(ctx, Some(jwt), t[3]).Ok? &&
            GetEmployeeById(ctx, jwt, t, 3) == Err(AccessDenied("You can only access your own employee record"))
  {
    var jwt := Jwt(Some("a@x"), None, Some("auth0|99"), Some(["user"]));
    var ctx := Some(JwtAuthentication(jwt));
    assert "ROLE_" + "user" == "ROLE_user";
    assert RoleAuthorities(jwt.roles) == ["ROLE_user"];
    assert HasRole(ctx, "user") && "user" in AdminOrUser;
    assert !IsAdmin(ctx);
    assert "auth0|99" != "a@x";
  }

  /** downloadEmployeePdf: the employee is looked up first; a non-admin needs an
      email from the claims that is the employee's email or personal email. */
  function DownloadPdfAccess(ctx: SecurityContext, jwt: Jwt, t: Contacts, id: nat): (r: Result<Contact>)
    ensures r.Ok? <==> PreAuthorize(ctx, AdminOrUser).Ok? && id in t &&
                       (IsAdmin(ctx) || (EmailFromClaims(jwt).Some? && MatchesEither(t[id], EmailFromClaims(jwt).value)))
    ensures r.Ok? ==> id in t && r.value == t[id]
    ensures PreAuthorize(ctx, AdminOrUser).Err? ==> r == Err(PreAuthorize(ctx, AdminOrUser).error)
    ensures PreAuthorize(ctx, AdminOrUser).Ok? && id !in t ==>
              r == Err(NotFound("Employee not found with id: " + NatText(id)))
    ensures PreAuthorize(ctx, AdminOrUser).Ok? && id in t && !IsAdmin(ctx) &&
            (EmailFromClaims(jwt).None? || !MatchesEither(t[id], EmailFromClaims(jwt).value)) ==>
              r == Err(AccessDenied("You can only download your own PDF"))
  {
    var gate := PreAuthorize(ctx, AdminOrUser);
    if gate.Err? then Err(gate.error)
    else
      var employee := EmployeeRules.GetEmployeeById(t, id);
      if employee.Err? then employee
      else if IsAdmin(ctx) then employee
      else
        var email := EmailFromClaims(jwt);
        if email.None? || !MatchesEither(employee.value, email.value) then
          Err(AccessDenied("You can only download your own PDF"))
        else employee
  }
}
