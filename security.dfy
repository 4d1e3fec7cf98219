/** SecurityService: who the caller is and what the caller may see. The security
    context and the token's claims are inputs rather than global state. */
module Security {
  import opened Common
  import opened Text
  import opened EmployeeQueries
  import opened EmployeeRules
  import opened LeaveQueries
  import opened LeaveRules

  /** The claims of a decoded token that the system reads; an absent claim is None.
      `userEmail` is the custom claim https://api.employeemanagement.com/user_email and
      `roles` the custom claim https://api.employeemanagement.com/roles. */
  datatype Jwt = Jwt(email: Option<string>, userEmail: Option<string>, subject: Option<string>,
                     roles: Option<seq<string>>)

  datatype Principal = JwtPrincipal(jwt: Jwt) | OtherPrincipal

  datatype Authentication = Authentication(principal: Principal, authorities: seq<string>)

  /** The authentication held by the security context; None when there is none. */
  type SecurityContext = Option<Authentication>

  /** The authorities the resource server grants a token: "ROLE_" before each role. */
  function RoleAuthorities(roles: Option<seq<string>>): seq<string>
  {
    if roles.None? then [] else seq(|roles.value|, i requires 0 <= i < |roles.value| => "ROLE_" + roles.value[i])
  }

  function JwtAuthentication(jwt: Jwt): Authentication
  {
    Authentication(JwtPrincipal(jwt), RoleAuthorities(jwt.roles))
  }

  /** `hasRole(role)` in a @PreAuthorize expression. */
  predicate HasRole(ctx: SecurityContext, role: string)
  {
    ctx.Some? && "ROLE_" + role in ctx.value.authorities
  }

  /** A @PreAuthorize guard: the caller must hold one of the roles. */
  function PreAuthorize(ctx: SecurityContext, roles: set<string>): (r: Result<()>)
    ensures r.Ok? <==> exists role :: role in roles && HasRole(ctx, role)
    ensures r.Err? ==> r.error == AccessDenied("Access Denied")
  {
    if exists role :: role in roles && HasRole(ctx, role) then Ok(()) else Err(AccessDenied("Access Denied"))
  }

  /** isAdmin: the roles claim of a token principal, otherwise the authorities. */
  predicate IsAdmin(ctx: SecurityContext)
  {
    match ctx
    case None => false
    case Some(auth) =>
      match auth.principal
      case JwtPrincipal(jwt) => jwt.roles.Some? && "admin" in jwt.roles.value
      case OtherPrincipal => "ROLE_admin" in auth.authorities
  }

  /** For a token authenticated by the resource server the two admin tests agree:
      isAdmin reads the roles claim, hasRole('admin') the authorities made from it. */
  lemma IsAdminIffHasAdminRole(jwt: Jwt)
    ensures IsAdmin(Some(JwtAuthentication(jwt))) <==> HasRole(Some(JwtAuthentication(jwt)), "admin")
  {
    var auths := RoleAuthorities(jwt.roles);
    assert "ROLE_" + "admin" == "ROLE_admin";
    if jwt.roles.Some? {
      var roles := jwt.roles.value;
      if "admin" in roles {
        var i :| 0 <= i < |roles| && roles[i] == "admin";
        assert auths[i] == "ROLE_admin";
      }
      if "ROLE_admin" in auths {
        var i :| 0 <= i < |auths| && auths[i] == "ROLE_admin";
        assert auths[i] == "ROLE_" + roles[i];
        assert roles[i] == auths[i][5..] == "admin";
      }
    }
  }

  /** The three claims tried in order by the controllers: email, the custom email
      claim, then a subject that contains '@'. */
  function EmailFromClaims(jwt: Jwt): Option<string>
  {
    if jwt.email.Some? then jwt.email
    else if jwt.userEmail.Some? then jwt.userEmail
    else if jwt.subject.Some? && '@' in jwt.subject.value then jwt.subject
    else None
  }

  /** getUserEmailFromJwt for a given token. */
  function ResolveEmail(jwt: Jwt): (r: Result<string>)
    ensures r.Ok? ==> (jwt.email == Some(r.value) ||
                       (jwt.email.None? && jwt.userEmail == Some(r.value)) ||
                       (jwt.email.None? && jwt.userEmail.None? && jwt.subject.Some? &&
                        ((r.value == jwt.subject.value && '@' in r.value) ||
                         ('@' !in jwt.subject.value && jwt.subject.value == "auth0|" + r.value))))
    ensures r.Err? <==> jwt.email.None? && jwt.userEmail.None? &&
                        (jwt.subject.None? || ('@' !in jwt.subject.value && !StartsWith(jwt.subject.value, "auth0|")))
    ensures r.Err? ==> r.error == AccessDenied("Unable to identify user - no email available in token")
  {
    if jwt.email.Some? then Ok(jwt.email.value)
    else if jwt.userEmail.Some? then Ok(jwt.userEmail.value)
    else if jwt.subject.Some? && '@' in jwt.subject.value then Ok(jwt.subject.value)
    else if jwt.subject.Some? && StartsWith(jwt.subject.value, "auth0|") then
      var s := jwt.subject.value;
      assert s == "auth0" + ['|'] + s[6..];
      AfterFirstOfPrefixed("auth0", '|', s[6..]);
      Ok(AfterFirst(s, '|'))
    else Err(AccessDenied("Unable to identify user - no email available in token"))
  }

  /** The service resolves every token the controllers resolve, to the same email;
      beyond that it accepts only an "auth0|" subject, whose remainder need not be an
      email at all. */
  lemma ResolveEmailExtendsClaims(jwt: Jwt)
    ensures EmailFromClaims(jwt).Some? ==> ResolveEmail(jwt) == Ok(EmailFromClaims(jwt).value)
    ensures EmailFromClaims(jwt).None? ==>
              (ResolveEmail(jwt).Ok? <==> jwt.subject.Some? && StartsWith(jwt.subject.value, "auth0|"))
  {
  }

  /** A bare "auth0|" subject resolves to its remainder, though that is no email. */
  lemma Auth0SubjectIsNotAnEmail()
    ensures ResolveEmail(Jwt(None, None, Some("auth0|12345"), None)) == Ok("12345")
  {
    var s := "auth0|12345";
    assert s == "auth0" + ['|'] + "12345";
    assert '@' !in s;
    assert StartsWith(s, "auth0|");
  }

  /** getUserEmailFromJwt: a missing token argument falls back to the token held by
      the security context. */
  function UserEmailFromJwt(jwt: Option<Jwt>, ctx: SecurityContext): (r: Result<string>)
    ensures jwt.Some? ==> r == ResolveEmail(jwt.value)
    ensures jwt.None? && ctx.Some? && ctx.value.principal.JwtPrincipal? ==> r == ResolveEmail(ctx.value.principal.jwt)
    ensures jwt.None? && (ctx.None? || !ctx.value.principal.JwtPrincipal?) ==>
              r == Err(AccessDenied("No authentication information available"))
  {
    if jwt.Some? then ResolveEmail(jwt.value)
    else if ctx.Some? && ctx.value.principal.JwtPrincipal? then ResolveEmail(ctx.value.principal.jwt)
    else Err(AccessDenied("No authentication information available"))
  }

  /** validateEmployeeAccess for an employee already in hand. */
  function ValidateEmployeeAccess(ctx: SecurityContext, jwt: Option<Jwt>, employee: Contact): (r: Result<()>)
    ensures r.Ok? <==> IsAdmin(ctx) ||
                       (UserEmailFromJwt(jwt, ctx).Ok? && MatchesEither(employee, UserEmailFromJwt(jwt, ctx).value))
    ensures r.Err? && UserEmailFromJwt(jwt, ctx).Ok? ==>
              r == Err(AccessDenied("You can only access your own employee record."))
  {
    if IsAdmin(ctx) then Ok(())
    else
      var email := UserEmailFromJwt(jwt, ctx);
      if email.Err? then Err(email.error)
      else if !MatchesEither(employee, email.value) then Err(AccessDenied("You can only access your own employee record."))
      else Ok(())
  }

  /** validateEmployeeAccess by id: the caller's email is resolved before the
      employee is looked up. */
  function ValidateEmployeeAccessById(ctx: SecurityContext, jwt: Option<Jwt>, t: Contacts, id: nat): (r: Result<()>)
    ensures r.Ok? <==> IsAdmin(ctx) ||
                       (UserEmailFromJwt(jwt, ctx).Ok? && id in t && MatchesEither(t[id], UserEmailFromJwt(jwt, ctx).value))
    ensures !IsAdmin(ctx) && UserEmailFromJwt(jwt, ctx).Err? ==> r == Err(UserEmailFromJwt(jwt, ctx).error)
    ensures !IsAdmin(ctx) && UserEmailFromJwt(jwt, ctx).Ok? && id !in t ==>
              r == Err(NotFound("Employee not found with id: " + NatText(id)))
    ensures !IsAdmin(ctx) && UserEmailFromJwt(jwt, ctx).Ok? && id in t &&
            !MatchesEither(t[id], UserEmailFromJwt(jwt, ctx).value) ==>
              r == Err(AccessDenied("You can only access your own employee record."))
  {
    if IsAdmin(ctx) then Ok(())
    else
      var email := UserEmailFromJwt(jwt, ctx);
      if email.Err? then Err(email.error)
      else
        var employee := GetEmployeeById(t, id);
        if employee.Err? then Err(employee.error)
        else ValidateEmployeeAccess(ctx, jwt, employee.value)
  }

  /** getEmployeeIdFromToken: by email or personal email, then by personal email;
      a failure to resolve the caller's email is passed on. */
  function EmployeeIdFromToken(ctx: SecurityContext, jwt: Option<Jwt>, t: Contacts): (r: Result<nat>)
    ensures UserEmailFromJwt(jwt, ctx).Err? ==> r == Err(UserEmailFromJwt(jwt, ctx).error)
    ensures UserEmailFromJwt(jwt, ctx).Ok? ==>
              var email := UserEmailFromJwt(jwt, ctx).value;
              (forall k: nat :: r == Ok(k) <==> OnlyMatch(t, email, k)) &&
              (r == Err(NonUniqueResult) <==> AmbiguousMatch(t, email)) &&
              (r == Err(NotFound("Employee not found for email: " + email)) <==> NoMatch(t, email))
  {
    var email := UserEmailFromJwt(jwt, ctx);
    if email.Err? then Err(email.error)
    else
      var found := FindEither(t, email.value);
      if found.Err? then Err(found.error)
      else if found.value.Some? then Ok(found.value.value)
      else Err(NotFound("Employee not found for email: " + email.value))
  }

  /** hasLeaveAccess: always for an admin; otherwise the leave is looked up and must
      belong to the caller's employee record. */
  function HasLeaveAccess(ctx: SecurityContext, jwt: Option<Jwt>, t: Contacts, leaves: LeaveRows, leaveId: nat): (r: Result<bool>)
    ensures IsAdmin(ctx) ==> r == Ok(true)
    ensures !IsAdmin(ctx) && leaveId !in leaves ==> r == Err(NotFound("Leave not found with id: " + NatText(leaveId)))
    ensures !IsAdmin(ctx) && leaveId in leaves && EmployeeIdFromToken(ctx, jwt, t).Err? ==>
              r == Err(EmployeeIdFromToken(ctx, jwt, t).error)
    ensures !IsAdmin(ctx) && leaveId in leaves && EmployeeIdFromToken(ctx, jwt, t).Ok? ==>
              (r == Ok(true) <==> leaves[leaveId].employeeId == Some(EmployeeIdFromToken(ctx, jwt, t).value)) &&
              (r == Ok(false) <==> leaves[leaveId].employeeId != Some(EmployeeIdFromToken(ctx, jwt, t).value))
  {
    if IsAdmin(ctx) then Ok(true)
    else
      var leave := GetLeaveById(leaves, leaveId);
      if leave.Err? then Err(leave.error)
      else
        var me := EmployeeIdFromToken(ctx, jwt, t);
        if me.Err? then Err(me.error)
        else Ok(leave.value.employeeId == Some(me.value))
  }
}
