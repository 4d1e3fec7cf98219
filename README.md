# Employee management backend: record-keeping rules in Dafny

This project models the record-keeping core of a Spring Boot HR backend that stores
employees with their owned records (education, certifications, skills, experiences,
documents and one profile photo), leave requests, teams and projects, and proves what
its services promise about them.

The model follows the program's layering:

- **Entities** (`entities.dfy`) are Dafny classes, because the JPA entities are changed in place.
  - `Employee` keeps its child lists and the children's owner back-references in step,
    through the `addX`/`removeX`/`setX` helpers of `Employee.java`.
  - `Child<K>` stands for the four small owned records (`Education`, `Certification`, `Skill`,
    `Experience`): an id, a version, an owner and their scalar columns.
  - `Document`, `ProfilePhoto`, `Leave`, `Team` and `Project` are classes as well.
- **Repositories** (`repositories.dfy`) are classes holding a table `map<nat, Entity>`
  keyed by id, plus the next id to hand out. Each derived query is a filter over that table.
- **Pure rules** are functions over value snapshots of the tables, with lemmas about them:
  - `security.dfy`: the security service's claim handling;
  - `employee_queries.dfy`: the employee repository's finders;
  - `employee_rules.dfy`: uniqueness checks and the email lookup chain;
  - `leave_queries.dfy`, `leave_rules.dfy`: leave overlap and leave validation;
  - `assignment_rules.dfy`: role-gated assignment;
  - `document_controller.dfy`: upload validation;
  - `pdf_address.dfy`: the PDF address line;
  - the controllers' access checks.
- **Services** are classes whose methods change the repositories and entities.
  - Each method states its whole outcome: the error returned and "nothing changed" on
    failure, and the new contents of every table it touches on success.
  - The centre is the employee update (`employee_service.dfy`, `reconcile.dfy`), which
    reconciles the incoming education, certification and skill lists against the stored
    ones. A matched id updates that record in place. Any other item becomes a new record
    with no id and version 0. Every stored record whose id is not named is deleted.

Errors are values of `Common.Error` (`NotFound`, `IllegalArgument`, `IllegalState`,
`AccessDenied`, `NullPointer`, `NonUniqueResult`, `Wrapped`), one per Java exception class,
carrying the source's messages.
The security context and the token's claims are parameters (`SecurityContext`, `Jwt`).
Today's date is the parameter `today`. A date is a day number.

Behaviours of the code a reader may not expect, which the model keeps:

- Documents listed in `documentsToDelete` are deleted whichever employee owns them
  (`EmployeeService.DocumentsToDelete`).
- `updateLeaveStatus` sets any status from any status. Only `cancelLeave` insists on `PENDING`.
- The approved-leave overlap check ranges over every employee's leaves (`LeaveRules.OtherEmployeesLeaveBlocks`).
- The caller's email fallback strips only an `auth0|` prefix, and does not check that what remains holds an `@`
  (`Security.Auth0SubjectIsNotAnEmail`). The employee lookup likewise strips only `auth0|`
  (`EmployeeRules.OtherProviderPrefixNotStripped`).
- `getEmployeeById` in the employee controller compares only the token's subject with the
  record's emails, so an owner identified by an email claim is refused
  (`EmployeeController.SubjectCheckRefusesOwnerWithEmailClaim`).
- `findByEmail` matches the work OR the personal email. Two employees can satisfy the three
  unique columns and still both match one address, and the query then fails with a
  non-unique-result error (`EmployeeQueries.FindByEmailAmbiguousDespiteUniqueColumns`).
- `existsByEmail(null)` holds when any stored employee has no email, so a second employee
  without an email is refused (`EmployeeRules.MissingEmailClashesWithMissingEmail`).
- The update path does not reconcile experiences: `updateExperiences` and `updateProfilePhoto`
  exist but nothing calls them.
- The not-found message of `updateEmployee` is "Employee not found".

## Model

| member | source | states |
|---|---|---|
| Security.PreAuthorize | employee-management-backend-final/src/main/java/com/example/employeemanagement/config/SecurityConfig.java:61-68 | a `@PreAuthorize("hasRole(...)")` guard passes exactly when the token's roles claim holds one of the roles, each role turned into a `ROLE_` authority; otherwise "Access Denied" |
| Security.IsAdminIffHasAdminRole | employee-management-backend-final/src/main/java/com/example/employeemanagement/service/SecurityService.java:30-38 | for a JWT principal, `isAdmin` is the same test as `hasRole('admin')` |
| Security.ResolveEmail | employee-management-backend-final/src/main/java/com/example/employeemanagement/service/SecurityService.java:50-64 | the `email` claim wins, then the `user_email` claim, then a subject holding `@`, then an `auth0\|` subject with its prefix removed; it fails with "Unable to identify user - no email available in token" exactly when none of these applies |
| Security.ResolveEmailExtendsClaims | employee-management-backend-final/src/main/java/com/example/employeemanagement/service/SecurityService.java:50-62 | when a claim carries an email it is the answer; with no claim the subject resolves exactly when it starts with `auth0\|`, or holds an `@` |
| Security.Auth0SubjectIsNotAnEmail | employee-management-backend-final/src/main/java/com/example/employeemanagement/service/SecurityService.java:58-59 | the subject `auth0\|12345` resolves to `12345`, a value that is not an email address |
| Security.UserEmailFromJwt | employee-management-backend-final/src/main/java/com/example/employeemanagement/service/SecurityService.java:40-65 | a given token is resolved as above; with no token, a JWT principal in the context is resolved the same way; with neither the answer is "No authentication information available" |
| Security.ValidateEmployeeAccess | employee-management-backend-final/src/main/java/com/example/employeemanagement/service/SecurityService.java:80-89 | access is granted exactly to an admin or to a caller whose resolved email equals the employee's work or personal email; anyone else gets "You can only access your own employee record." |
| Security.ValidateEmployeeAccessById | employee-management-backend-final/src/main/java/com/example/employeemanagement/service/SecurityService.java:67-78 | passes exactly for an admin, or when the caller's email resolves and the row under the id holds it as work or personal email; an email failure is passed on, a missing id gives "Employee not found with id: <id>", a foreign record "You can only access your own employee record." |
| Security.EmployeeIdFromToken | employee-management-backend-final/src/main/java/com/example/employeemanagement/service/SecurityService.java:91-97 | the id is returned exactly when one employee matches the resolved email; two matches give the non-unique-result error and none gives "Employee not found for email: ..."; a failure to resolve the email is passed on |
| Security.HasLeaveAccess | employee-management-backend-final/src/main/java/com/example/employeemanagement/service/SecurityService.java:99-108 | an admin always has access; otherwise a missing leave is "Leave not found with id: <id>", a failed token lookup is passed on, and the answer is true exactly when the leave belongs to the caller's employee |
| EmployeeController.GetAllEmployees | employee-management-backend-final/src/main/java/com/example/employeemanagement/controller/EmployeeController.java:38-69 | a failed @PreAuthorize check is passed on; an admin gets every employee; for a user with an email claim, the result is {k} exactly when getEmployeeByEmail finds k, and its error exactly when it fails; every employee returned to a user matches the claim (or the claim after `auth0\|`); no email claim gives "Unable to identify user - no email available in token" |
| EmployeeController.GetEmployeeById | employee-management-backend-final/src/main/java/com/example/employeemanagement/controller/EmployeeController.java:71-85 | succeeds exactly when @PreAuthorize passes, the id is stored and the caller is an admin or the token's subject equals the row's work or personal email, and then returns that row; a gate failure is passed on, a missing id gives "Employee not found with id: <id>", a missing subject a NullPointerException, a foreign record its refusal |
| EmployeeController.SubjectCheckRefusesOwnerWithEmailClaim | employee-management-backend-final/src/main/java/com/example/employeemanagement/controller/EmployeeController.java:77-81 | a user whose email claim matches the record, but whose subject is an `auth0\|` id, is refused by this endpoint although the service's own access check accepts them |
| EmployeeController.DownloadPdfAccess | employee-management-backend-final/src/main/java/com/example/employeemanagement/controller/EmployeeController.java:112-146 | succeeds exactly when @PreAuthorize passes, the id is stored and the caller is an admin or the email claim equals the row's work or personal email, and then returns that row; a gate failure is passed on, a missing id gives "Employee not found with id: <id>", anything else "You can only download your own PDF" |
| EmployeeQueries.SingleResult | employee-management-backend-final/src/main/java/com/example/employeemanagement/repository/EmployeeRepository.java:17-19 | an `Optional` query gives nothing for no row, the row for one row, and fails with a non-unique-result error for two or more rows |
| EmployeeQueries.FindEither | employee-management-backend-final/src/main/java/com/example/employeemanagement/service/EmployeeServiceImpl.java:432-437 | the work-or-personal lookup followed by the personal one: none, exactly one, or the non-unique-result error, each exactly as for the combined match |
| EmployeeQueries.FindByEmail | employee-management-backend-final/src/main/java/com/example/employeemanagement/repository/EmployeeRepository.java:17-18 | matches the work OR the personal email: none, exactly one, or an error when two employees match |
| EmployeeQueries.FindByPersonalEmail | employee-management-backend-final/src/main/java/com/example/employeemanagement/repository/EmployeeRepository.java:19 | matches the personal email column only, with the same three outcomes |
| EmployeeQueries.PersonalLookupAddsNothing | employee-management-backend-final/src/main/java/com/example/employeemanagement/service/SecurityService.java:93-94 | when `findByEmail` finds nothing, the `findByPersonalEmail` fallback finds nothing either |
| EmployeeQueries.FindByPersonalEmailUnambiguous | employee-management-backend-final/src/main/java/com/example/employeemanagement/model/Employee.java:26-35 | with the unique column constraints the personal email lookup never fails |
| EmployeeQueries.FindByEmailAmbiguousDespiteUniqueColumns | employee-management-backend-final/src/main/java/com/example/employeemanagement/repository/EmployeeRepository.java:17-18 | two employees can satisfy the unique columns while one's work email is the other's personal email; `findByEmail` then fails |
| EmployeeRules.GetEmployeeById | employee-management-backend-final/src/main/java/com/example/employeemanagement/service/EmployeeServiceImpl.java:64-76 | found exactly when the id is stored; otherwise "Employee not found with id: <id>" |
| EmployeeRules.ValidateUniqueConstraints | employee-management-backend-final/src/main/java/com/example/employeemanagement/service/EmployeeServiceImpl.java:148-166 | create: accepted exactly when no employee holds the email, the personal email or the mobile; update: a column the DTO changes must be free; the columns are checked in the order email, personal email, mobile, the first failing one names its message ("Email already exists", "Personal email already exists", "Mobile number already exists"), and a null stored column reached by the check fails with a NullPointerException |
| EmployeeRules.CreateKeepsContactsUnique | employee-management-backend-final/src/main/java/com/example/employeemanagement/service/EmployeeServiceImpl.java:52-62 | a validated new employee keeps the three unique columns unique |
| EmployeeRules.UpdateKeepsContactsUnique | employee-management-backend-final/src/main/java/com/example/employeemanagement/service/EmployeeServiceImpl.java:108-114 | a validated update, with null DTO fields skipped, keeps the three unique columns unique |
| EmployeeRules.DeleteKeepsContactsUnique | employee-management-backend-final/src/main/java/com/example/employeemanagement/service/EmployeeServiceImpl.java:139-146 | removing an employee keeps the unique columns unique |
| EmployeeRules.MissingEmailClashesWithMissingEmail | employee-management-backend-final/src/main/java/com/example/employeemanagement/service/EmployeeServiceImpl.java:149-153 | a new employee without an email is refused with "Email already exists" once any stored employee lacks one (`existsByEmail(null)`) |
| EmployeeRules.GetEmployeeByEmail | employee-management-backend-final/src/main/java/com/example/employeemanagement/service/EmployeeServiceImpl.java:428-451 | a single employee matching the identifier as given is returned, before any prefix is stripped; two matches give the non-unique-result error; only when nothing matches is an `auth0\|` prefix stripped and the lookup repeated with the same outcomes; "Employee not found with identifier: ..." exactly when all of them miss |
| EmployeeRules.OtherProviderPrefixNotStripped | employee-management-backend-final/src/main/java/com/example/employeemanagement/service/EmployeeServiceImpl.java:440-442 | a `google\|` identifier is not stripped, so its owner is not found |
| EmployeeRules.Auth0IdentifierFallsBack | employee-management-backend-final/src/main/java/com/example/employeemanagement/service/EmployeeServiceImpl.java:440-447 | an `auth0\|<email>` identifier finds the one employee matching `<email>` |
| EmployeeRules.PhotoDecision | employee-management-backend-final/src/main/java/com/example/employeemanagement/service/EmployeeServiceImpl.java:94-106 | the photo is removed exactly when `removeProfilePhoto` is true; it is kept when no photo data comes in; otherwise the incoming photo (with data) is used |
| LeaveController.ApplyLeaveAccess | employee-management-backend-final/src/main/java/com/example/employeemanagement/controller/LeaveController.java:28-38 | succeeds exactly when @PreAuthorize passes and the caller is an admin or the request's employee is the one their token identifies; a gate failure and a failure to identify the caller are passed on; a request for someone else gets "You can only apply leave for yourself" |
| LeaveController.ListLeavesAccess | employee-management-backend-final/src/main/java/com/example/employeemanagement/controller/LeaveController.java:40-52 | succeeds exactly when @PreAuthorize passes and the caller is an admin or the token identifies the listed employee; a gate failure and a failure to identify the caller are passed on; anyone else gets "You can only view your own leaves" |
| LeaveController.LeaveAccess | employee-management-backend-final/src/main/java/com/example/employeemanagement/controller/LeaveController.java:75-96 | getLeaveById and cancelLeave pass exactly when the role guard and `hasLeaveAccess` pass; the guard's error and an error of `hasLeaveAccess` are passed on; a `false` answer gives the endpoint's message |
| LeaveController.LeaveAccessMeansOwnLeave | employee-management-backend-final/src/main/java/com/example/employeemanagement/controller/LeaveController.java:75-96 | a non-admin who passes the guard owns the leave: its employee is the one matching the caller's email |
| LeaveController.AdminOnlyEndpointsNeedAdminRole | employee-management-backend-final/src/main/java/com/example/employeemanagement/controller/LeaveController.java:54-73 | the pending, count and status endpoints admit exactly the callers holding `admin` |
| LeaveRules.GetLeaveById | employee-management-backend-final/src/main/java/com/example/employeemanagement/service/LeaveServiceImpl.java:101-106 | found exactly when stored; otherwise "Leave not found with id: <id>" |
| LeaveRules.ValidateLeaveRequest | employee-management-backend-final/src/main/java/com/example/employeemanagement/service/LeaveServiceImpl.java:54-69 | accepted exactly when start <= end, the employee exists and no APPROVED leave of anyone overlaps; each failure has its message, checked in that order |
| LeaveRules.AcceptedRequestAvoidsApprovedDays | employee-management-backend-final/src/main/java/com/example/employeemanagement/service/LeaveServiceImpl.java:63-68 | an accepted request shares no day with any approved leave |
| LeaveRules.OtherEmployeesLeaveBlocks | employee-management-backend-final/src/main/java/com/example/employeemanagement/repository/LeaveRepository.java:20-21 | another employee's approved leave blocks a request, because the overlap query ignores the employee |
| LeaveRules.CancelOutcome | employee-management-backend-final/src/main/java/com/example/employeemanagement/service/LeaveServiceImpl.java:108-119 | only a PENDING leave can be cancelled; otherwise "Only pending leaves can be cancelled" |
| LeaveRules.ReasonAfterUpdate | employee-management-backend-final/src/main/java/com/example/employeemanagement/service/LeaveServiceImpl.java:77-79 | a non-blank reason replaces the stored one; a missing or blank one keeps it |
| LeaveRules.BlankReasonKeepsCurrent | employee-management-backend-final/src/main/java/com/example/employeemanagement/service/LeaveServiceImpl.java:77-79 | an empty or whitespace-only reason never replaces the stored one |
| LeaveQueries.OverlapsIffSharedDay | employee-management-backend-final/src/main/java/com/example/employeemanagement/repository/LeaveRepository.java:20-21 | the overlap query's test (start <= end' and end >= start') holds exactly when the two ranges share a day |
| LeaveQueries.OverlapIgnoresEmployee | employee-management-backend-final/src/main/java/com/example/employeemanagement/repository/LeaveRepository.java:20-21 | whose leave it is plays no part in the overlap query |
| LeaveQueries.EmployeeAndStatusIsIntersection | employee-management-backend-final/src/main/java/com/example/employeemanagement/repository/LeaveRepository.java:14-18 | `findByEmployee_EmployeeIdAndStatus` is the intersection of the employee query and the status query |
| LeaveQueries.StatusFiltersPartition | employee-management-backend-final/src/main/java/com/example/employeemanagement/repository/LeaveRepository.java:16-24 | the four status queries partition the leaves, so the pending count is at most the number of leaves |
| LeaveService.LeaveService.ApplyLeave | employee-management-backend-final/src/main/java/com/example/employeemanagement/service/LeaveServiceImpl.java:35-52 | a refused request stores nothing and returns the validation error; an accepted one stores one new PENDING leave of that employee with the request's fields, `createdAt` defaulting to today |
| LeaveService.LeaveService.SaveNewLeave | employee-management-backend-final/src/main/java/com/example/employeemanagement/service/LeaveServiceImpl.java:41-50 | the new leave is the only row added, and it is PENDING with the request's fields |
| LeaveService.LeaveService.UpdateLeaveStatus | employee-management-backend-final/src/main/java/com/example/employeemanagement/service/LeaveServiceImpl.java:71-82 | a missing leave is "Leave not found"; otherwise the status is set, the reason follows ReasonAfterUpdate, and `updatedAt` becomes today when the row changed |
| LeaveService.LeaveService.CancelLeave | employee-management-backend-final/src/main/java/com/example/employeemanagement/service/LeaveServiceImpl.java:108-119 | a pending leave becomes CANCELLED with `updatedAt` today; any other leave is left unchanged with the IllegalState error |
| LeaveService.LeaveService.GetPendingLeaves | employee-management-backend-final/src/main/java/com/example/employeemanagement/service/LeaveServiceImpl.java:90-94 | exactly the leaves whose status is PENDING |
| LeaveService.LeaveService.GetLeavesByEmployeeId | employee-management-backend-final/src/main/java/com/example/employeemanagement/service/LeaveServiceImpl.java:84-88 | exactly the leaves whose employee has that id |
| Entities.Leave.FromRequest | employee-management-backend-final/src/main/java/com/example/employeemanagement/model/Leave.java:46-51 | a new leave has no id, no employee and status PENDING, with the given dates |
| Entities.Leave.OnUpdate | employee-management-backend-final/src/main/java/com/example/employeemanagement/model/Leave.java:56-59 | every update stamps `updatedAt` with today |
| AssignmentRules.CheckSlot | employee-management-backend-final/src/main/java/com/example/employeemanagement/service/TeamServiceImpl.java:147-162 | a manager slot takes an existing employee of exactly the required role; a missing one is NotFound, a wrong role IllegalArgument |
| AssignmentRules.SlotTakesOnlyItsRole | employee-management-backend-final/src/main/java/com/example/employeemanagement/service/TeamServiceImpl.java:155-157 | no other role, ADMIN included, fills a slot |
| AssignmentRules.CheckOptionalSlot | employee-management-backend-final/src/main/java/com/example/employeemanagement/service/TeamServiceImpl.java:53-73 | a null manager id leaves the slot empty; otherwise the slot check decides |
| AssignmentRules.ValidateTeam | employee-management-backend-final/src/main/java/com/example/employeemanagement/service/TeamServiceImpl.java:44-77 | a team is accepted exactly when its project exists and each named manager exists and holds the right role, and then its slots are the DTO's; checked in the order project ("Project not found"), project manager ("Project Manager not found", "Employee must be a Project Manager"), team manager ("Team Manager not found", "Employee must be a Team Manager") |
| AssignmentRules.AddMemberCheck | employee-management-backend-final/src/main/java/com/example/employeemanagement/service/TeamServiceImpl.java:194-213 | a member is added exactly when the team and employee exist, the role is MEMBER and the team has fewer than 6 members; each failure has its message |
| AssignmentRules.RoleCheckedBeforeCapacity | employee-management-backend-final/src/main/java/com/example/employeemanagement/service/TeamServiceImpl.java:202-208 | on a full team a non-member is refused for the role, not for the size |
| AssignmentRules.CheckSeniorManager | employee-management-backend-final/src/main/java/com/example/employeemanagement/service/ProjectServiceImpl.java:36-54 | a project's manager, when named, must exist and be a SENIOR_PROJECT_MANAGER |
| TeamService.TeamService.NewTeam | employee-management-backend-final/src/main/java/com/example/employeemanagement/service/TeamServiceImpl.java:46-73 | a new team carries the given name, project and managers and no members |
| TeamService.TeamService.CreateTeam | employee-management-backend-final/src/main/java/com/example/employeemanagement/service/TeamServiceImpl.java:44-77 | a refused team stores nothing; an accepted one is one new row with the DTO's fields that joins its project's teams |
| TeamService.TeamService.UpdateTeam | employee-management-backend-final/src/main/java/com/example/employeemanagement/service/TeamServiceImpl.java:79-118 | a missing team is "Team not found"; a refused DTO changes nothing; otherwise name, project and managers are overwritten and the members kept |
| TeamService.TeamService.AssignProjectManager | employee-management-backend-final/src/main/java/com/example/employeemanagement/service/TeamServiceImpl.java:147-162 | the slot check decides; on success only the project manager changes |
| TeamService.TeamService.AssignTeamManager | employee-management-backend-final/src/main/java/com/example/employeemanagement/service/TeamServiceImpl.java:164-179 | the slot check decides; on success only the team manager changes |
| TeamService.TeamService.AddTeamMember | employee-management-backend-final/src/main/java/com/example/employeemanagement/service/TeamServiceImpl.java:194-213 | the result is AddMemberCheck, counting the team's members from the employees' team column; on success the employee's column names the team, so the employee is among its members and leaves those of every other team; on failure no team's members change; either way no team has more than six members |
| TeamService.TeamService.DeleteTeam | employee-management-backend-final/src/main/java/com/example/employeemanagement/service/TeamServiceImpl.java:140-145 | a missing team is "Team not found" and nothing changes; otherwise exactly that team's row is removed |
| TeamService.TeamService.RemoveTeamMember | employee-management-backend-final/src/main/java/com/example/employeemanagement/service/TeamServiceImpl.java:215-225 | missing team or employee give NotFound and no membership changes; otherwise the employee's team column is cleared, so the employee is in no team's members, whichever team it was in |
| Entities.Team.constructor | employee-management-backend-final/src/main/java/com/example/employeemanagement/model/Team.java:14-35 | a new team has no name, project, managers or members |
| Entities.Team.SetDetails | employee-management-backend-final/src/main/java/com/example/employeemanagement/service/TeamServiceImpl.java:84-114 | the four setters overwrite exactly those fields |
| Entities.Team.AddMember | employee-management-backend-final/src/main/java/com/example/employeemanagement/model/Team.java:38-44 | with 6 members already the call is refused and nothing changes; otherwise the employee is appended and linked, so a team never passes 6 members |
| Entities.Team.RemoveMember | employee-management-backend-final/src/main/java/com/example/employeemanagement/model/Team.java:46-49 | the first occurrence is removed and the employee's team cleared |
| Entities.Project.constructor | employee-management-backend-final/src/main/java/com/example/employeemanagement/model/Project.java:15-27 | a new project has no id, name or senior manager |
| ProjectService.ProjectService.NewProject | employee-management-backend-final/src/main/java/com/example/employeemanagement/service/ProjectServiceImpl.java:37-49 | a new project carries the given name and manager |
| ProjectService.ProjectService.CreateProject | employee-management-backend-final/src/main/java/com/example/employeemanagement/service/ProjectServiceImpl.java:36-54 | the manager check decides (missing: "Senior Project Manager not found with id: <id>"); success stores one new project with the DTO's name and manager |
| ProjectService.ProjectService.UpdateProject | employee-management-backend-final/src/main/java/com/example/employeemanagement/service/ProjectServiceImpl.java:56-78 | a missing project is "Project not found"; a null manager id clears the slot; on success the name is overwritten |
| ProjectService.ProjectService.DeleteProject | employee-management-backend-final/src/main/java/com/example/employeemanagement/service/ProjectServiceImpl.java:92-97 | a missing project is "Project not found" and nothing changes; otherwise that row and the rows of the project's teams are removed, and no stored team names the project |
| ProjectService.ProjectService.AssignSeniorProjectManager | employee-management-backend-final/src/main/java/com/example/employeemanagement/service/ProjectServiceImpl.java:99-114 | the slot check with SENIOR_PROJECT_MANAGER decides; on success only the manager changes |
| ProjectService.ProjectService.TeamsCount | employee-management-backend-final/src/main/java/com/example/employeemanagement/service/ProjectServiceImpl.java:120 | the number of teams whose project is this one, zero exactly when no team points to it |
| DocumentController.ValidateUpload | employee-management-backend-final/src/main/java/com/example/employeemanagement/controller/DocumentController.java:30-59 | accepted exactly when the file is non-empty, at most 5 MB and of one of the three content types; empty, size and type are checked in that order, each with its message |
| DocumentController.SizeLimitIsInclusive | employee-management-backend-final/src/main/java/com/example/employeemanagement/controller/DocumentController.java:40-42 | exactly 5 MB is accepted, one byte more is refused |
| DocumentController.ContentTypeMustMatchExactly | employee-management-backend-final/src/main/java/com/example/employeemanagement/controller/DocumentController.java:56-59 | parameters, other letter case and a missing content type are refused |
| DocumentController.UploadDocument | employee-management-backend-final/src/main/java/com/example/employeemanagement/controller/DocumentController.java:30-54 | a refused upload stores nothing and every error comes back wrapped as "Failed to upload document: ...": the validation's error, the missing employee, and a NullPointerException for an employee whose document list is null; no error changes the document rows; on success exactly one new row is added, appended to the employee's list, holding the upload's name, content type, size and bytes, the given document type, version 0 and the employee as owner; it is listed for the employee and downloads as the uploaded bytes |
| DocumentService.DocumentService.GetDocumentsByEmployeeId | employee-management-backend-final/src/main/java/com/example/employeemanagement/service/DocumentServiceImpl.java:35-39 | exactly the documents whose employee has that id |
| DocumentService.DocumentService.GetDocumentById | employee-management-backend-final/src/main/java/com/example/employeemanagement/service/DocumentServiceImpl.java:41-46 | a missing id is "Document not found with id: <id>"; a document with no employee fails in the conversion; otherwise its fields are returned |
| DocumentService.DocumentService.DownloadDocument | employee-management-backend-final/src/main/java/com/example/employeemanagement/service/DocumentServiceImpl.java:89-94 | the stored bytes, or "Document not found" |
| DocumentService.DocumentService.NewDocument | employee-management-backend-final/src/main/java/com/example/employeemanagement/service/DocumentServiceImpl.java:54-60 | the new document carries the upload's name, type, size and bytes and the document type |
| DocumentService.DocumentService.UploadDocument | employee-management-backend-final/src/main/java/com/example/employeemanagement/service/DocumentServiceImpl.java:48-72 | a missing employee stores nothing; a null document list gives a NullPointerException and changes nothing; on success exactly one new row is added, appended to the employee's list, holding the file's name, content type, size and bytes, the given document type, version 0 and the employee as owner; it is listed for the employee and downloads as the uploaded bytes |
| DocumentService.DocumentService.DeleteDocument | employee-management-backend-final/src/main/java/com/example/employeemanagement/service/DocumentServiceImpl.java:74-87 | a missing id changes nothing; otherwise the document leaves the owner's list and the table and can no longer be downloaded |
| PhotoService.ProfilePhotoService.GetProfilePhoto | employee-management-backend-final/src/main/java/com/example/employeemanagement/service/ProfilePhotoService.java:56-63 | the single photo of that employee id is returned; none exactly when there is no such photo; two photos give the non-unique-result error |
| PhotoService.ProfilePhotoService.NewPhoto | employee-management-backend-final/src/main/java/com/example/employeemanagement/service/ProfilePhotoService.java:45-50 | the new photo carries the upload's name, type, size and bytes and its employee |
| PhotoService.ProfilePhotoService.DeleteProfilePhoto | employee-management-backend-final/src/main/java/com/example/employeemanagement/service/ProfilePhotoService.java:65-68 | every photo of that employee id is removed, after which there is none |
| PhotoService.ProfilePhotoService.UploadProfilePhoto | employee-management-backend-final/src/main/java/com/example/employeemanagement/service/ProfilePhotoService.java:31-54 | a missing employee and an empty file are refused with nothing changed; otherwise the old photo is replaced by the one new photo, which GetProfilePhoto then returns |
| PdfAddress.FormatAddress | employee-management-backend-final/src/main/java/com/example/employeemanagement/service/PdfService.java:268-279 | the builder's result is Render of the four parts, each present part with its separator |
| PdfAddress.RenderEmptyIffNonePresent | employee-management-backend-final/src/main/java/com/example/employeemanagement/service/PdfService.java:268-279 | a rendering is empty exactly when no part is present |
| PdfAddress.EmptyAddressIffAllAbsent | employee-management-backend-final/src/main/java/com/example/employeemanagement/service/PdfService.java:268-279 | the address is empty exactly when street, city, state and zip are all null or empty |
| PdfAddress.StateWithoutCityKeepsComma | employee-management-backend-final/src/main/java/com/example/employeemanagement/service/PdfService.java:274-276 | a state with no street or city still starts with ", " |
| ChildReconciliation.OrphansAreTheUnnamed | employee-management-backend-final/src/main/java/com/example/employeemanagement/service/EmployeeServiceImpl.java:205-211 | a current record is deleted exactly when no incoming item names it by id |
| ChildReconciliation.NoItemsDeleteEverything | employee-management-backend-final/src/main/java/com/example/employeemanagement/service/EmployeeServiceImpl.java:169-171 | a null incoming list is taken as empty, so every current record is deleted |
| ChildReconciliation.ResubmissionDeletesNothing | employee-management-backend-final/src/main/java/com/example/employeemanagement/service/EmployeeServiceImpl.java:205-211 | sending back every current id deletes nothing |
| ChildReconciliation.ForeignIdIsCopied | employee-management-backend-final/src/main/java/com/example/employeemanagement/service/EmployeeServiceImpl.java:191-200 | an item whose id belongs to no current record becomes a new record, and that id is not deleted |
| ChildReconciliation.UnnamedRecordUnchanged | employee-management-backend-final/src/main/java/com/example/employeemanagement/service/EmployeeServiceImpl.java:189-203 | a record no item names keeps its fields |
| ChildReconciliation.UncarriedColumnKept | employee-management-backend-final/src/main/java/com/example/employeemanagement/service/EmployeeServiceImpl.java:195 | a column that no naming item carries keeps its value (skip-null mapping) |
| ChildReconciliation.LastCarrierWins | employee-management-backend-final/src/main/java/com/example/employeemanagement/service/EmployeeServiceImpl.java:189-203 | when several items name a record, the last one carrying a column decides it |
| ChildReconciliation.ResubmittedFieldsUnchanged | employee-management-backend-final/src/main/java/com/example/employeemanagement/service/EmployeeServiceImpl.java:195 | resubmitting a record's own fields leaves it as it was |
| ChildReconciliation.IndexOfId | employee-management-backend-final/src/main/java/com/example/employeemanagement/service/EmployeeServiceImpl.java:192-194 | the first current record with that id, or none |
| ChildReconciliation.MapItem | employee-management-backend-final/src/main/java/com/example/employeemanagement/service/EmployeeServiceImpl.java:190-202 | a named current record is merged and returned; otherwise a new record with the item's columns and version 0; every other record keeps its fields |
| ChildReconciliation.CollectOrphans | employee-management-backend-final/src/main/java/com/example/employeemanagement/service/EmployeeServiceImpl.java:205-209 | exactly the current records whose id is not among the incoming ids |
| ChildReconciliation.UpdateChildren | employee-management-backend-final/src/main/java/com/example/employeemanagement/service/EmployeeServiceImpl.java:184-212 | one record per item, named records merged (MergeAll), others new with version 0, and the orphans are exactly those no item names |
| EmployeeService.LookupAndMerge | employee-management-backend-final/src/main/java/com/example/employeemanagement/service/EmployeeServiceImpl.java:169-202 | the loop over the owner's stored records, with the same outcome as UpdateChildren against the table |
| EmployeeService.MergeCurrent | employee-management-backend-final/src/main/java/com/example/employeemanagement/service/EmployeeServiceImpl.java:186-203 | UpdateChildren against the rows the lookup found; rows of other owners are left alone |
| EmployeeService.ReconcileKind | employee-management-backend-final/src/main/java/com/example/employeemanagement/service/EmployeeServiceImpl.java:184-212 | after the delete the owner's rows are exactly the returned list; of the rows before exactly the orphans are gone, the rest are the same objects, merged by MergeAll |
| EmployeeService.ReplaceRecords | employee-management-backend-final/src/main/java/com/example/employeemanagement/service/EmployeeServiceImpl.java:184-212 | Reconciled and Pruned as for ReconcileKind, and Merged: each record whose item names one of the owner's rows has that id and that row's fields with every item naming it merged in (MergeAll), and is that row's object; any other record is a new object with the item's columns and version 0 |
| EmployeeService.MergeAndPrune | employee-management-backend-final/src/main/java/com/example/employeemanagement/service/EmployeeServiceImpl.java:186-211 | the merge followed by `deleteAll` of the orphans |
| EmployeeService.LastNamingItemDecides | employee-management-backend-final/src/main/java/com/example/employeemanagement/service/EmployeeServiceImpl.java:278-288 | a document's type and version come from the last item naming it |
| EmployeeService.UnnamedDocumentUnchanged | employee-management-backend-final/src/main/java/com/example/employeemanagement/service/EmployeeServiceImpl.java:278-288 | a document no item names keeps its metadata |
| EmployeeService.DocumentsToDelete | employee-management-backend-final/src/main/java/com/example/employeemanagement/service/EmployeeServiceImpl.java:88-92 | exactly the ids listed in `documentsToDelete` |
| EmployeeService.EmployeeService.DeleteListedDocuments | employee-management-backend-final/src/main/java/com/example/employeemanagement/service/EmployeeServiceImpl.java:88-92 | the documents whose ids are listed in `documentsToDelete` lose their rows, whichever employee owns them, and the employee rows and photo table are untouched |
| EmployeeService.PhotoRowsAfter | employee-management-backend-final/src/main/java/com/example/employeemanagement/service/EmployeeServiceImpl.java:95-99 | deleting the photo removes exactly its row; without a stored photo nothing changes |
| EmployeeService.EmployeeService.UpdateDocuments | employee-management-backend-final/src/main/java/com/example/employeemanagement/service/EmployeeServiceImpl.java:274-289 | the owner's documents get type and version from MetaAfter; other documents are untouched; no document is created or deleted |
| EmployeeService.BuildChildren | employee-management-backend-final/src/main/java/com/example/employeemanagement/service/EmployeeServiceImpl.java:328-336 | one fresh record per item with the item's columns, no id, version 0 and the new employee as owner |
| EmployeeService.BuildDocuments | employee-management-backend-final/src/main/java/com/example/employeemanagement/service/EmployeeServiceImpl.java:368-376 | one fresh document per item with the item's fields, no id, version 0 and the new employee as owner |
| EmployeeService.CreateChildren | employee-management-backend-final/src/main/java/com/example/employeemanagement/service/EmployeeServiceImpl.java:328-366 | the new records are stored as new rows, one per item, and no other row changes |
| EmployeeService.CreateDocuments | employee-management-backend-final/src/main/java/com/example/employeemanagement/service/EmployeeServiceImpl.java:368-376 | the new documents are stored as new rows, one per item, each holding the item's document type, file name, file type, file size and bytes, version 0 and the new employee as owner; no other row changes |
| EmployeeService.AttachQualifications | employee-management-backend-final/src/main/java/com/example/employeemanagement/service/EmployeeServiceImpl.java:323-346 | the education and certification lists are the saved new records |
| EmployeeService.AttachHistory | employee-management-backend-final/src/main/java/com/example/employeemanagement/service/EmployeeServiceImpl.java:348-376 | the skill, experience and document lists are the saved new records, each holding every field of its item |
| EmployeeService.AttachLater | employee-management-backend-final/src/main/java/com/example/employeemanagement/service/EmployeeServiceImpl.java:358-376 | the experience and document lists are the saved new records, each holding every field of its item |
| EmployeeService.EmployeeService.NewEmployee | employee-management-backend-final/src/main/java/com/example/employeemanagement/service/EmployeeServiceImpl.java:321-322 | a new employee with the DTO's columns, role defaulting to MEMBER, no photo, team or project |
| EmployeeService.EmployeeService.AttachAll | employee-management-backend-final/src/main/java/com/example/employeemanagement/service/EmployeeServiceImpl.java:323-376 | every list of the new employee holds its saved new records |
| EmployeeService.EmployeeService.BuildEmployee | employee-management-backend-final/src/main/java/com/example/employeemanagement/service/EmployeeServiceImpl.java:321-379 | convertToNewEntity with the cascaded saves of the records |
| EmployeeService.EmployeeService.CreateEmployee | employee-management-backend-final/src/main/java/com/example/employeemanagement/service/EmployeeServiceImpl.java:59-60 | one new employee row whose contact columns are the DTO's, with its records stored |
| EmployeeService.EmployeeService.InsertNew | employee-management-backend-final/src/main/java/com/example/employeemanagement/service/EmployeeServiceImpl.java:60 | the row is added under a new id and the records stay stored |
| EmployeeService.EmployeeService.SaveRow | employee-management-backend-final/src/main/java/com/example/employeemanagement/service/EmployeeServiceImpl.java:60 | the row is added under a new id; the lists and every record are untouched |
| EmployeeService.EmployeeService.InsertRow | employee-management-backend-final/src/main/java/com/example/employeemanagement/service/EmployeeServiceImpl.java:60 | the row is added under a new id with the DTO's contacts |
| EmployeeService.EmployeeService.SaveEmployee | employee-management-backend-final/src/main/java/com/example/employeemanagement/service/EmployeeServiceImpl.java:52-62 | the result is the validation's: on error nothing is stored; on success exactly one new employee is stored, with the DTO's columns, no photo, and its new records; the unique columns stay unique |
| EmployeeService.EmployeeService.UpdateEmployee | employee-management-backend-final/src/main/java/com/example/employeemanagement/service/EmployeeServiceImpl.java:83-121 | a missing id is "Employee not found"; a validation error changes nothing; on success the listed documents are gone, the photo follows PhotoDecision, non-null columns are copied, each of the three record lists holds the merged or new record of every item (Merged), exactly the orphans are deleted, and the document metadata follow DocumentsApplied; the unique columns stay unique |
| EmployeeService.EmployeeService.ApplyUpdate | employee-management-backend-final/src/main/java/com/example/employeemanagement/service/EmployeeServiceImpl.java:88-117 | the writes after validation give UpdateApplied against the state before: the row update, the reconciled and merged records, and the document metadata |
| EmployeeService.EmployeeService.PrepareUpdate | employee-management-backend-final/src/main/java/com/example/employeemanagement/service/EmployeeServiceImpl.java:88-114 | the listed documents are deleted, the photo handled and the columns copied |
| EmployeeService.EmployeeService.UpdateRow | employee-management-backend-final/src/main/java/com/example/employeemanagement/service/EmployeeServiceImpl.java:94-114 | the photo handling and the column copy, RowUpdated |
| EmployeeService.EmployeeService.RemoveProfilePhoto | employee-management-backend-final/src/main/java/com/example/employeemanagement/service/EmployeeServiceImpl.java:95-101 | when asked, the stored photo's row is deleted and the employee's photo cleared; otherwise nothing changes |
| EmployeeService.EmployeeService.MergeColumns | employee-management-backend-final/src/main/java/com/example/employeemanagement/service/EmployeeServiceImpl.java:112-114 | non-null DTO contacts, details and role overwrite the row; the unique columns stay unique |
| EmployeeService.EmployeeService.FinishUpdate | employee-management-backend-final/src/main/java/com/example/employeemanagement/service/EmployeeServiceImpl.java:117 | updateEmployeeRelationships against the tables before updateEmployee: the row update stays, and the records and document metadata are as UpdateApplied states |
| EmployeeService.EmployeeService.UpdateRelationships | employee-management-backend-final/src/main/java/com/example/employeemanagement/service/EmployeeServiceImpl.java:168-182 | educations, certifications and skills are reconciled (QualificationsApplied) with their merged or new contents (QualificationsMerged), and the document metadata follow DocumentsApplied; the row's columns and photo are untouched |
| EmployeeService.EmployeeService.ReconcileRecords | employee-management-backend-final/src/main/java/com/example/employeemanagement/service/EmployeeServiceImpl.java:169-178 | the employee's three lists are the reconciled ones: the owner's rows of each kind are exactly the list, exactly the orphans are gone, and each record carries its merged or new fields |
| EmployeeService.EmployeeService.ReconcileTables | employee-management-backend-final/src/main/java/com/example/employeemanagement/service/EmployeeServiceImpl.java:169-178 | each of the three kinds is Reconciled, Pruned and Merged against the rows before, with the matched records being the existing objects and the others new |
| EmployeeService.EmployeeService.ReconcileLater | employee-management-backend-final/src/main/java/com/example/employeemanagement/service/EmployeeServiceImpl.java:173-178 | certifications and skills are Reconciled, Pruned and Merged against the rows before, with the matched records being the existing objects and the others new |
| EmployeeService.EmployeeService.UpdateDocumentMetas | employee-management-backend-final/src/main/java/com/example/employeemanagement/service/EmployeeServiceImpl.java:180-181 | the document metadata follow DocumentsApplied |
| EmployeeService.EmployeeService.DeleteEmployee | employee-management-backend-final/src/main/java/com/example/employeemanagement/service/EmployeeServiceImpl.java:139-146 | the row is removed; educations, certifications, skills and documents of that employee id are removed; the experiences and the photo go by cascade; nothing else changes |
| EmployeeService.EmployeeService.DeleteRecords | employee-management-backend-final/src/main/java/com/example/employeemanagement/service/EmployeeServiceImpl.java:141-144 | the four bulk deletes by employee id |
| EmployeeService.EmployeeService.DeleteQualifications | employee-management-backend-final/src/main/java/com/example/employeemanagement/service/EmployeeServiceImpl.java:141-142 | the educations and certifications of that employee id are removed |
| EmployeeService.EmployeeService.DeleteSkillsAndDocuments | employee-management-backend-final/src/main/java/com/example/employeemanagement/service/EmployeeServiceImpl.java:143-144 | the skills and documents of that employee id are removed |
| EmployeeService.EmployeeService.DeleteRow | employee-management-backend-final/src/main/java/com/example/employeemanagement/service/EmployeeServiceImpl.java:145 | `deleteById`: the row is removed and its experiences and photo cascade; a missing id changes nothing |
| EmployeeService.EmployeeService.Cascade | employee-management-backend-final/src/main/java/com/example/employeemanagement/model/Employee.java:61-77 | the experiences and photo owned by the employee are removed |
| Entities.Child.New | employee-management-backend-final/src/main/java/com/example/employeemanagement/model/Education.java:32-34 | a new record has no id, no owner and version 0 |
| Entities.Document.New | employee-management-backend-final/src/main/java/com/example/employeemanagement/model/Document.java:13-35 | a new document has no id, no version and no owner, with the given fields |
| Entities.ProfilePhoto.New | employee-management-backend-final/src/main/java/com/example/employeemanagement/model/ProfilePhoto.java:14-41 | a new photo has no id and no owner, with the given fields |
| Entities.Employee.constructor | employee-management-backend-final/src/main/java/com/example/employeemanagement/model/Employee.java:49-77 | a new employee has role MEMBER, empty lists, and no photo, team or project |
| Entities.Employee.OverlayColumns | employee-management-backend-final/src/main/java/com/example/employeemanagement/config/ModelMapperConfig.java:20-23 | skip-null mapping: each non-null field overwrites its column, the others keep theirs |
| Entities.Employee.SetQualifications | employee-management-backend-final/src/main/java/com/example/employeemanagement/service/EmployeeServiceImpl.java:323-325 | the three lists are replaced |
| Entities.Employee.AddEducation | employee-management-backend-final/src/main/java/com/example/employeemanagement/model/Employee.java:80-83 | appended and linked to the employee |
| Entities.Employee.RemoveEducation | employee-management-backend-final/src/main/java/com/example/employeemanagement/model/Employee.java:85-88 | first occurrence removed and unlinked |
| Entities.Employee.AddCertification | employee-management-backend-final/src/main/java/com/example/employeemanagement/model/Employee.java:90-93 | appended and linked |
| Entities.Employee.RemoveCertification | employee-management-backend-final/src/main/java/com/example/employeemanagement/model/Employee.java:95-98 | first occurrence removed and unlinked |
| Entities.Employee.AddSkill | employee-management-backend-final/src/main/java/com/example/employeemanagement/model/Employee.java:100-103 | appended and linked |
| Entities.Employee.RemoveSkill | employee-management-backend-final/src/main/java/com/example/employeemanagement/model/Employee.java:105-108 | first occurrence removed and unlinked |
| Entities.Employee.SetProfilePhoto | employee-management-backend-final/src/main/java/com/example/employeemanagement/model/Employee.java:110-119 | the photo is set and linked back; clearing it unlinks the old photo |
| Entities.Employee.AddDocument | employee-management-backend-final/src/main/java/com/example/employeemanagement/model/Employee.java:122-125 | appended and linked |
| Entities.Employee.RemoveDocument | employee-management-backend-final/src/main/java/com/example/employeemanagement/model/Employee.java:127-130 | first occurrence removed and unlinked |
| Entities.Employee.SetDocuments | employee-management-backend-final/src/main/java/com/example/employeemanagement/model/Employee.java:132-141 | with no list yet the given list is taken as is; otherwise the list is replaced by the given one (null meaning empty) and each document linked |
| Entities.Employee.AddExperience | employee-management-backend-final/src/main/java/com/example/employeemanagement/model/Employee.java:143-146 | appended and linked |
| Entities.Employee.RemoveExperience | employee-management-backend-final/src/main/java/com/example/employeemanagement/model/Employee.java:148-151 | first occurrence removed and unlinked |
| Entities.Employee.SetExperiences | employee-management-backend-final/src/main/java/com/example/employeemanagement/model/Employee.java:153-163 | the list is replaced by the given one (null meaning empty) and each experience linked |
| Repositories.EmployeeRepository.Insert | employee-management-backend-final/src/main/java/com/example/employeemanagement/service/EmployeeServiceImpl.java:60 | `save` of a new employee adds exactly one row under a new id |
| Repositories.EmployeeRepository.DeleteById | employee-management-backend-final/src/main/java/com/example/employeemanagement/service/EmployeeServiceImpl.java:145 | `deleteById` removes that row; a missing id is a no-op |
| Repositories.ChildRepository.FindByEmployee | employee-management-backend-final/src/main/java/com/example/employeemanagement/repository/EducationRepository.java:11 | exactly the owner's rows, each once |
| Repositories.ChildRepository.Insert | employee-management-backend-final/src/main/java/com/example/employeemanagement/service/EmployeeServiceImpl.java:60 | a new record is stored under a new id |
| Repositories.ChildRepository.PersistNew | employee-management-backend-final/src/main/java/com/example/employeemanagement/model/Employee.java:61-77 | the cascaded persist stores every new record of a list and changes no stored row |
| Repositories.ChildRepository.DeleteAll | employee-management-backend-final/src/main/java/com/example/employeemanagement/service/EmployeeServiceImpl.java:211 | `deleteAll` removes exactly the rows of the given records |
| Repositories.ChildRepository.OfEmployeeId | employee-management-backend-final/src/main/java/com/example/employeemanagement/repository/EducationRepository.java:12 | the rows whose owner has that id |
| Repositories.ChildRepository.DeleteByEmployeeId | employee-management-backend-final/src/main/java/com/example/employeemanagement/repository/EducationRepository.java:12 | removes exactly the rows whose owner has that id |
| Repositories.ChildRepository.DeleteByEmployee | employee-management-backend-final/src/main/java/com/example/employeemanagement/model/Employee.java:76-77 | the cascade removes exactly the owner's rows |
| Repositories.DocumentRepository.OfEmployeeId | employee-management-backend-final/src/main/java/com/example/employeemanagement/service/DocumentServiceImpl.java:37 | the documents whose owner has that id |
| Repositories.DocumentRepository.FindByEmployee | employee-management-backend-final/src/main/java/com/example/employeemanagement/service/EmployeeServiceImpl.java:180-181 | exactly the owner's documents, each once |
| Repositories.DocumentRepository.Insert | employee-management-backend-final/src/main/java/com/example/employeemanagement/service/DocumentServiceImpl.java:62 | a new document is stored under the next id and nothing else changes; a null version becomes 0, as the persistence layer seeds a version column, and a set version is kept |
| Repositories.DocumentRepository.PersistNew | employee-management-backend-final/src/main/java/com/example/employeemanagement/model/Employee.java:73-74 | the cascaded persist stores every new document, seeding a null version to 0, and changes no stored row |
| Repositories.DocumentRepository.DeleteAllById | employee-management-backend-final/src/main/java/com/example/employeemanagement/service/EmployeeServiceImpl.java:89-91 | `findAllById` then `deleteAll`: removes the listed ids, skipping those with no row |
| Repositories.DocumentRepository.Delete | employee-management-backend-final/src/main/java/com/example/employeemanagement/service/DocumentServiceImpl.java:86 | removes exactly that row |
| Repositories.DocumentRepository.DeleteByEmployeeId | employee-management-backend-final/src/main/java/com/example/employeemanagement/service/EmployeeServiceImpl.java:144 | removes exactly the documents whose owner has that id |
| Repositories.ProfilePhotoRepository.OfEmployeeId | employee-management-backend-final/src/main/java/com/example/employeemanagement/repository/ProfilePhotoRepository.java:17 | the photos whose employee has that id |
| Repositories.ProfilePhotoRepository.DeleteByEmployee | employee-management-backend-final/src/main/java/com/example/employeemanagement/model/Employee.java:70-71 | the cascade removes exactly the owner's photo |
| Repositories.ProfilePhotoRepository.Insert | employee-management-backend-final/src/main/java/com/example/employeemanagement/service/ProfilePhotoService.java:52 | a new photo is stored under a new id |
| Repositories.ProfilePhotoRepository.Delete | employee-management-backend-final/src/main/java/com/example/employeemanagement/service/EmployeeServiceImpl.java:97 | removes exactly that row |
| Repositories.ProfilePhotoRepository.Replace | employee-management-backend-final/src/main/java/com/example/employeemanagement/service/ProfilePhotoService.java:37-52 | the employee's old photo is removed and the new one stored, so the employee has exactly one photo |
| Repositories.ProfilePhotoRepository.DeleteByEmployeeId | employee-management-backend-final/src/main/java/com/example/employeemanagement/repository/ProfilePhotoRepository.java:20-22 | removes exactly the photos whose employee has that id |
| Repositories.LeaveRepository.Insert | employee-management-backend-final/src/main/java/com/example/employeemanagement/service/LeaveServiceImpl.java:50 | a new leave is stored under a new id and the queries see exactly one more row |
| Repositories.TeamRepository.Delete | employee-management-backend-final/src/main/java/com/example/employeemanagement/service/TeamServiceImpl.java:144 | `delete(team)` removes exactly that row |
| Repositories.TeamRepository.DeleteOfProject | employee-management-backend-final/src/main/java/com/example/employeemanagement/model/Project.java:26 | the cascade from a deleted project removes exactly its teams' rows |
| Repositories.EmployeeRepository.MembersOf | employee-management-backend-final/src/main/java/com/example/employeemanagement/model/Team.java:33-35 | the loaded members collection: exactly the employees whose team column names the team, as many as there are |
| Repositories.TeamRepository.Insert | employee-management-backend-final/src/main/java/com/example/employeemanagement/service/TeamServiceImpl.java:75 | a new team is stored and joins its project's teams |
| Repositories.ProjectRepository.Insert | employee-management-backend-final/src/main/java/com/example/employeemanagement/service/ProjectServiceImpl.java:52 | a new project is stored under a new id |
| Repositories.ProjectRepository.Delete | employee-management-backend-final/src/main/java/com/example/employeemanagement/service/ProjectServiceImpl.java:96 | removes exactly that row |
| Common.Overlay | employee-management-backend-final/src/main/java/com/example/employeemanagement/config/ModelMapperConfig.java:20-23 | skip-null: a non-null incoming value wins, a null one keeps the current |
| Common.RemoveFirst | employee-management-backend-final/src/main/java/com/example/employeemanagement/model/Team.java:47 | `List.remove(Object)`: the first occurrence is removed and nothing else |
| Text.IndexOf | employee-management-backend-final/src/main/java/com/example/employeemanagement/service/EmployeeServiceImpl.java:442 | `indexOf`: the first position of the character, or -1 exactly when it is absent |
| Text.AfterFirst | employee-management-backend-final/src/main/java/com/example/employeemanagement/service/EmployeeServiceImpl.java:442 | `substring(indexOf('\|') + 1)`: what follows the first `\|` |
| Text.AfterFirstOfPrefixed | employee-management-backend-final/src/main/java/com/example/employeemanagement/service/SecurityService.java:59 | `auth0\|` followed by q gives q |
| Text.NatText | employee-management-backend-final/src/main/java/com/example/employeemanagement/service/EmployeeServiceImpl.java:67 | the decimal text of an id as it appears in messages: digits only, no leading zero, and its value is the id |

## Left out

- `updateExperiences` (service/EmployeeServiceImpl.java:291-319) and `updateProfilePhoto` (service/EmployeeServiceImpl.java:123-137) are not modelled, because no code path calls them.
- `@Transactional` rollback is modelled as "a failing operation changes nothing". The source writes before some checks, and rollback undoes those writes: `updateEmployee` deletes documents and the photo before the uniqueness check, `uploadProfilePhoto` deletes the old photo before the empty-file check, and `updateTeam`/`updateProject` set the name before the manager checks. The model validates first and writes afterwards, which leaves the same committed state.
- `@Version` optimistic locking is not modelled. The version is a plain column, copied from the incoming item or reset to 0. A document saved with no version gets 0, as the persistence layer seeds it. A stale version, which would fail at flush time, cannot be expressed.
- Other JPA mechanics are not modelled: flushing, foreign-key constraints, `Hibernate.initialize` and `@PrePersist` validation. Cascades are modelled one level deep: deleting an employee removes their photo and experiences, and deleting a project removes its teams. The cascades and orphan removal on a team's `members` are not modelled (see DeleteTeam, DeleteProject and RemoveTeamMember below). A team's members are the employees whose team column names it (`Repositories.EmployeeRepository.OfTeam`); the lazy load of that collection is `Repositories.EmployeeRepository.MembersOf`.
- NOT NULL columns (`nullable = false`) are not enforced. The source fails the insert or update with a constraint violation and rolls back where the model reports success. The columns are `Team.name`, `Project.name`, `Leave.leaveType` and `Leave.reason`, `Document.data`, and the scalar columns of educations, certifications, skills and experiences (for example `Experience.level` and `jobRole`), which the model keeps in a `map<string, string>` where an absent column is allowed. The members with a direct consequence are listed below.
- TeamService.TeamService.CreateTeam: a null name is stored as success; the source's insert fails on the NOT NULL `name` column (model/Team.java:19).
- TeamService.TeamService.UpdateTeam: a null name overwrites as success; the source's update fails on the NOT NULL `name` column.
- ProjectService.ProjectService.CreateProject: a null name is stored as success; the source's insert fails on the NOT NULL `name` column (model/Project.java:19).
- ProjectService.ProjectService.UpdateProject: a null name overwrites as success; the source's update fails on the NOT NULL `name` column.
- TeamService.TeamService.RemoveTeamMember: orphan removal on `Team.members` (model/Team.java:34) is not modelled. In the source, removing a listed member from the loaded collection deletes that employee's row at flush, with the employee's own cascades, or fails on the foreign keys of their documents or leaves. The model keeps the employee and clears only their team column.
- TeamService.TeamService.DeleteTeam: the cascade from the deleted team to its member employees (model/Team.java:34) is not modelled; the employees keep a team column naming the deleted team.
- ProjectService.ProjectService.DeleteProject: the project's teams are removed, but the further cascade from those teams to their member employees is not modelled.
- Repositories.ProjectRepository.Delete: removes only the project's row; `ProjectService.ProjectService.DeleteProject` removes the teams before calling it.
- LeaveService.LeaveService.ApplyLeave: the request's `leaveId` is not modelled. ModelMapper copies it onto the new entity (service/LeaveServiceImpl.java:44), and `save` then merges over the stored leave with that id, or, depending on the Hibernate version, inserts or fails when there is none. The model always inserts a new row under a fresh id. Null `leaveType` or `reason` are stored as success, although both columns are NOT NULL.
- LeaveService.LeaveService.SaveNewLeave: as above, it always inserts; the merge under a request's `leaveId` is not modelled.
- Entities.Leave.FromRequest: the new leave has no id; the request's `leaveId`, which ModelMapper would copy, is not modelled.
- LeaveRules.ValidateLeaveRequest: the request's dates are non-null day numbers. A null start or end date, which throws a NullPointerException at service/LeaveServiceImpl.java:55, cannot be expressed.
- EmployeeService.EmployeeService.SaveEmployee: three effects of `convertToNewEntity` are not modelled. (1) `modelMapper.map` (service/EmployeeServiceImpl.java:322) already maps the incoming experiences, because the mapper skips only education, certifications, skills, project and team (config/ModelMapperConfig.java:45-52). The loop at service/EmployeeServiceImpl.java:358-366 then adds each one again, so the source stores 2N experiences, or fails to persist a mapped item that carries an id. The model stores N. (2) A mapped `employeeId` makes `save` merge over that stored employee; the model always inserts. (3) The NOT NULL failures above.
- EmployeeService.EmployeeService.NewEmployee: the experiences and `employeeId` that `modelMapper.map` copies are not modelled; the new employee has no id and no experiences until they are attached.
- EmployeeService.EmployeeService.BuildEmployee: stores each incoming experience once; the source holds the N mapped copies as well (see SaveEmployee).
- EmployeeService.EmployeeService.CreateEmployee: stores N experiences where the source stores 2N (see SaveEmployee).
- EmployeeService.EmployeeService.AttachAll: the experience list holds one new record per incoming item, without the mapped copies (see SaveEmployee).
- EmployeeService.AttachHistory: the experience list holds one new record per incoming item, without the mapped copies (see SaveEmployee).
- EmployeeService.AttachLater: as AttachHistory.
- EmployeeService.BuildDocuments: a null `data` becomes an empty payload; the source's insert fails on the NOT NULL `data` column.
- ModelMapper is modelled only as its skip-null merge: every non-null incoming scalar overwrites. STRICT matching, deep mapping, and the mapping of incoming document, experience and photo lists on update are not modelled. The scalar columns of the four child kinds are abstracted as a `map<string, string>`, and merging is map override.
- EmployeeService.EmployeeService.UpdateEmployee: the incoming photo, documents and experiences mapped onto the employee by ModelMapper are not modelled. Only the photo keep/remove decision (`EmployeeRules.PhotoDecision`) and the metadata-only document update are.
- EmployeeService.ReplaceRecords: that the rows of other employees keep their columns, version and owner is stated by ReconcileKind and not carried further up.
- EmployeeService.EmployeeService.ReconcileRecords: that a matched record is the very object that was stored, and any other a new object, is stated up to ReconcileTables. From here up to UpdateEmployee, the contracts speak of ids and field values (QualificationsApplied, QualificationsMerged), not of object identity.
- Null elements inside `documentsToDelete` are not modelled. The list is a `seq<nat>`, and a null list is an empty one.
- Repositories.EmployeeRepository.DeleteById: a `deleteById` on a missing id is modelled as doing nothing. Older Spring Data versions throw there instead.
- EmployeeService.EmployeeService.DeleteRow: as above, a missing id is modelled as a no-op.
- Payloads are byte sequences. `MultipartFile`, `IOException` wrapping and `StringUtils.cleanPath` are not modelled; the original file name is stored as given.
- `DocumentController.UploadDocument`: the upload route of the employee controller (controller/EmployeeController.java:148-154) delegates to the document service without the empty, size and type checks. That route is not modelled separately, because it adds nothing to the service call.
- `LocalDate.now()` is the parameter `today`. Logging, response headers and HTTP status mapping (`GlobalExceptionHandler`) are left out.
- `convertToDTO` and the read-only listings are not modelled, because they only copy entities into DTOs or return a repository listing unchanged. They are `getAllEmployees` in the service, `getEmployeeById` with its photo attach, `getAllTeams`, `getTeamById`, `getTeamMembers`, `getAllProjects`, `getProjectById` and `getLeaveById` beyond its not-found case. The project DTO's `teamsCount` is modelled (`ProjectService.ProjectService.TeamsCount`).
- The controllers that only delegate (team, project, profile photo, auth) are not modelled. The employee controller's `saveEmployee` nulls the incoming photo, and `EmployeeService.EmployeeService.SaveEmployee` already ignores that photo.
- PDF rendering is not modelled: iText layout, fonts, images and floating-point sizes. Only `formatAddress` is.
- Framework configuration is not modelled: the security filter chain, CORS, JWT decoding and JWKS. The role-to-authority conversion is kept (`Security.PreAuthorize`).
- repository/DocumentRepository.java is not part of this model. Its derived queries (`findByEmployeeEmployeeId`, `deleteByEmployeeEmployeeId`) are modelled from their names at the call sites.
