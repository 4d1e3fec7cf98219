/** The checks TeamServiceImpl and ProjectServiceImpl make before they fill a
    slot: the employee must exist and hold exactly the slot's role. */
module AssignmentRules {
  import opened Common
  import opened Text
  import opened Entities
  import opened Dtos

  /** findById(id).orElseThrow followed by the role test of one slot. */
  function CheckSlot(roles: map<nat, Role>, id: nat, required: Role, missing: string, wrongRole: string): (r: Result<nat>)
    ensures r.Ok? <==> id in roles && roles[id] == required
    ensures r.Ok? ==> r.value == id
    ensures id !in roles ==> r == Err(NotFound(missing))
    ensures id in roles && roles[id] != required ==> r == Err(IllegalArgument(wrongRole))
  {
    if id !in roles then Err(NotFound(missing))
    else if roles[id] != required then Err(IllegalArgument(wrongRole))
    else Ok(id)
  }

  /** A slot takes no other role, not even ADMIN. */
  lemma SlotTakesOnlyItsRole(roles: map<nat, Role>, id: nat, required: Role, other: Role, missing: string, wrongRole: string)
    requires id in roles && roles[id] == other && other != required
    ensures CheckSlot(roles, id, required, missing, wrongRole) == Err(IllegalArgument(wrongRole))
  {
  }

  /** An optional manager slot: a null id leaves the slot empty. */
  function CheckOptionalSlot(roles: map<nat, Role>, id: Option<nat>, required: Role, missing: string, wrongRole: string)
    : (r: Result<Option<nat>>)
    ensures id.None? ==> r == Ok(None)
    ensures id.Some? ==> (r.Ok? <==> CheckSlot(roles, id.value, required, missing, wrongRole).Ok?)
    ensures id.Some? && r.Ok? ==> r.value == id
    ensures id.Some? && r.Err? ==> r.error == CheckSlot(roles, id.value, required, missing, wrongRole).error
  {
    if id.None? then Ok(None)
    else
      var c := CheckSlot(roles, id.value, required, missing, wrongRole);
      if c.Err? then Err(c.error) else Ok(id)
  }

  /** A slot named by a possibly null id can be filled: no id, or an existing
      employee with the slot's role. */
  predicate Holds(roles: map<nat, Role>, id: Option<nat>, required: Role)
  {
    id.None? || (id.value in roles && roles[id.value] == required)
  }

  datatype TeamSlots = TeamSlots(project: nat, projectManager: Option<nat>, teamManager: Option<nat>)

  /** The lookups of createTeam and updateTeam, in their order: the project, then
      the project manager if one is named, then the team manager if one is named. */
  function ValidateTeam(projects: set<nat>, roles: map<nat, Role>, dto: TeamDto): (r: Result<TeamSlots>)
    ensures r.Ok? <==> dto.projectId.Some? && dto.projectId.value in projects &&
                       Holds(roles, dto.projectManagerId, PROJECT_MANAGER) && Holds(roles, dto.teamManagerId, TEAM_MANAGER)
    ensures r.Ok? ==> r.value == TeamSlots(dto.projectId.value, dto.projectManagerId, dto.teamManagerId)
    ensures dto.projectId.None? ==> r == Err(IllegalArgument(NullIdMessage))
    ensures dto.projectId.Some? && dto.projectId.value !in projects ==> r == Err(NotFound("Project not found"))
    ensures dto.projectId.Some? && dto.projectId.value in projects && dto.projectManagerId.Some? ==>
              (dto.projectManagerId.value !in roles ==> r == Err(NotFound("Project Manager not found")))
    ensures dto.projectId.Some? && dto.projectId.value in projects && dto.projectManagerId.Some? &&
            dto.projectManagerId.value in roles && roles[dto.projectManagerId.value] != PROJECT_MANAGER ==>
              r == Err(IllegalArgument("Employee must be a Project Manager"))
    ensures r.Err? && dto.projectId.Some? && dto.projectId.value in projects &&
            Holds(roles, dto.projectManagerId, PROJECT_MANAGER) ==>
              r.error in {NotFound("Team Manager not found"), IllegalArgument("Employee must be a Team Manager")}
    ensures dto.projectId.Some? && dto.projectId.value in projects &&
            Holds(roles, dto.projectManagerId, PROJECT_MANAGER) && dto.teamManagerId.Some? ==>
              (dto.teamManagerId.value !in roles ==> r == Err(NotFound("Team Manager not found"))) &&
              (dto.teamManagerId.value in roles && roles[dto.teamManagerId.value] != TEAM_MANAGER ==>
                 r == Err(IllegalArgument("Employee must be a Team Manager")))
  {
    if dto.projectId.None? then Err(IllegalArgument(NullIdMessage))
    else if dto.projectId.value !in projects then Err(NotFound("Project not found"))
    else
      var pm := CheckOptionalSlot(roles, dto.projectManagerId, PROJECT_MANAGER,
                                  "Project Manager not found", "Employee must be a Project Manager");
      if pm.Err? then Err(pm.error)
      else
        var tm := CheckOptionalSlot(roles, dto.teamManagerId, TEAM_MANAGER,
                                    "Team Manager not found", "Employee must be a Team Manager");
        if tm.Err? then Err(tm.error)
        else Ok(TeamSlots(dto.projectId.value, dto.projectManagerId, dto.teamManagerId))
  }

  /** addTeamMember's checks on a found team of `size` members: the role comes
      before the capacity. A missing team or employee is None. */
  function AddMemberCheck(size: Option<nat>, role: Option<Role>): (r: Result<()>)
    ensures r.Ok? <==> size.Some? && role == Some(MEMBER) && size.value < MaxTeamMembers
    ensures size.None? ==> r == Err(NotFound("Team not found"))
    ensures size.Some? && role.None? ==> r == Err(NotFound("Employee not found"))
    ensures size.Some? && role.Some? && role.value != MEMBER ==> r == Err(IllegalArgument("Employee must be a Member"))
    ensures size.Some? && role == Some(MEMBER) && size.value >= MaxTeamMembers ==>
              r == Err(IllegalState("A team can have at most 6 members"))
  {
    if size.None? then Err(NotFound("Team not found"))
    else if role.None? then Err(NotFound("Employee not found"))
    else if role.value != MEMBER then Err(IllegalArgument("Employee must be a Member"))
    else if size.value >= MaxTeamMembers then Err(IllegalState("A team can have at most 6 members"))
    else Ok(())
  }

  /** On a full team a manager is refused for the role, not for the capacity. */
  lemma RoleCheckedBeforeCapacity(size: nat, role: Role)
    requires size >= MaxTeamMembers && role != MEMBER
    ensures AddMemberCheck(Some(size), Some(role)) == Err(IllegalArgument("Employee must be a Member"))
  {
  }

  /** The senior project manager of createProject and updateProject: a named
      employee must exist and be a SENIOR_PROJECT_MANAGER; the two methods word
      the missing case differently. */
  function CheckSeniorManager(roles: map<nat, Role>, id: Option<nat>, missing: string): (r: Result<Option<nat>>)
    ensures r.Ok? <==> Holds(roles, id, SENIOR_PROJECT_MANAGER)
    ensures r.Ok? ==> r.value == id
    ensures id.Some? && id.value !in roles ==> r == Err(NotFound(missing))
    ensures id.Some? && id.value in roles && roles[id.value] != SENIOR_PROJECT_MANAGER ==>
              r == Err(IllegalArgument("Employee must be a Senior Project Manager"))
  {
    CheckOptionalSlot(roles, id, SENIOR_PROJECT_MANAGER, missing, "Employee must be a Senior Project Manager")
  }

  /** createProject names the id it did not find. */
  function CreateProjectMissing(id: nat): string
  {
    "Senior Project Manager not found with id: " + NatText(id)
  }
}
