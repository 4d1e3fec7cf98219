/** TeamServiceImpl: teams with a project, two role-gated manager slots and at
    most six members. */
module TeamService {
  import opened Common
  import opened Entities
  import opened Dtos
  import opened AssignmentRules
  import opened Repositories

  class TeamService {
    const teams: TeamRepository
    const projects: ProjectRepository
    const employees: EmployeeRepository

    ghost predicate Valid()
      reads this, teams, teams.rows.Values`id
      reads projects, projects.rows.Values`id, employees, employees.rows.Values`id, employees.rows.Values`team
    {
      teams.Valid() && projects.Valid() && employees.Valid() && MembersBounded()
    }

    /** No stored team has more than MaxTeamMembers members. A team's members
        are the employees whose team column names it. */
    ghost predicate MembersBounded()
      reads this, teams, employees, employees.rows.Values`team
    {
      forall k :: k in teams.rows ==> |employees.OfTeam(teams.rows[k])| <= MaxTeamMembers
    }

    constructor (teams: TeamRepository, projects: ProjectRepository, employees: EmployeeRepository)
      requires teams.Valid() && projects.Valid() && employees.Valid() && teams.rows == map[]
      ensures Valid()
      ensures this.teams == teams && this.projects == projects && this.employees == employees
    {
      this.teams, this.projects, this.employees := teams, projects, employees;
    }

    /** `new Team()` with its name, project and managers set. */
    static method NewTeam(name: Option<string>, project: Project, projectManager: Employee?, teamManager: Employee?)
        returns (team: Team)
      ensures fresh(team) && team.id == None && team.name == name && team.project == project
      ensures team.projectManager == projectManager && team.teamManager == teamManager && team.members == []
    {
      team := new Team();
      team.name := name;
      team.project := project;
      team.projectManager := projectManager;
      team.teamManager := teamManager;
    }

    /** createTeam: a new team in an existing project, with the managers the
        request names, each of the slot's exact role. */
    method CreateTeam(dto: TeamDto) returns (r: Result<nat>)
      requires Valid()
      modifies teams
      ensures Valid()
      ensures var check := ValidateTeam(old(projects.rows.Keys), old(employees.Roles()), dto);
              check.Err? ==> r == Err(check.error) && teams.rows == old(teams.rows)
      ensures ValidateTeam(old(projects.rows.Keys), old(employees.Roles()), dto).Ok? ==>
                r.Ok? && r.value !in old(teams.rows) && r.value in teams.rows &&
                teams.rows == old(teams.rows)[r.value := teams.rows[r.value]] && fresh(teams.rows[r.value])
      ensures r.Ok? ==>
                var t := teams.rows[r.value];
                t.name == dto.name && t.project == projects.rows[dto.projectId.value] &&
                t.projectManager == (if dto.projectManagerId.Some? then employees.rows[dto.projectManagerId.value] else null) &&
                t.teamManager == (if dto.teamManagerId.Some? then employees.rows[dto.teamManagerId.value] else null) &&
                t.members == [] &&
                teams.OfProject(t.project) == old(teams.OfProject(projects.rows[dto.projectId.value])) + {r.value}
    {
      var check := ValidateTeam(projects.rows.Keys, employees.Roles(), dto);
      if check.Err? {
        return Err(check.error);
      }
      assert check.value == TeamSlots(dto.projectId.value, dto.projectManagerId, dto.teamManagerId);
      ghost var before := teams.OfProject(projects.rows[check.value.project]);
      var team := NewTeam(dto.name, projects.rows[check.value.project],
                          if check.value.projectManager.Some? then employees.rows[check.value.projectManager.value] else null,
                          if check.value.teamManager.Some? then employees.rows[check.value.teamManager.value] else null);
      assert teams.OfProject(team.project) == before;
      var id := teams.Insert(team);
      assert teams.rows[id] == team;
      r := Ok(id);
    }

    /** updateTeam: name and project are overwritten, and a manager slot whose id
        the request leaves null is cleared. */
    method UpdateTeam(id: nat, dto: TeamDto) returns (r: Result<nat>)
      requires Valid()
      modifies if id in teams.rows then {teams.rows[id]} else {}
      ensures Valid()
      ensures id !in teams.rows ==> r == Err(NotFound("Team not found"))
      ensures id in teams.rows && ValidateTeam(old(projects.rows.Keys), old(employees.Roles()), dto).Err? ==>
                r == Err(ValidateTeam(old(projects.rows.Keys), old(employees.Roles()), dto).error) &&
                unchanged(teams.rows[id])
      ensures id in teams.rows && ValidateTeam(old(projects.rows.Keys), old(employees.Roles()), dto).Ok? ==>
                var t := teams.rows[id];
                r == Ok(id) && t.name == dto.name && t.project == projects.rows[dto.projectId.value] &&
                t.projectManager == (if dto.projectManagerId.Some? then employees.rows[dto.projectManagerId.value] else null) &&
                t.teamManager == (if dto.teamManagerId.Some? then employees.rows[dto.teamManagerId.value] else null) &&
                t.members == old(t.members) && t.id == old(t.id)
    {
      if id !in teams.rows {
        return Err(NotFound("Team not found"));
      }
      var team := teams.rows[id];
      var check := ValidateTeam(projects.rows.Keys, employees.Roles(), dto);
      if check.Err? {
        return Err(check.error);
      }
      team.SetDetails(dto.name, projects.rows[check.value.project],
                      if check.value.projectManager.Some? then employees.rows[check.value.projectManager.value] else null,
                      if check.value.teamManager.Some? then employees.rows[check.value.teamManager.value] else null);
      r := Ok(id);
    }

    /** assignProjectManager */
    method AssignProjectManager(teamId: nat, employeeId: nat) returns (r: Result<()>)
      requires Valid()
      modifies (if teamId in teams.rows then {teams.rows[teamId]} else {})`projectManager
      ensures Valid()
      ensures teamId !in teams.rows ==> r == Err(NotFound("Team not found"))
      ensures teamId in teams.rows ==>
                var check := CheckSlot(old(employees.Roles()), employeeId, PROJECT_MANAGER, "Employee not found",
                                       "Employee must be a Project Manager");
                (check.Err? ==> r == Err(check.error) && unchanged(teams.rows[teamId])) &&
                (check.Ok? ==> r == Ok(()) && teams.rows[teamId].projectManager == employees.rows[employeeId])
    {
      if teamId !in teams.rows {
        return Err(NotFound("Team not found"));
      }
      var check := CheckSlot(employees.Roles(), employeeId, PROJECT_MANAGER, "Employee not found",
                             "Employee must be a Project Manager");
      if check.Err? {
        return Err(check.error);
      }
      teams.rows[teamId].projectManager := employees.rows[employeeId];
      r := Ok(());
    }

    /** assignTeamManager */
    method AssignTeamManager(teamId: nat, employeeId: nat) returns (r: Result<()>)
      requires Valid()
      modifies (if teamId in teams.rows then {teams.rows[teamId]} else {})`teamManager
      ensures Valid()
      ensures teamId !in teams.rows ==> r == Err(NotFound("Team not found"))
      ensures teamId in teams.rows ==>
                var check := CheckSlot(old(employees.Roles()), employeeId, TEAM_MANAGER, "Employee not found",
                                       "Employee must be a Team Manager");
                (check.Err? ==> r == Err(check.error) && unchanged(teams.rows[teamId])) &&
                (check.Ok? ==> r == Ok(()) && teams.rows[teamId].teamManager == employees.rows[employeeId])
    {
      if teamId !in teams.rows {
        return Err(NotFound("Team not found"));
      }
      var check := CheckSlot(employees.Roles(), employeeId, TEAM_MANAGER, "Employee not found",
                             "Employee must be a Team Manager");
      if check.Err? {
        return Err(check.error);
      }
      teams.rows[teamId].teamManager := employees.rows[employeeId];
      r := Ok(());
    }

    /** addTeamMember: only a MEMBER joins, and only a team below the cap. The
        team's members are loaded from the employees' team column and the new
        member appended in memory; what is stored is the employee's column,
        which moves the employee out of the members of any other team. */
    method AddTeamMember(teamId: nat, employeeId: nat) returns (r: Result<()>)
      requires Valid()
      modifies (if teamId in teams.rows then {teams.rows[teamId]} else {})`members
      modifies (if teamId in teams.rows && employeeId in employees.rows then {employees.rows[employeeId]} else {})`team
      ensures Valid()
      ensures r == AddMemberCheck(if teamId in teams.rows then Some(|old(employees.OfTeam(teams.rows[teamId]))|) else None,
                                  if employeeId in employees.rows then Some(old(employees.rows[employeeId].role)) else None)
      ensures r.Err? ==> forall k :: k in teams.rows ==> employees.OfTeam(teams.rows[k]) == old(employees.OfTeam(teams.rows[k]))
      ensures r.Ok? ==>
                employees.rows[employeeId].team == teams.rows[teamId] &&
                employees.OfTeam(teams.rows[teamId]) == old(employees.OfTeam(teams.rows[teamId])) + {employeeId} &&
                forall k :: k in teams.rows && k != teamId ==>
                  employees.OfTeam(teams.rows[k]) == old(employees.OfTeam(teams.rows[k])) - {employeeId}
    {
      var size := None;
      if teamId in teams.rows {
        LoadMembers(teams.rows[teamId]);
        size := Some(|teams.rows[teamId].members|);
      }
      var role := if employeeId in employees.rows then Some(employees.rows[employeeId].role) else None;
      r := AddMemberCheck(size, role);
      if r.Err? {
        return;
      }
      assert forall k :: k in teams.rows ==> employees.OfTeam(teams.rows[k]) == old(employees.OfTeam(teams.rows[k]));
      Join(teamId, employeeId);
    }

    /** addMember on a team with room: the employee's team column names the team. */
    method Join(teamId: nat, employeeId: nat)
      requires Valid() && employeeId in employees.rows && HasRoom(teamId)
      requires |teams.rows[teamId].members| < MaxTeamMembers
      modifies {teams.rows[teamId]}`members, {employees.rows[employeeId]}`team
      ensures Valid()
      ensures employees.rows[employeeId].team == teams.rows[teamId]
      ensures employees.OfTeam(teams.rows[teamId]) == old(employees.OfTeam(teams.rows[teamId])) + {employeeId}
      ensures forall k :: k in teams.rows && k != teamId ==>
                employees.OfTeam(teams.rows[k]) == old(employees.OfTeam(teams.rows[k])) - {employeeId}
    {
      var team := teams.rows[teamId];
      var added := team.AddMember(employees.rows[employeeId]);
      employees.TeamSizes(employeeId);
      forall k | k in teams.rows ensures |employees.OfTeam(teams.rows[k])| <= MaxTeamMembers {
        assert old(|employees.OfTeam(teams.rows[k])|) <= MaxTeamMembers;
      }
    }

    /** removeTeamMember: the team's members are loaded and the employee removed
        from them; what is stored is the employee's team column, cleared even if
        the employee was in another team or none. */
    method RemoveTeamMember(teamId: nat, employeeId: nat) returns (r: Result<()>)
      requires Valid()
      modifies (if teamId in teams.rows then {teams.rows[teamId]} else {})`members
      modifies (if teamId in teams.rows && employeeId in employees.rows then {employees.rows[employeeId]} else {})`team
      ensures Valid()
      ensures teamId !in teams.rows ==> r == Err(NotFound("Team not found"))
      ensures teamId in teams.rows && employeeId !in employees.rows ==> r == Err(NotFound("Employee not found"))
      ensures r.Err? ==> forall k :: k in teams.rows ==> employees.OfTeam(teams.rows[k]) == old(employees.OfTeam(teams.rows[k]))
      ensures teamId in teams.rows && employeeId in employees.rows ==>
                r == Ok(()) && employees.rows[employeeId].team == null &&
                forall k :: k in teams.rows ==>
                  employees.OfTeam(teams.rows[k]) == old(employees.OfTeam(teams.rows[k])) - {employeeId}
    {
      if teamId !in teams.rows {
        return Err(NotFound("Team not found"));
      }
      if employeeId !in employees.rows {
        return Err(NotFound("Employee not found"));
      }
      Leave(teamId, employeeId);
      r := Ok(());
    }

    /** removeMember on loaded members: the employee's team column is cleared,
        so it leaves the members of every team. */
    method Leave(teamId: nat, employeeId: nat)
      requires Valid() && teamId in teams.rows && employeeId in employees.rows
      modifies {teams.rows[teamId]}`members, {employees.rows[employeeId]}`team
      ensures Valid()
      ensures employees.rows[employeeId].team == null
      ensures forall k :: k in teams.rows ==>
                employees.OfTeam(teams.rows[k]) == old(employees.OfTeam(teams.rows[k])) - {employeeId}
    {
      var team := teams.rows[teamId];
      LoadMembers(team);
      team.RemoveMember(employees.rows[employeeId]);
      employees.TeamSizes(employeeId);
      forall k | k in teams.rows ensures |employees.OfTeam(teams.rows[k])| <= MaxTeamMembers {
        assert old(|employees.OfTeam(teams.rows[k])|) <= MaxTeamMembers;
      }
    }

    /** The lazy load of a team's members: one per employee whose team column
        names the team. */
    method LoadMembers(team: Team)
      requires employees.Valid()
      modifies team`members
      ensures |team.members| == |employees.OfTeam(team)|
      ensures forall i :: 0 <= i < |team.members| ==> team.members[i].team == team
    {
      team.members := employees.MembersOf(team);
    }

    /** The team under `teamId` has fewer than MaxTeamMembers members. */
    ghost predicate HasRoom(teamId: nat)
      reads this, teams, employees, employees.rows.Values`team
    {
      teamId in teams.rows && |employees.OfTeam(teams.rows[teamId])| < MaxTeamMembers
    }

    /** deleteTeam: a missing id is "Team not found"; otherwise the team's row
        is removed. */
    method DeleteTeam(id: nat) returns (r: Result<()>)
      requires Valid()
      modifies teams`rows
      ensures Valid()
      ensures id !in old(teams.rows) ==> r == Err(NotFound("Team not found")) && teams.rows == old(teams.rows)
      ensures id in old(teams.rows) ==> r == Ok(()) && teams.rows == old(teams.rows) - {id}
    {
      if id !in teams.rows {
        return Err(NotFound("Team not found"));
      }
      teams.Delete(id);
      r := Ok(());
    }
  }
}
