/** ProjectServiceImpl: projects with one role-gated slot, the senior project
    manager, and the count of their teams. */
module ProjectService {
  import opened Common
  import opened Text
  import opened Entities
  import opened Dtos
  import opened AssignmentRules
  import opened Repositories

  class ProjectService {
    const projects: ProjectRepository
    const employees: EmployeeRepository
    const teams: TeamRepository

    ghost predicate Valid()
      reads this, projects, projects.rows.Values`id, employees, employees.rows.Values`id, teams, teams.rows.Values`id
    {
      projects.Valid() && employees.Valid() && teams.Valid()
    }

    constructor (projects: ProjectRepository, employees: EmployeeRepository, teams: TeamRepository)
      requires projects.Valid() && employees.Valid() && teams.Valid()
      ensures Valid() && this.projects == projects && this.employees == employees && this.teams == teams
    {
      this.projects, this.employees, this.teams := projects, employees, teams;
    }

    /** `new Project()` with its name and senior project manager set. */
    static method NewProject(name: Option<string>, manager: Employee?) returns (project: Project)
      ensures fresh(project) && project.id == None && project.name == name && project.seniorProjectManager == manager
    {
      project := new Project();
      project.name := name;
      project.seniorProjectManager := manager;
    }

    /** createProject: a named senior project manager must exist and hold that role. */
    method CreateProject(dto: ProjectDto) returns (r: Result<nat>)
      requires Valid()
      modifies projects
      ensures Valid()
      ensures var missing := if dto.seniorProjectManagerId.Some? then CreateProjectMissing(dto.seniorProjectManagerId.value) else "";
              var check := CheckSeniorManager(old(employees.Roles()), dto.seniorProjectManagerId, missing);
              (check.Err? ==> r == Err(check.error) && projects.rows == old(projects.rows)) &&
              (check.Ok? ==> r.Ok? && r.value !in old(projects.rows) && r.value in projects.rows &&
                             projects.rows == old(projects.rows)[r.value := projects.rows[r.value]] &&
                             fresh(projects.rows[r.value]))
      ensures r.Ok? ==>
                var p := projects.rows[r.value];
                p.name == dto.name &&
                p.seniorProjectManager == (if dto.seniorProjectManagerId.Some? then employees.rows[dto.seniorProjectManagerId.value] else null)
    {
      var missing := if dto.seniorProjectManagerId.Some? then CreateProjectMissing(dto.seniorProjectManagerId.value) else "";
      var check := CheckSeniorManager(employees.Roles(), dto.seniorProjectManagerId, missing);
      if check.Err? {
        return Err(check.error);
      }
      var project := NewProject(dto.name, if dto.seniorProjectManagerId.Some? then employees.rows[dto.seniorProjectManagerId.value] else null);
      var id := projects.Insert(project);
      assert projects.rows[id] == project;
      r := Ok(id);
    }

    /** updateProject: the name is overwritten and a null manager id clears the slot. */
    method UpdateProject(id: nat, dto: ProjectDto) returns (r: Result<nat>)
      requires Valid()
      modifies if id in projects.rows then {projects.rows[id]} else {}
      ensures Valid()
      ensures id !in projects.rows ==> r == Err(NotFound("Project not found"))
      ensures id in projects.rows ==>
                var check := CheckSeniorManager(old(employees.Roles()), dto.seniorProjectManagerId, "Employee not found");
                (check.Err? ==> r == Err(check.error) && unchanged(projects.rows[id])) &&
                (check.Ok? ==> r == Ok(id) && projects.rows[id].name == dto.name && projects.rows[id].id == Some(id) &&
                               projects.rows[id].seniorProjectManager ==
                                 (if dto.seniorProjectManagerId.Some? then employees.rows[dto.seniorProjectManagerId.value] else null))
    {
      if id !in projects.rows {
        return Err(NotFound("Project not found"));
      }
      var check := CheckSeniorManager(employees.Roles(), dto.seniorProjectManagerId, "Employee not found");
      if check.Err? {
        return Err(check.error);
      }
      var project := projects.rows[id];
      project.name := dto.name;
      project.seniorProjectManager := if dto.seniorProjectManagerId.Some? then employees.rows[dto.seniorProjectManagerId.value] else null;
      r := Ok(id);
    }

    /** deleteProject: a missing id is "Project not found"; otherwise the
        project's row goes, and with it, by cascade, the rows of its teams. */
    method DeleteProject(id: nat) returns (r: Result<()>)
      requires Valid()
      modifies projects`rows, teams`rows
      ensures Valid()
      ensures id !in old(projects.rows) ==>
                r == Err(NotFound("Project not found")) && projects.rows == old(projects.rows) && teams.rows == old(teams.rows)
      ensures id in old(projects.rows) ==>
                r == Ok(()) && projects.rows == old(projects.rows) - {id} &&
                teams.rows == old(teams.rows) - old(teams.OfProject(projects.rows[id])) &&
                forall k :: k in teams.rows ==> teams.rows[k].project != old(projects.rows[id])
    {
      if id !in projects.rows {
        return Err(NotFound("Project not found"));
      }
      teams.DeleteOfProject(projects.rows[id]);
      projects.Delete(id);
      r := Ok(());
    }

    /** assignSeniorProjectManager */
    method AssignSeniorProjectManager(projectId: nat, employeeId: nat) returns (r: Result<()>)
      requires Valid()
      modifies (if projectId in projects.rows then {projects.rows[projectId]} else {})`seniorProjectManager
      ensures Valid()
      ensures projectId !in projects.rows ==> r == Err(NotFound("Project not found"))
      ensures projectId in projects.rows ==>
                var check := CheckSlot(old(employees.Roles()), employeeId, SENIOR_PROJECT_MANAGER, "Employee not found",
                                       "Employee must be a Senior Project Manager");
                (check.Err? ==> r == Err(check.error) && unchanged(projects.rows[projectId])) &&
                (check.Ok? ==> r == Ok(()) && projects.rows[projectId].seniorProjectManager == employees.rows[employeeId])
    {
      if projectId !in projects.rows {
        return Err(NotFound("Project not found"));
      }
      var check := CheckSlot(employees.Roles(), employeeId, SENIOR_PROJECT_MANAGER, "Employee not found",
                             "Employee must be a Senior Project Manager");
      if check.Err? {
        return Err(check.error);
      }
      projects.rows[projectId].seniorProjectManager := employees.rows[employeeId];
      r := Ok(());
    }

    /** The teamsCount of getProjectById's result: how many stored teams belong
        to the project. */
    function TeamsCount(projectId: nat): (r: Result<nat>)
      reads this, projects, teams, teams.rows.Values`project
      ensures r.Err? <==> projectId !in projects.rows
      ensures r.Err? ==> r.error == NotFound("Project not found")
      ensures r.Ok? ==> r.value == |teams.OfProject(projects.rows[projectId])| &&
                        (r.value == 0 <==> forall k :: k in teams.rows ==> teams.rows[k].project != projects.rows[projectId])
    {
      if projectId !in projects.rows then Err(NotFound("Project not found"))
      else
        var owned := teams.OfProject(projects.rows[projectId]);
        if owned == {} then
          assert forall k :: k in teams.rows && teams.rows[k].project == projects.rows[projectId] ==> k in owned;
          Ok(0)
        else
          var k :| k in owned;
          assert teams.rows[k].project == projects.rows[projectId];
          Ok(|owned|)
    }
  }
}
