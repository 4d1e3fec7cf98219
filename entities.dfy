/** The JPA entities as heap objects. Fields the source updates in place are
    `var`s; the helper methods of Employee, Team and Leave keep both sides of a
    relation in step the way the Java helpers do. */
module Entities {
  import opened Common

  /** java.time.LocalDate, as a day number. */
  type Date = int

  /** The scalar columns of a record, by column name; a null column is absent. */
  type Columns = map<string, string>

  datatype Role = ADMIN | SENIOR_PROJECT_MANAGER | PROJECT_MANAGER | TEAM_MANAGER | MEMBER

  datatype LeaveStatus = PENDING | APPROVED | REJECTED | CANCELLED

  datatype LeaveType = SICK | VACATION | PERSONAL | MATERNITY | PATERNITY | BEREAVEMENT | OTHER

  /** Tags that make Child<K> four distinct entity types, so that a record of one
      table can never be a record of another. */
  datatype EducationTag = EducationTag
  datatype CertificationTag = CertificationTag
  datatype SkillTag = SkillTag
  datatype ExperienceTag = ExperienceTag

  /** Education, Certification, Skill and Experience share one shape: an id, an
      optimistic-lock version, scalar columns and the owning employee. */
  class Child<K> {
    var id: Option<nat>
    var version: Option<int>
    var columns: Columns
    var employee: Employee?

    /** A new record built from a DTO's non-null columns, with its id cleared and
        its version set to 0, and not yet linked to an employee. */
    constructor New(columns: Columns)
      ensures this.id == None && this.version == Some(0) && this.columns == columns
      ensures this.employee == null
    {
      this.id := None;
      this.version := Some(0);
      this.columns := columns;
      this.employee := null;
    }
  }

  /** The non-null ids of some records. */
  function IdsOf<K>(records: seq<Child<K>>): set<nat>
    reads (set c | c in records)`id
  {
    set c | c in records && c.id.Some? :: c.id.value
  }

  type Education = Child<EducationTag>
  type Certification = Child<CertificationTag>
  type Skill = Child<SkillTag>
  type Experience = Child<ExperienceTag>

  class Document {
    var id: Option<nat>
    var fileName: Option<string>
    var fileType: Option<string>
    var fileSize: Option<int>
    var data: seq<bv8>
    var documentType: Option<string>
    var employee: Employee?
    var version: Option<int>

    constructor New(fileName: Option<string>, fileType: Option<string>, fileSize: Option<int>,
                    data: seq<bv8>, documentType: Option<string>)
      ensures this.id == None && this.version == None && this.employee == null
      ensures this.fileName == fileName && this.fileType == fileType && this.fileSize == fileSize
      ensures this.data == data && this.documentType == documentType
    {
      this.id := None;
      this.fileName := fileName;
      this.fileType := fileType;
      this.fileSize := fileSize;
      this.data := data;
      this.documentType := documentType;
      this.employee := null;
      this.version := None;
    }
  }

  class ProfilePhoto {
    var id: Option<nat>
    var fileName: Option<string>
    var fileType: Option<string>
    var fileSize: Option<int>
    var data: seq<bv8>
    var employee: Employee?

    constructor New(fileName: Option<string>, fileType: Option<string>, fileSize: Option<int>, data: seq<bv8>)
      ensures this.id == None && this.employee == null
      ensures this.fileName == fileName && this.fileType == fileType && this.fileSize == fileSize
      ensures this.data == data
    {
      this.id := None;
      this.fileName := fileName;
      this.fileType := fileType;
      this.fileSize := fileSize;
      this.data := data;
      this.employee := null;
    }
  }

  class Employee {
    var id: Option<nat>
    var email: Option<string>
    var personalEmail: Option<string>
    var mobile: Option<string>
    /** The other scalar columns: names, gender, date of birth, father's name and
        the two addresses. */
    var details: Columns
    var role: Role
    var project: Project?
    var team: Team?
    var educationList: seq<Education>
    var certifications: seq<Certification>
    var skills: seq<Skill>
    var profilePhoto: ProfilePhoto?
    /** Null only when set so through setDocuments; the helpers below handle it. */
    var documents: Option<seq<Document>>
    var experiences: Option<seq<Experience>>

    /** `new Employee()`: every list empty, no photo, no team, role MEMBER. */
    constructor ()
      ensures id == None && email == None && personalEmail == None && mobile == None
      ensures details == map[] && role == MEMBER && project == null && team == null
      ensures educationList == [] && certifications == [] && skills == []
      ensures profilePhoto == null && documents == Some([]) && experiences == Some([])
    {
      id := None;
      email, personalEmail, mobile := None, None, None;
      details := map[];
      role := MEMBER;
      project, team := null, null;
      educationList, certifications, skills := [], [], [];
      profilePhoto := null;
      documents, experiences := Some([]), Some([]);
    }

    /** ModelMapper's skip-null copy of an update's columns: each non-null
        value replaces the stored one; the id and the relations stay. */
    method OverlayColumns(email: Option<string>, personalEmail: Option<string>, mobile: Option<string>,
                          details: Columns, role: Option<Role>)
      modifies this`email, this`personalEmail, this`mobile, this`details, this`role
      ensures this.email == (if email.Some? then email else old(this.email))
      ensures this.personalEmail == (if personalEmail.Some? then personalEmail else old(this.personalEmail))
      ensures this.mobile == (if mobile.Some? then mobile else old(this.mobile))
      ensures this.details == old(this.details) + details
      ensures this.role == (if role.Some? then role.value else old(this.role))
    {
      if email.Some? {
        this.email := email;
      }
      if personalEmail.Some? {
        this.personalEmail := personalEmail;
      }
      if mobile.Some? {
        this.mobile := mobile;
      }
      this.details := this.details + details;
      if role.Some? {
        this.role := role.value;
      }
    }

    /** setEducationList, setCertifications and setSkills in one step. */
    method SetQualifications(educationList: seq<Education>, certifications: seq<Certification>, skills: seq<Skill>)
      modifies this`educationList, this`certifications, this`skills
      ensures this.educationList == educationList && this.certifications == certifications && this.skills == skills
    {
      this.educationList, this.certifications, this.skills := educationList, certifications, skills;
    }

    method AddEducation(education: Education)
      modifies this`educationList, education`employee
      ensures educationList == old(educationList) + [education] && education.employee == this
    {
      educationList := educationList + [education];
      education.employee := this;
    }

    method RemoveEducation(education: Education)
      modifies this`educationList, education`employee
      ensures educationList == RemoveFirst(old(educationList), education) && education.employee == null
    {
      educationList := RemoveFirst(educationList, education);
      education.employee := null;
    }

    method AddCertification(certification: Certification)
      modifies this`certifications, certification`employee
      ensures certifications == old(certifications) + [certification] && certification.employee == this
    {
      certifications := certifications + [certification];
      certification.employee := this;
    }

    method RemoveCertification(certification: Certification)
      modifies this`certifications, certification`employee
      ensures certifications == RemoveFirst(old(certifications), certification)
      ensures certification.employee == null
    {
      certifications := RemoveFirst(certifications, certification);
      certification.employee := null;
    }

    method AddSkill(skill: Skill)
      modifies this`skills, skill`employee
      ensures skills == old(skills) + [skill] && skill.employee == this
    {
      skills := skills + [skill];
      skill.employee := this;
    }

    method RemoveSkill(skill: Skill)
      modifies this`skills, skill`employee
      ensures skills == RemoveFirst(old(skills), skill) && skill.employee == null
    {
      skills := RemoveFirst(skills, skill);
      skill.employee := null;
    }

    /** Clearing the photo unlinks the previous one; a new photo is linked to this
        employee, and a photo it replaces keeps its owner. */
    method SetProfilePhoto(photo: ProfilePhoto?)
      modifies this`profilePhoto, {photo, profilePhoto}`employee
      ensures profilePhoto == photo
      ensures photo != null ==> photo.employee == this
      ensures photo == null && old(profilePhoto) != null ==> old(profilePhoto).employee == null
      ensures photo != null && old(profilePhoto) != null && old(profilePhoto) != photo ==>
                old(profilePhoto).employee == old(profilePhoto.employee)
    {
      if photo == null {
        if profilePhoto != null {
          profilePhoto.employee := null;
        }
      } else {
        photo.employee := this;
      }
      profilePhoto := photo;
    }

    method AddDocument(document: Document)
      requires documents.Some?
      modifies this`documents, document`employee
      ensures documents == Some(old(documents).value + [document]) && document.employee == this
    {
      documents := Some(documents.value + [document]);
      document.employee := this;
    }

    method RemoveDocument(document: Document)
      requires documents.Some?
      modifies this`documents, document`employee
      ensures documents == Some(RemoveFirst(old(documents).value, document)) && document.employee == null
    {
      documents := Some(RemoveFirst(documents.value, document));
      document.employee := null;
    }

    /** A null current list adopts the argument as it is; otherwise the list is
        cleared and each given document is added with this employee as owner. */
    method SetDocuments(docs: Option<seq<Document>>)
      modifies this`documents, (if docs.Some? then set d | d in docs.value else {})`employee
      ensures old(documents).None? ==> documents == docs
      ensures old(documents).None? && docs.Some? ==>
                forall d :: d in docs.value ==> d.employee == old(d.employee)
      ensures old(documents).Some? ==> documents == Some(if docs.Some? then docs.value else [])
      ensures old(documents).Some? && docs.Some? ==> forall d :: d in docs.value ==> d.employee == this
    {
      if documents.None? {
        documents := docs;
      } else {
        documents := Some([]);
        if docs.Some? {
          var ds := docs.value;
          for i := 0 to |ds|
            invariant documents == Some(ds[..i])
            invariant forall k :: 0 <= k < i ==> ds[k].employee == this
          {
            AddDocument(ds[i]);
            assert ds[..i + 1] == ds[..i] + [ds[i]];
          }
          assert ds[..|ds|] == ds;
        }
      }
    }

    method AddExperience(experience: Experience)
      requires experiences.Some?
      modifies this`experiences, experience`employee
      ensures experiences == Some(old(experiences).value + [experience]) && experience.employee == this
    {
      experiences := Some(experiences.value + [experience]);
      experience.employee := this;
    }

    method RemoveExperience(experience: Experience)
      requires experiences.Some?
      modifies this`experiences, experience`employee
      ensures experiences == Some(RemoveFirst(old(experiences).value, experience))
      ensures experience.employee == null
    {
      experiences := Some(RemoveFirst(experiences.value, experience));
      experience.employee := null;
    }

    /** Always leaves a non-null list holding exactly the given experiences, each
        owned by this employee; a null argument leaves it empty. */
    method SetExperiences(exps: Option<seq<Experience>>)
      modifies this`experiences, (if exps.Some? then set e | e in exps.value else {})`employee
      ensures experiences == Some(if exps.Some? then exps.value else [])
      ensures exps.Some? ==> forall e :: e in exps.value ==> e.employee == this
    {
      if experiences.None? {
        experiences := Some([]);
      }
      experiences := Some([]);
      if exps.Some? {
        var es := exps.value;
        for i := 0 to |es|
          invariant experiences == Some(es[..i])
          invariant forall k :: 0 <= k < i ==> es[k].employee == this
        {
          AddExperience(es[i]);
          assert es[..i + 1] == es[..i] + [es[i]];
        }
        assert es[..|es|] == es;
      }
    }
  }

  /** The most members a team may have. */
  const MaxTeamMembers := 6

  class Team {
    var id: Option<nat>
    var name: Option<string>
    var project: Project?
    var projectManager: Employee?
    var teamManager: Employee?
    /** The members collection as loaded: it is mapped by each employee's team
        column, which is what a save stores. */
    var members: seq<Employee>

    constructor ()
      ensures id == None && name == None && project == null
      ensures projectManager == null && teamManager == null && members == []
    {
      id, name, project := None, None, null;
      projectManager, teamManager := null, null;
      members := [];
    }

    /** setName, setProject, setProjectManager and setTeamManager together. */
    method SetDetails(name: Option<string>, project: Project?, projectManager: Employee?, teamManager: Employee?)
      modifies this`name, this`project, this`projectManager, this`teamManager
      ensures this.name == name && this.project == project
      ensures this.projectManager == projectManager && this.teamManager == teamManager
    {
      this.name, this.project := name, project;
      this.projectManager, this.teamManager := projectManager, teamManager;
    }

    /** Fails, changing nothing, once the team has MaxTeamMembers members; otherwise
        appends the employee and points the employee at this team. */
    method AddMember(employee: Employee) returns (r: Result<()>)
      modifies this`members, employee`team
      ensures |old(members)| >= MaxTeamMembers ==>
                r == Err(IllegalState("A team can have at most 6 members")) &&
                members == old(members) && employee.team == old(employee.team)
      ensures |old(members)| < MaxTeamMembers ==>
                r == Ok(()) && members == old(members) + [employee] && employee.team == this
      ensures r.Ok? ==> |members| <= MaxTeamMembers
    {
      if |members| >= MaxTeamMembers {
        return Err(IllegalState("A team can have at most 6 members"));
      }
      members := members + [employee];
      employee.team := this;
      r := Ok(());
    }

    /** Removes the employee if present, and clears the employee's team even when
        the employee was not a member. */
    method RemoveMember(employee: Employee)
      modifies this`members, employee`team
      ensures members == RemoveFirst(old(members), employee) && employee.team == null
      ensures |members| <= |old(members)|
    {
      members := RemoveFirst(members, employee);
      employee.team := null;
    }
  }

  class Project {
    var id: Option<nat>
    var name: Option<string>
    var seniorProjectManager: Employee?

    constructor ()
      ensures id == None && name == None && seniorProjectManager == null
    {
      id, name, seniorProjectManager := None, None, null;
    }
  }

  class Leave {
    var id: Option<nat>
    var employee: Employee?
    var leaveType: Option<LeaveType>
    var reason: Option<string>
    var startDate: Date
    var endDate: Date
    var status: LeaveStatus
    /** Set when the object is built and never written again (`updatable = false`). */
    const createdAt: Date
    var updatedAt: Option<Date>

    /** `new Leave()` with the request's fields mapped onto it: the status starts
        PENDING, and the creation date is the request's when it carries one and
        the day of construction otherwise. */
    constructor FromRequest(createdAt: Date, updatedAt: Option<Date>, leaveType: Option<LeaveType>,
                            reason: Option<string>, startDate: Date, endDate: Date)
      ensures id == None && employee == null && status == PENDING
      ensures this.createdAt == createdAt && this.updatedAt == updatedAt
      ensures this.leaveType == leaveType && this.reason == reason
      ensures this.startDate == startDate && this.endDate == endDate
    {
      id, employee := None, null;
      this.leaveType, this.reason := leaveType, reason;
      this.startDate, this.endDate := startDate, endDate;
      status := PENDING;
      this.createdAt := createdAt;
      this.updatedAt := updatedAt;
    }

    /** The @PreUpdate hook: every update of the row stamps today's date. */
    method OnUpdate(today: Date)
      modifies this`updatedAt
      ensures updatedAt == Some(today)
    {
      updatedAt := Some(today);
    }
  }
}
