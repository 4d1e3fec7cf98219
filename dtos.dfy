/** The request and response bodies the services read, as values. A Java field
    that may be null is an Option. */
module Dtos {
  import opened Common
  import opened Entities

  /** EducationDTO, CertificationDTO, SkillDTO and ExperienceDTO: an optional id,
      an optional version and the scalar columns that are non-null. */
  datatype ChildDto = ChildDto(id: Option<nat>, version: Option<int>, columns: Columns)

  datatype DocumentDto = DocumentDto(
    id: Option<nat>, fileName: Option<string>, fileType: Option<string>, fileSize: Option<int>,
    data: Option<seq<bv8>>, documentType: Option<string>, version: Option<int>)

  datatype PhotoDto = PhotoDto(fileName: Option<string>, fileType: Option<string>, fileSize: Option<int>,
                               data: Option<seq<bv8>>)

  /** ProfilePhotoDTO.hasPhotoData */
  predicate HasPhotoData(p: PhotoDto)
  {
    p.data.Some? && |p.data.value| > 0
  }

  datatype EmployeeDto = EmployeeDto(
    employeeId: Option<nat>,
    email: Option<string>,
    personalEmail: Option<string>,
    mobile: Option<string>,
    /** Names, gender, date of birth, father's name and both addresses, when non-null. */
    details: Columns,
    role: Option<Role>,
    profilePhoto: Option<PhotoDto>,
    educationList: Option<seq<ChildDto>>,
    certifications: Option<seq<ChildDto>>,
    skills: Option<seq<ChildDto>>,
    documents: Option<seq<DocumentDto>>,
    experiences: Option<seq<ChildDto>>,
    documentsToDelete: Option<seq<nat>>,
    removeProfilePhoto: Option<bool>)

  datatype LeaveDto = LeaveDto(
    employeeId: Option<nat>, leaveType: Option<LeaveType>, reason: Option<string>,
    startDate: Date, endDate: Date, createdAt: Option<Date>, updatedAt: Option<Date>)

  datatype TeamDto = TeamDto(
    name: Option<string>, projectId: Option<nat>, projectManagerId: Option<nat>, teamManagerId: Option<nat>)

  datatype ProjectDto = ProjectDto(name: Option<string>, seniorProjectManagerId: Option<nat>)

  /** A MultipartFile: its original name, declared content type and bytes. */
  datatype Upload = Upload(originalFilename: Option<string>, contentType: Option<string>, bytes: seq<bv8>)
}
