/** What convertToNewEntity and the cascading save leave behind for a new
    employee: its columns, and its saved child records of every kind.

    Two predicates below write a conjunction as one tuple comparison,
    `(P, Q) == (true, true)`: it means exactly `P && Q`, proved as one
    obligation rather than one per conjunct. */
module NewRecords {
  import opened Common
  import opened Entities
  import opened Dtos
  import opened EmployeeQueries
  import opened EmployeeRules

  /** A null incoming list is taken as an empty one. */
  function ItemsOf<T>(items: Option<seq<T>>): seq<T>
  {
    if items.Some? then items.value else []
  }

  /** The education and certification lists of `e` hold, position by
      position, the saved new record for each incoming item. */
  ghost predicate QualificationsStored(e: Employee, dto: EmployeeDto, educationRows: map<nat, Education>,
                                       certificationRows: map<nat, Certification>)
    reads e`educationList, e`certifications, set c | c in e.educationList, set c | c in e.certifications
  {
    StoredAsNew(e.educationList, ItemsOf(dto.educationList), e, educationRows) &&
    StoredAsNew(e.certifications, ItemsOf(dto.certifications), e, certificationRows)
  }

  /** The skill, experience and document lists of `e` hold, position by
      position, the saved new record for each incoming item. */
  ghost predicate HistoryStored(e: Employee, dto: EmployeeDto, skillRows: map<nat, Skill>,
                                experienceRows: map<nat, Experience>, documentRows: map<nat, Document>)
    reads e`skills, e`experiences, e`documents, set c | c in e.skills
    reads if e.experiences.Some? then set c | c in e.experiences.value else {}
    reads if e.documents.Some? then set d | d in e.documents.value else {}
  {
    StoredAsNew(e.skills, ItemsOf(dto.skills), e, skillRows) &&
    e.experiences.Some? && StoredAsNew(e.experiences.value, ItemsOf(dto.experiences), e, experienceRows) &&
    e.documents.Some? && DocumentsStoredAsNew(e.documents.value, ItemsOf(dto.documents), e, documentRows)
  }

  /** The columns of an employee that saveEmployee sets: the three contact
      columns, the other scalar columns, the role, and whether a photo,
      project or team is linked. */
  datatype EmployeeColumns = EmployeeColumns(contact: Contact, details: Columns, role: Role,
                             hasPhoto: bool, hasProject: bool, hasTeam: bool)

  ghost function ColumnsOf(e: Employee): EmployeeColumns
    reads e`email, e`personalEmail, e`mobile, e`details, e`role, e`profilePhoto, e`project, e`team
  {
    EmployeeColumns(Contact(e.email, e.personalEmail, e.mobile), e.details, e.role,
            e.profilePhoto != null, e.project != null, e.team != null)
  }

  /** The columns convertToNewEntity gives a new employee: the incoming ones,
      the incoming role or MEMBER, and no photo, project or team. */
  ghost predicate Created(e: Employee, dto: EmployeeDto)
    reads e`email, e`personalEmail, e`mobile, e`details, e`role, e`profilePhoto, e`project, e`team
  {
    ColumnsOf(e) == EmployeeColumns(ContactOf(dto), dto.details, if dto.role.Some? then dto.role.value else MEMBER, false, false, false)
  }

  /** The five child tables an employee's records live in. */
  datatype ChildTables = ChildTables(educations: map<nat, Education>, certifications: map<nat, Certification>,
                                     skills: map<nat, Skill>, experiences: map<nat, Experience>,
                                     documents: map<nat, Document>)

  /** Every collection of `e` holds, position by position, the saved new
      record for the corresponding incoming item. */
  ghost predicate NewRecordsStored(e: Employee, dto: EmployeeDto, t: ChildTables)
    reads e`educationList, e`certifications, set c | c in e.educationList, set c | c in e.certifications
    reads e`skills, e`experiences, e`documents, set c | c in e.skills
    reads if e.experiences.Some? then set c | c in e.experiences.value else {}
    reads if e.documents.Some? then set d | d in e.documents.value else {}
  {
    (QualificationsStored(e, dto, t.educations, t.certifications),
     HistoryStored(e, dto, t.skills, t.experiences, t.documents)) == (true, true)
  }

  /** Each child table kept its rows and gained only records of `e`. */
  ghost predicate RecordsGrow(e: Employee, after: ChildTables, before: ChildTables)
    reads e`educationList, e`certifications, e`skills, e`experiences, e`documents
  {
    (Grows(after.educations, before.educations, e.educationList),
     Grows(after.certifications, before.certifications, e.certifications),
     Grows(after.skills, before.skills, e.skills),
     e.experiences.Some? && Grows(after.experiences, before.experiences, e.experiences.value),
     e.documents.Some? && Grows(after.documents, before.documents, e.documents.value)) == (true, true, true, true, true)
  }

  /** New records, one per incoming item in order, each stored under its new id
      with version 0, the item's columns and the given owner. */
  ghost predicate StoredAsNew<K>(list: seq<Child<K>>, dtos: seq<ChildDto>, owner: Employee, rows: map<nat, Child<K>>)
    reads set c | c in list
  {
    |list| == |dtos| &&
    forall i :: 0 <= i < |list| ==>
      list[i].id.Some? && list[i].id.value in rows && rows[list[i].id.value] == list[i] &&
      list[i].version == Some(0) && list[i].columns == dtos[i].columns && list[i].employee == owner
  }

  /** Every document of `list` is saved in `rows` as the new record for the
      incoming item at its position. */
  ghost predicate DocumentsStoredAsNew(list: seq<Document>, dtos: seq<DocumentDto>, owner: Employee, rows: map<nat, Document>)
    reads set d | d in list
  {
    |list| == |dtos| &&
    forall i :: 0 <= i < |list| ==>
      list[i].id.Some? && list[i].id.value in rows && rows[list[i].id.value] == list[i] &&
      list[i].version == Some(0) && list[i].employee == owner && list[i].documentType == dtos[i].documentType &&
      list[i].fileName == dtos[i].fileName && list[i].fileType == dtos[i].fileType &&
      list[i].fileSize == dtos[i].fileSize && list[i].data == ItemsOf(dtos[i].data)
  }

  /** The table kept every row it had and gained only rows from `list`. */
  predicate Grows<V(==)>(after: map<nat, V>, before: map<nat, V>, list: seq<V>)
  {
    (forall k :: k in before ==> k in after && after[k] == before[k]) &&
    (forall k :: k in after && k !in before ==> after[k] in list)
  }

  /** The saved education and certification records that `e` links to. */
  ghost function QualificationObjects(e: Employee): set<object>
    reads e`educationList, e`certifications
  {
    (set c | c in e.educationList) + (set c | c in e.certifications)
  }

  /** The saved records of every kind that `e` links to. */
  ghost function RecordObjects(e: Employee): set<object>
    reads e`educationList, e`certifications, e`skills, e`experiences, e`documents
  {
    (set c | c in e.educationList) + (set c | c in e.certifications) + (set c | c in e.skills) +
    (if e.experiences.Some? then set c | c in e.experiences.value else {}) +
    (if e.documents.Some? then set d | d in e.documents.value else {})
  }
}
