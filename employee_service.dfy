/** EmployeeServiceImpl: creating, updating and deleting an employee together
    with the records that belong to it.

    Several predicates and postconditions below state a conjunction of
    independent facts as one tuple comparison, `(P, Q, R) == (true, true, true)`.
    It means exactly `P && Q && R`; written this way the verifier proves it
    as one obligation instead of splitting it into one per conjunct, each
    repeating the frame reasoning of the whole method. */
module EmployeeService {
  import opened Common
  import opened Entities
  import opened Dtos
  import opened EmployeeQueries
  import opened EmployeeRules
  import opened ChildReconciliation
  import opened Repositories
  import opened NewRecords

  /** Neither the employee nor its repository is one of the employee's records. */
  lemma RecordsAreNotRows(e: Employee, employees: EmployeeRepository)
    ensures employees !in RecordObjects(e) && e !in RecordObjects(e)
  {
  }

  /** Neither the employee nor the skill, experience and document
      repositories is one of its education or certification records. */
  lemma QualificationsAreNotHistory(e: Employee, skills: ChildRepository<SkillTag>,
                                    experiences: ChildRepository<ExperienceTag>, documents: DocumentRepository)
    ensures skills !in QualificationObjects(e) && experiences !in QualificationObjects(e)
    ensures documents !in QualificationObjects(e) && e !in QualificationObjects(e)
  {
  }

  /** The lookup and the merge: the owner's current rows are updated in place
      and the incoming list is built; the table itself does not change yet. */
  method LookupAndMerge<K>(repo: ChildRepository<K>, owner: Employee, dtos: seq<ChildDto>)
      returns (list: seq<Child<K>>, orphans: seq<Child<K>>)
    requires repo.Valid()
    modifies repo.rows.Values
    ensures IdsOf(orphans) == Orphans(old(repo.OwnedBy(owner)), dtos)
    ensures |list| == |dtos|
    ensures forall i :: 0 <= i < |dtos| ==> list[i].employee == owner
    ensures forall i :: 0 <= i < |dtos| && Matches(old(repo.OwnedBy(owner)), dtos[i]) ==>
              list[i] == repo.rows[dtos[i].id.value] && list[i].id == dtos[i].id
    ensures forall i :: 0 <= i < |dtos| && !Matches(old(repo.OwnedBy(owner)), dtos[i]) ==>
              fresh(list[i]) && list[i].id == None && list[i].version == Some(0) && list[i].columns == dtos[i].columns
    ensures forall k :: k in old(repo.OwnedBy(owner)) ==>
              Fields(repo.rows[k].columns, repo.rows[k].version) ==
              MergeAll(old(Fields(repo.rows[k].columns, repo.rows[k].version)), k, dtos)
    ensures forall k :: k in repo.rows && k !in old(repo.OwnedBy(owner)) ==>
              repo.rows[k].columns == old(repo.rows[k].columns) && repo.rows[k].version == old(repo.rows[k].version) &&
              repo.rows[k].employee == old(repo.rows[k].employee)
    ensures forall k :: k in repo.rows ==> repo.rows[k].id == old(repo.rows[k].id)
  {
    var current := repo.FindByEmployee(owner);
    list, orphans := MergeCurrent(repo, owner, dtos, current, repo.OwnedBy(owner));
  }

  /** The merge of the incoming items into the owner's rows `current`, whose
      ids are `owned`. */
  method MergeCurrent<K>(repo: ChildRepository<K>, owner: Employee, dtos: seq<ChildDto>,
                         current: seq<Child<K>>, ghost owned: set<nat>)
      returns (list: seq<Child<K>>, orphans: seq<Child<K>>)
    requires repo.Valid() && owned <= repo.rows.Keys && IdsOf(current) == owned
    requires forall j :: 0 <= j < |current| ==>
               current[j].id.Some? && current[j].id.value in owned && repo.rows[current[j].id.value] == current[j]
    requires forall k :: k in owned ==> repo.rows[k] in current
    requires forall i, j :: 0 <= i < j < |current| ==> current[i].id != current[j].id
    modifies repo.rows.Values
    ensures IdsOf(orphans) == Orphans(owned, dtos)
    ensures |list| == |dtos|
    ensures forall i :: 0 <= i < |dtos| ==> list[i].employee == owner
    ensures forall i :: 0 <= i < |dtos| && Matches(owned, dtos[i]) ==>
              dtos[i].id.value in repo.rows && list[i] == repo.rows[dtos[i].id.value] && list[i].id == dtos[i].id
    ensures forall i :: 0 <= i < |dtos| && !Matches(owned, dtos[i]) ==>
              fresh(list[i]) && list[i].id == None && list[i].version == Some(0) && list[i].columns == dtos[i].columns
    ensures forall k :: k in owned ==>
              Fields(repo.rows[k].columns, repo.rows[k].version) ==
              MergeAll(old(Fields(repo.rows[k].columns, repo.rows[k].version)), k, dtos)
    ensures forall k :: k in repo.rows && k !in owned ==>
              repo.rows[k].columns == old(repo.rows[k].columns) && repo.rows[k].version == old(repo.rows[k].version) &&
              repo.rows[k].employee == old(repo.rows[k].employee)
    ensures forall k :: k in repo.rows ==> repo.rows[k].id == old(repo.rows[k].id)
  {
    list, orphans := UpdateChildren(owner, dtos, current);
    forall i | 0 <= i < |dtos| && Matches(owned, dtos[i])
      ensures dtos[i].id.value in repo.rows && list[i] == repo.rows[dtos[i].id.value]
    {
      var j :| 0 <= j < |current| && current[j] == list[i];
    }
    assert IdsOf(orphans) == Orphans(owned, dtos) by {
      forall k | k in Orphans(owned, dtos) ensures k in IdsOf(orphans) {
        assert repo.rows[k] in current;
      }
    }
    forall k | k in owned
      ensures Fields(repo.rows[k].columns, repo.rows[k].version) ==
              MergeAll(old(Fields(repo.rows[k].columns, repo.rows[k].version)), k, dtos)
    {
      var j :| 0 <= j < |current| && current[j] == repo.rows[k];
    }
    assert forall k :: k in repo.rows && k !in owned ==> repo.rows[k] !in current;
  }

  /** updateEducations, updateCertifications or updateSkills together with the
      deletes and inserts they cause, for one kind of record: the owner's rows
      are looked up, merged with the incoming items, the orphans deleted and the
      new records persisted. Afterwards the owner's rows are exactly the
      returned list. */
  method ReconcileKind<K>(repo: ChildRepository<K>, owner: Employee, dtos: seq<ChildDto>) returns (list: seq<Child<K>>)
    requires repo.Valid()
    modifies repo, repo.rows.Values
    ensures repo.Valid()
    ensures |list| == |dtos|
    ensures forall i :: 0 <= i < |dtos| ==>
              list[i].employee == owner && list[i].id.Some? && list[i].id.value in repo.rows &&
              repo.rows[list[i].id.value] == list[i]
    ensures forall i :: 0 <= i < |dtos| && Matches(old(repo.OwnedBy(owner)), dtos[i]) ==>
              list[i].id == dtos[i].id && list[i] == old(repo.rows[dtos[i].id.value])
    ensures forall i :: 0 <= i < |dtos| && !Matches(old(repo.OwnedBy(owner)), dtos[i]) ==>
              fresh(list[i]) && list[i].version == Some(0) && list[i].columns == dtos[i].columns
    ensures forall k :: k in old(repo.rows) ==>
              (k in repo.rows <==> k !in Orphans(old(repo.OwnedBy(owner)), dtos)) &&
              (k in repo.rows ==> repo.rows[k] == old(repo.rows[k]))
    ensures forall k :: k in repo.rows && k !in old(repo.rows) ==> repo.rows[k] in list && fresh(repo.rows[k])
    ensures forall k :: k in old(repo.OwnedBy(owner)) && k in repo.rows ==>
              Fields(repo.rows[k].columns, repo.rows[k].version) ==
              MergeAll(old(Fields(repo.rows[k].columns, repo.rows[k].version)), k, dtos)
    ensures forall k :: k in old(repo.rows) && k !in old(repo.OwnedBy(owner)) ==>
              k in repo.rows && repo.rows[k].columns == old(repo.rows[k].columns) && repo.rows[k].version == old(repo.rows[k].version) &&
              repo.rows[k].employee == old(repo.rows[k].employee)
    ensures repo.OwnedBy(owner) == IdsOf(list)
  {
    list := MergeAndPrune(repo, owner, dtos);
    label Pruned:
    repo.PersistNew(list);
    assert repo.OwnedBy(owner) == IdsOf(list) by {
      forall k | k in repo.OwnedBy(owner) ensures k in IdsOf(list) {
        if k in old@Pruned(repo.rows) {
          assert k in old@Pruned(IdsOf(list));
          var c :| c in list && old@Pruned(c.id) == Some(k);
        }
      }
    }
  }

  /** The owner's rows of one kind are exactly `list`, one record per item. */
  ghost predicate Reconciled<K>(repo: ChildRepository<K>, owner: Employee, list: seq<Child<K>>, n: nat)
    reads repo, repo.rows.Values`id, repo.rows.Values`employee, (set c | c in list)`id
  {
    repo.Valid() && |list| == n && repo.OwnedBy(owner) == IdsOf(list)
  }

  /** Of the rows in `before`, exactly the orphans are gone. */
  ghost predicate Pruned<K>(repo: ChildRepository<K>, before: map<nat, Child<K>>, orphans: set<nat>)
    reads repo
  {
    forall k :: k in before ==> (k in repo.rows <==> k !in orphans)
  }

  /** Each record of `list` is what its item makes of it. A record whose item
      names one of the rows in `before` has that id, and carries that row's
      fields with every item naming it merged in. Any other record is new, with
      the item's columns and version 0. */
  ghost predicate Merged<K>(list: seq<Child<K>>, dtos: seq<ChildDto>, before: map<nat, Fields>)
    reads (set c | c in list)`id, (set c | c in list)`columns, (set c | c in list)`version
  {
    |list| == |dtos| &&
    forall i :: 0 <= i < |dtos| ==>
      if Matches(before.Keys, dtos[i]) then
        list[i].id == dtos[i].id &&
        Fields(list[i].columns, list[i].version) == MergeAll(before[dtos[i].id.value], dtos[i].id.value, dtos)
      else
        list[i].version == Some(0) && list[i].columns == dtos[i].columns
  }

  /** ReconcileKind as updateEmployee sees it: the owner's rows of the kind
      are exactly the returned list, one record per item, each carrying its
      merged or new fields, and exactly the orphans have been deleted. A
      record whose item names one of the owner's rows is that row's object;
      any other is a new object. */
  method ReplaceRecords<K>(repo: ChildRepository<K>, owner: Employee, dtos: seq<ChildDto>, ghost kept: set<object>)
    returns (list: seq<Child<K>>)
    requires repo.Valid() && repo !in kept && kept !! Footprint(repo, [])
    modifies repo, repo.rows.Values
    ensures Reconciled(repo, owner, list, |dtos|)
    ensures Pruned(repo, old(repo.rows), Orphans(old(repo.OwnedBy(owner)), dtos))
    ensures Merged(list, dtos, old(repo.OwnedFields(owner)))
    ensures forall i :: 0 <= i < |dtos| ==>
              if Matches(old(repo.OwnedBy(owner)), dtos[i]) then list[i] == old(repo.rows[dtos[i].id.value])
              else fresh(list[i])
    ensures unchanged(kept)
  {
    ghost var before := repo.OwnedFields(owner);
    list := ReconcileKind(repo, owner, dtos);
    forall i | 0 <= i < |dtos| && Matches(before.Keys, dtos[i])
      ensures Fields(list[i].columns, list[i].version) == MergeAll(before[dtos[i].id.value], dtos[i].id.value, dtos)
    {
      var k := dtos[i].id.value;
      assert k in IncomingIds(dtos);
    }
  }

  /** The objects Reconciled reads. */
  ghost function Footprint<K>(repo: ChildRepository<K>, list: seq<Child<K>>): set<object>
    reads repo
  {
    {repo} + (set c | c in repo.rows.Values :: c as object) + (set c | c in list :: c as object)
  }

  /** The education objects are none of the certification or skill objects. */
  lemma EducationsApart(educations: ChildRepository<EducationTag>, list: seq<Child<EducationTag>>,
                        certifications: ChildRepository<CertificationTag>, skills: ChildRepository<SkillTag>)
    ensures certifications !in Footprint(educations, list) && Footprint(educations, list) !! Footprint(certifications, [])
    ensures skills !in Footprint(educations, list) && Footprint(educations, list) !! Footprint(skills, [])
  {
  }

  /** An employee is none of the objects of a record kind. */
  lemma EmployeeApart<K>(e: Employee, repo: ChildRepository<K>, list: seq<Child<K>>)
    ensures e !in Footprint(repo, list)
  {
  }

  /** The certification objects are none of the skill objects. */
  lemma CertificationsApart(certifications: ChildRepository<CertificationTag>, list: seq<Child<CertificationTag>>,
                            skills: ChildRepository<SkillTag>)
    ensures skills !in Footprint(certifications, list) && Footprint(certifications, list) !! Footprint(skills, [])
  {
  }

  /** The lookup, the merge and the deletion of the orphans: afterwards the
      owner's rows are exactly the incoming items that named one of them. */
  method MergeAndPrune<K>(repo: ChildRepository<K>, owner: Employee, dtos: seq<ChildDto>) returns (list: seq<Child<K>>)
    requires repo.Valid()
    modifies repo`rows, repo.rows.Values
    ensures repo.Valid()
    ensures |list| == |dtos|
    ensures forall i :: 0 <= i < |dtos| ==> list[i].employee == owner
    ensures forall i :: 0 <= i < |dtos| && Matches(old(repo.OwnedBy(owner)), dtos[i]) ==>
              list[i].id == dtos[i].id && dtos[i].id.value in repo.rows &&
              list[i] == repo.rows[dtos[i].id.value] && list[i] == old(repo.rows[dtos[i].id.value])
    ensures forall i :: 0 <= i < |dtos| && !Matches(old(repo.OwnedBy(owner)), dtos[i]) ==>
              fresh(list[i]) && list[i].id == None && list[i].version == Some(0) && list[i].columns == dtos[i].columns
    ensures forall k :: k in repo.rows ==> k in old(repo.rows)
    ensures forall k :: k in old(repo.rows) ==>
              (k in repo.rows <==> k !in Orphans(old(repo.OwnedBy(owner)), dtos)) &&
              (k in repo.rows ==> repo.rows[k] == old(repo.rows[k]))
    ensures forall k :: k in old(repo.OwnedBy(owner)) && k in repo.rows ==>
              Fields(repo.rows[k].columns, repo.rows[k].version) ==
              MergeAll(old(Fields(repo.rows[k].columns, repo.rows[k].version)), k, dtos)
    ensures forall k :: k in old(repo.rows) && k !in old(repo.OwnedBy(owner)) ==>
              k in repo.rows && repo.rows[k].columns == old(repo.rows[k].columns) && repo.rows[k].version == old(repo.rows[k].version) &&
              repo.rows[k].employee == old(repo.rows[k].employee)
    ensures repo.OwnedBy(owner) == IdsOf(list)
  {
    var orphans;
    list, orphans := LookupAndMerge(repo, owner, dtos);
    repo.DeleteAll(orphans);
  }

  /** The records convertToNewEntity builds from incoming items: new, with no id,
      version 0, the item's columns and the new employee as owner. */
  method BuildChildren<K>(owner: Employee, dtos: seq<ChildDto>) returns (list: seq<Child<K>>)
    ensures |list| == |dtos|
    ensures forall i :: 0 <= i < |dtos| ==>
              fresh(list[i]) && list[i].id == None && list[i].version == Some(0) &&
              list[i].columns == dtos[i].columns && list[i].employee == owner
  {
    list := [];
    for i := 0 to |dtos|
      invariant |list| == i
      invariant forall j :: 0 <= j < i ==>
                  fresh(list[j]) && list[j].id == None && list[j].version == Some(0) &&
                  list[j].columns == dtos[j].columns && list[j].employee == owner
    {
      var record := new Child<K>.New(dtos[i].columns);
      record.employee := owner;
      list := list + [record];
    }
  }

  /** The documents convertToNewEntity builds: the item's metadata and bytes,
      no id, version 0, the new employee as owner. */
  method BuildDocuments(owner: Employee, dtos: seq<DocumentDto>) returns (list: seq<Document>)
    ensures |list| == |dtos|
    ensures forall i :: 0 <= i < |dtos| ==>
              fresh(list[i]) && list[i].id == None && list[i].version == Some(0) && list[i].employee == owner &&
              list[i].fileName == dtos[i].fileName && list[i].fileType == dtos[i].fileType &&
              list[i].fileSize == dtos[i].fileSize && list[i].data == ItemsOf(dtos[i].data) &&
              list[i].documentType == dtos[i].documentType
  {
    list := [];
    for i := 0 to |dtos|
      invariant |list| == i
      invariant forall j :: 0 <= j < i ==>
                  fresh(list[j]) && list[j].id == None && list[j].version == Some(0) && list[j].employee == owner &&
                  list[j].fileName == dtos[j].fileName && list[j].fileType == dtos[j].fileType &&
                  list[j].fileSize == dtos[j].fileSize && list[j].data == ItemsOf(dtos[j].data) &&
                  list[j].documentType == dtos[j].documentType
    {
      var d := dtos[i];
      var document := new Document.New(d.fileName, d.fileType, d.fileSize, ItemsOf(d.data), d.documentType);
      document.version := Some(0);
      document.employee := owner;
      list := list + [document];
    }
  }

  /** The records of one kind that a new employee brings along, built and then
      persisted by the cascade. */
  method CreateChildren<K>(repo: ChildRepository<K>, owner: Employee, dtos: seq<ChildDto>) returns (list: seq<Child<K>>)
    requires repo.Valid()
    modifies repo
    ensures repo.Valid()
    ensures StoredAsNew(list, dtos, owner, repo.rows) && Grows(repo.rows, old(repo.rows), list)
    ensures forall c :: c in list ==> fresh(c)
  {
    list := BuildChildren(owner, dtos);
    repo.PersistNew(list);
  }

  /** The documents of a new employee, built and saved. */
  method CreateDocuments(repo: DocumentRepository, owner: Employee, dtos: seq<DocumentDto>) returns (list: seq<Document>)
    requires repo.Valid()
    modifies repo
    ensures repo.Valid()
    ensures DocumentsStoredAsNew(list, dtos, owner, repo.rows) && Grows(repo.rows, old(repo.rows), list)
    ensures forall d :: d in list ==> fresh(d)
  {
    list := BuildDocuments(owner, dtos);
    repo.PersistNew(list);
  }

  /** The new education and certification records convertToNewEntity gives
      a new employee, saved and linked to it. */
  method AttachQualifications(educations: ChildRepository<EducationTag>, certifications: ChildRepository<CertificationTag>,
                              e: Employee, dto: EmployeeDto)
    requires educations.Valid() && certifications.Valid()
    modifies educations, certifications, e`educationList, e`certifications
    ensures educations.Valid() && certifications.Valid()
    ensures QualificationsStored(e, dto, educations.rows, certifications.rows)
    ensures Grows(educations.rows, old(educations.rows), e.educationList)
    ensures Grows(certifications.rows, old(certifications.rows), e.certifications)
  {
    e.educationList := CreateChildren(educations, e, ItemsOf(dto.educationList));
    e.certifications := CreateChildren(certifications, e, ItemsOf(dto.certifications));
  }

  /** The new skill, experience and document records convertToNewEntity
      gives a new employee, saved and linked to it. */
  method AttachHistory(skills: ChildRepository<SkillTag>, experiences: ChildRepository<ExperienceTag>,
                       documents: DocumentRepository, e: Employee, dto: EmployeeDto, ghost kept: set<object>)
    requires skills.Valid() && experiences.Valid() && documents.Valid()
    requires skills !in kept && experiences !in kept && documents !in kept && e !in kept
    modifies skills, experiences, documents, e`skills, e`experiences, e`documents
    ensures skills.Valid() && experiences.Valid() && documents.Valid()
    ensures HistoryStored(e, dto, skills.rows, experiences.rows, documents.rows)
    ensures Grows(skills.rows, old(skills.rows), e.skills)
    ensures e.experiences.Some? && Grows(experiences.rows, old(experiences.rows), e.experiences.value)
    ensures e.documents.Some? && Grows(documents.rows, old(documents.rows), e.documents.value)
    ensures unchanged(e`educationList, e`certifications) && unchanged(kept)
  {
    e.skills := CreateChildren(skills, e, ItemsOf(dto.skills));
    SkillsAreNotLater(e, experiences, documents, kept);
    AttachLater(experiences, documents, e, dto, kept + (set c | c in e.skills));
  }

  /** The part of AttachHistory after the skills: the new experience and
      document records, saved and linked to `e`. */
  method AttachLater(experiences: ChildRepository<ExperienceTag>, documents: DocumentRepository, e: Employee, dto: EmployeeDto,
                     ghost kept: set<object>)
    requires experiences.Valid() && documents.Valid()
    requires experiences !in kept && documents !in kept && e !in kept
    modifies experiences, documents, e`experiences, e`documents
    ensures experiences.Valid() && documents.Valid()
    ensures e.experiences.Some? && StoredAsNew(e.experiences.value, ItemsOf(dto.experiences), e, experiences.rows)
    ensures e.documents.Some? && DocumentsStoredAsNew(e.documents.value, ItemsOf(dto.documents), e, documents.rows)
    ensures Grows(experiences.rows, old(experiences.rows), e.experiences.value)
    ensures Grows(documents.rows, old(documents.rows), e.documents.value)
    ensures unchanged(e`educationList, e`certifications, e`skills) && unchanged(kept)
  {
    var experienceList := CreateChildren(experiences, e, ItemsOf(dto.experiences));
    e.experiences := Some(experienceList);
    var documentList := CreateDocuments(documents, e, ItemsOf(dto.documents));
    e.documents := Some(documentList);
  }

  /** None of the objects AttachLater changes is a skill record of `e` or
      one of the objects in `kept`. */
  lemma SkillsAreNotLater(e: Employee, experiences: ChildRepository<ExperienceTag>, documents: DocumentRepository,
                          kept: set<object>)
    requires experiences !in kept && documents !in kept && e !in kept
    ensures experiences !in kept + (set c | c in e.skills) && documents !in kept + (set c | c in e.skills)
    ensures e !in kept + (set c | c in e.skills)
  {
  }

  /** The two columns updateDocuments may change. */
  datatype DocMeta = DocMeta(documentType: Option<string>, version: Option<int>)

  /** A document's metadata after every incoming item naming its id has been
      applied in order. The setters are called directly, so a null in the item
      clears the column. */
  function MetaAfter(m: DocMeta, id: nat, dtos: seq<DocumentDto>): DocMeta
    decreases |dtos|
  {
    if dtos == [] then m
    else
      var before := MetaAfter(m, id, dtos[..|dtos| - 1]);
      var d := dtos[|dtos| - 1];
      if d.id == Some(id) then DocMeta(d.documentType, d.version) else before
  }

  /** The last item naming a document decides both of its columns, nulls
      included. */
  lemma {:induction false} LastNamingItemDecides(m: DocMeta, id: nat, dtos: seq<DocumentDto>, i: nat)
    requires i < |dtos| && dtos[i].id == Some(id)
    requires forall j :: i < j < |dtos| ==> dtos[j].id != Some(id)
    ensures MetaAfter(m, id, dtos) == DocMeta(dtos[i].documentType, dtos[i].version)
    decreases |dtos|
  {
    if i < |dtos| - 1 {
      var prefix := dtos[..|dtos| - 1];
      LastNamingItemDecides(m, id, prefix, i);
    }
  }

  /** A document no item names keeps its metadata. */
  lemma {:induction false} UnnamedDocumentUnchanged(m: DocMeta, id: nat, dtos: seq<DocumentDto>)
    requires forall j :: 0 <= j < |dtos| ==> dtos[j].id != Some(id)
    ensures MetaAfter(m, id, dtos) == m
    decreases |dtos|
  {
    if dtos != [] {
      UnnamedDocumentUnchanged(m, id, dtos[..|dtos| - 1]);
    }
  }

  lemma MetaAfterSnoc(m: DocMeta, id: nat, dtos: seq<DocumentDto>, i: nat)
    requires i < |dtos|
    ensures MetaAfter(m, id, dtos[..i + 1]) ==
            if dtos[i].id == Some(id) then DocMeta(dtos[i].documentType, dtos[i].version) else MetaAfter(m, id, dtos[..i])
  {
    assert dtos[..i + 1][..i] == dtos[..i];
  }

  /** The ids updateEmployee deletes from the document table: those listed in
      documentsToDelete, whoever owns them; a null list names none. */
  function DocumentsToDelete(dto: EmployeeDto): (ids: set<nat>)
    ensures forall k :: k in ids <==> dto.documentsToDelete.Some? && k in dto.documentsToDelete.value
  {
    set k | k in ItemsOf(dto.documentsToDelete)
  }

  /** The photo table after profilePhotoRepository.delete of `photo`: a photo
      with an id loses its row; one without changes nothing. */
  function PhotoRowsAfter(rows: map<nat, ProfilePhoto>, photo: ProfilePhoto?): (after: map<nat, ProfilePhoto>)
    reads {photo}`id
    ensures photo != null && photo.id.Some? ==> after == rows - {photo.id.value}
    ensures photo == null || photo.id.None? ==> after == rows
  {
    if photo != null && photo.id.Some? then rows - {photo.id.value} else rows
  }

  /** What updateEmployee's outcome is stated against: the tables, the
      document metadata, and the photo and columns of the employee being
      updated, as they were before the call. */
  datatype UpdateBefore = UpdateBefore(
    rows: map<nat, Employee>, contacts: Contacts, documents: map<nat, Document>, metas: map<nat, DocMeta>,
    photos: map<nat, ProfilePhoto>, photo: ProfilePhoto?, details: Columns, role: Role,
    educations: map<nat, Education>, certifications: map<nat, Certification>, skills: map<nat, Skill>,
    educationIds: set<nat>, certificationIds: set<nat>, skillIds: set<nat>,
    educationFields: map<nat, Fields>, certificationFields: map<nat, Fields>, skillFields: map<nat, Fields>)

  class EmployeeService {
    const employees: EmployeeRepository
    const educations: ChildRepository<EducationTag>
    const certifications: ChildRepository<CertificationTag>
    const skills: ChildRepository<SkillTag>
    const experiences: ChildRepository<ExperienceTag>
    const documents: DocumentRepository
    const photos: ProfilePhotoRepository

    ghost predicate Valid()
      reads this, employees, employees.rows.Values`id, educations, educations.rows.Values`id
      reads certifications, certifications.rows.Values`id, skills, skills.rows.Values`id
      reads experiences, experiences.rows.Values`id, documents, documents.rows.Values`id, photos, photos.rows.Values`id
    {
      // the tuple form of a conjunction, as explained at the head of the module
      (employees.Valid(), educations.Valid(), certifications.Valid(), skills.Valid(),
       experiences.Valid(), documents.Valid(), photos.Valid()) == (true, true, true, true, true, true, true)
    }

    /** The unique columns of Employee hold no value twice. */
    ghost predicate Unique()
      reads this, employees, employees.rows.Values`email, employees.rows.Values`personalEmail, employees.rows.Values`mobile
    {
      UniqueContacts(employees.Contacts())
    }

    constructor (employees: EmployeeRepository, educations: ChildRepository<EducationTag>,
                 certifications: ChildRepository<CertificationTag>, skills: ChildRepository<SkillTag>,
                 experiences: ChildRepository<ExperienceTag>, documents: DocumentRepository, photos: ProfilePhotoRepository)
      requires employees.Valid() && educations.Valid() && certifications.Valid() && skills.Valid()
      requires experiences.Valid() && documents.Valid() && photos.Valid()
      ensures Valid()
      ensures this.employees == employees && this.educations == educations && this.certifications == certifications
      ensures this.skills == skills && this.experiences == experiences && this.documents == documents && this.photos == photos
    {
      this.employees, this.educations, this.certifications, this.skills := employees, educations, certifications, skills;
      this.experiences, this.documents, this.photos := experiences, documents, photos;
    }

    /** updateDocuments: only the type and version of the owner's stored
        documents change, each to what MetaAfter gives; no document is added or
        removed. */
    method UpdateDocuments(owner: Employee, dtos: seq<DocumentDto>)
      requires documents.Valid()
      modifies documents.rows.Values`documentType, documents.rows.Values`version
      ensures forall k :: k in documents.rows && documents.rows[k].employee == owner ==>
                DocMeta(documents.rows[k].documentType, documents.rows[k].version) ==
                MetaAfter(old(DocMeta(documents.rows[k].documentType, documents.rows[k].version)), k, dtos)
      ensures forall k :: k in documents.rows && documents.rows[k].employee != owner ==>
                documents.rows[k].documentType == old(documents.rows[k].documentType) &&
                documents.rows[k].version == old(documents.rows[k].version)
    {
      var current := documents.FindByEmployee(owner);
      var currentIds := set d | d in current && d.id.Some? :: d.id.value;
      for i := 0 to |dtos|
        invariant forall j :: 0 <= j < |current| ==>
                    DocMeta(current[j].documentType, current[j].version) ==
                    MetaAfter(old(DocMeta(current[j].documentType, current[j].version)), current[j].id.value, dtos[..i])
        invariant forall k :: k in documents.rows && documents.rows[k] !in current ==>
                    documents.rows[k].documentType == old(documents.rows[k].documentType) &&
                    documents.rows[k].version == old(documents.rows[k].version)
      {
        var dto := dtos[i];
        if dto.id.Some? && dto.id.value in currentIds {
          var m := 0;
          while m < |current| && current[m].id != dto.id
            invariant m <= |current|
            invariant forall j :: 0 <= j < m ==> current[j].id != dto.id
          {
            m := m + 1;
          }
          if m < |current| {
            current[m].documentType := dto.documentType;
            current[m].version := dto.version;
          }
        }
        forall j | 0 <= j < |current|
          ensures DocMeta(current[j].documentType, current[j].version) ==
                  MetaAfter(old(DocMeta(current[j].documentType, current[j].version)), current[j].id.value, dtos[..i + 1])
        {
          MetaAfterSnoc(old(DocMeta(current[j].documentType, current[j].version)), current[j].id.value, dtos, i);
        }
      }
      assert dtos[..|dtos|] == dtos;
      forall k | k in documents.rows && documents.rows[k].employee == owner
        ensures documents.rows[k] in current
      {
        assert k in documents.OwnedBy(owner);
      }
    }

    /** The employee convertToNewEntity maps from the incoming columns; the role
        keeps its MEMBER default when none is given. */
    static method NewEmployee(dto: EmployeeDto) returns (e: Employee)
      ensures fresh(e) && e.id == None && Created(e, dto)
    {
      e := new Employee();
      e.email, e.personalEmail, e.mobile := dto.email, dto.personalEmail, dto.mobile;
      e.details := dto.details;
      if dto.role.Some? {
        e.role := dto.role.value;
      }
    }

    /** The rows of the five child tables. */
    ghost function Tables(): ChildTables
      reads this, educations, certifications, skills, experiences, documents
    {
      ChildTables(educations.rows, certifications.rows, skills.rows, experiences.rows, documents.rows)
    }

    /** The education and certification tables and their validity depend
        only on the two repositories and the rows in them. */
    twostate lemma QualificationTablesKept()
      requires old(educations.Valid() && certifications.Valid())
      requires unchanged(educations, certifications)
      requires unchanged(educations.rows.Values) && unchanged(certifications.rows.Values)
      ensures educations.Valid() && certifications.Valid()
    {
    }

    /** The new records of every kind, saved and linked to `e`. */
    method AttachAll(e: Employee, dto: EmployeeDto)
      requires educations.Valid() && certifications.Valid() && skills.Valid() && experiences.Valid() && documents.Valid()
      modifies educations, certifications, skills, experiences, documents
      modifies e`educationList, e`certifications, e`skills, e`experiences, e`documents
      ensures educations.Valid() && certifications.Valid() && skills.Valid() && experiences.Valid() && documents.Valid()
      ensures NewRecordsStored(e, dto, Tables())
      ensures RecordsGrow(e, Tables(), old(Tables()))
    {
      AttachQualifications(educations, certifications, e, dto);
      label Qualified:
      QualificationsAreNotHistory(e, skills, experiences, documents);
      AttachHistory(skills, experiences, documents, e, dto, QualificationObjects(e));
      QualificationTablesKept@Qualified();
    }

    /** saveEmployee once the uniqueness check has passed: the employee
        convertToNewEntity maps, saved under a new id, then a saved new record
        for every incoming education, certification, skill, experience and
        document. */
    method CreateEmployee(dto: EmployeeDto) returns (id: nat)
      requires Valid()
      modifies employees, educations, certifications, skills, experiences, documents
      ensures Valid()
      ensures id !in old(employees.rows) && id in employees.rows && fresh(employees.rows[id])
      ensures employees.rows == old(employees.rows)[id := employees.rows[id]]
      ensures employees.Contacts() == old(employees.Contacts())[id := ContactOf(dto)]
      ensures Created(employees.rows[id], dto)
      ensures NewRecordsStored(employees.rows[id], dto, Tables())
      ensures RecordsGrow(employees.rows[id], Tables(), old(Tables()))
    {
      var e := BuildEmployee(dto);
      EmployeeTablesKept();
      id := InsertNew(e, dto, old(Tables()));
    }

    /** convertToNewEntity: the new employee with its new records attached
        and saved; the employee table is not touched yet. */
    method BuildEmployee(dto: EmployeeDto) returns (e: Employee)
      requires educations.Valid() && certifications.Valid() && skills.Valid() && experiences.Valid() && documents.Valid()
      modifies educations, certifications, skills, experiences, documents
      ensures educations.Valid() && certifications.Valid() && skills.Valid() && experiences.Valid() && documents.Valid()
      ensures fresh(e) && e.id == None && Created(e, dto)
      ensures NewRecordsStored(e, dto, Tables()) && RecordsGrow(e, Tables(), old(Tables()))
    {
      e := NewEmployee(dto);
      AttachAll(e, dto);
    }

    /** The employee and photo tables and what is said about them depend only
        on the two repositories and the rows in them. */
    twostate lemma EmployeeTablesKept()
      requires old(employees.Valid() && photos.Valid())
      requires unchanged(employees, photos) && unchanged(employees.rows.Values) && unchanged(photos.rows.Values)
      ensures employees.Valid() && photos.Valid() && employees.Contacts() == old(employees.Contacts())
    {
    }

    /** The cascading save of the built employee: it is stored under the next
        id, and the records already attached to it stay as they are. */
    method InsertNew(e: Employee, ghost dto: EmployeeDto, ghost before: ChildTables) returns (id: nat)
      requires Valid() && e.id == None && Created(e, dto)
      requires NewRecordsStored(e, dto, Tables()) && RecordsGrow(e, Tables(), before)
      modifies employees, e`id
      ensures Valid() && e.id == Some(id) && Created(e, dto)
      ensures id !in old(employees.rows) && employees.rows == old(employees.rows)[id := e]
      ensures employees.Contacts() == old(employees.Contacts())[id := ContactOf(dto)]
      ensures NewRecordsStored(e, dto, Tables()) && RecordsGrow(e, Tables(), before)
    {
      RecordsAreNotRows(e, employees);
      id := SaveRow(e, dto, RecordObjects(e));
    }

    /** The save of the employee row under the next id; no other table and
        none of the employee's records are touched. */
    method SaveRow(e: Employee, ghost dto: EmployeeDto, ghost records: set<object>) returns (id: nat)
      requires Valid() && e.id == None && Created(e, dto) && employees !in records && e !in records
      modifies employees, e`id
      ensures Valid() && e.id == Some(id) && Created(e, dto)
      ensures id !in old(employees.rows) && employees.rows == old(employees.rows)[id := e]
      ensures employees.Contacts() == old(employees.Contacts())[id := ContactOf(dto)]
      ensures unchanged(e`educationList, e`certifications, e`skills, e`experiences, e`documents)
      ensures unchanged(records)
    {
      id := InsertRow(e, dto);
    }

    /** employeeRepository.save of a new employee: the row is added under the
        next id and the unique columns gain the new employee's contact. */
    method InsertRow(e: Employee, ghost dto: EmployeeDto) returns (id: nat)
      requires employees.Valid() && e.id == None && Created(e, dto)
      modifies employees, e`id
      ensures employees.Valid() && e.id == Some(id) && Created(e, dto)
      ensures id !in old(employees.rows) && employees.rows == old(employees.rows)[id := e]
      ensures employees.Contacts() == old(employees.Contacts())[id := ContactOf(dto)]
    {
      ghost var contacts := employees.Contacts();
      id := employees.Insert(e);
      assert employees.rows[id] == e;
      assert employees.Contacts() == contacts[id := ContactOf(dto)];
    }

    /** The three reconciliations of updateEmployeeRelationships: each list of
        the employee becomes its reconciled list, the employee's rows of that
        kind are exactly the ones in it, and exactly the orphans are deleted. */
    method ReconcileRecords(e: Employee, dto: EmployeeDto, ghost kept: set<object>, ghost b: UpdateBefore)
      requires educations.Valid() && certifications.Valid() && skills.Valid()
      requires educations !in kept && certifications !in kept && skills !in kept && e !in kept
      requires kept !! Footprint(educations, []) && kept !! Footprint(certifications, []) && kept !! Footprint(skills, [])
      requires educations.rows == b.educations && certifications.rows == b.certifications && skills.rows == b.skills
      requires educations.OwnedBy(e) == b.educationIds && certifications.OwnedBy(e) == b.certificationIds
      requires skills.OwnedBy(e) == b.skillIds
      requires educations.OwnedFields(e) == b.educationFields && certifications.OwnedFields(e) == b.certificationFields
      requires skills.OwnedFields(e) == b.skillFields
      modifies educations, educations.rows.Values, certifications, certifications.rows.Values
      modifies skills, skills.rows.Values, e`educationList, e`certifications, e`skills
      ensures QualificationsApplied(e, dto, b) && QualificationsMerged(e, dto, b)
      ensures unchanged(kept) && unchanged(e`id, e`email, e`personalEmail, e`mobile, e`details, e`role, e`profilePhoto)
    {
      EmployeeApart(e, educations, []);
      EmployeeApart(e, certifications, []);
      EmployeeApart(e, skills, []);
      var educationList, certificationList, skillList := ReconcileTables(e, dto, kept);
      EmployeeApart(e, educations, educationList);
      EmployeeApart(e, certifications, certificationList);
      EmployeeApart(e, skills, skillList);
      StoreQualifications(e, educationList, certificationList, skillList, dto, b);
    }

    /** The reconciled lists become the employee's. */
    method StoreQualifications(e: Employee, educationList: seq<Education>, certificationList: seq<Certification>,
                               skillList: seq<Skill>, ghost dto: EmployeeDto, ghost b: UpdateBefore)
      requires ListsApplied(e, educationList, certificationList, skillList, dto, b)
      requires ListsMerged(educationList, certificationList, skillList, dto, b)
      modifies e`educationList, e`certifications, e`skills
      ensures e.educationList == educationList && e.certifications == certificationList && e.skills == skillList
      ensures QualificationsApplied(e, dto, b) && QualificationsMerged(e, dto, b)
    {
      e.SetQualifications(educationList, certificationList, skillList);
    }

    /** The outcome of the three reconciliations against the tables before:
        each list of `e` is the reconciled one, the employee's rows of that kind
        are exactly the ones in it, and of the rows before exactly the orphans
        are gone. */
    ghost predicate QualificationsApplied(e: Employee, dto: EmployeeDto, b: UpdateBefore)
      reads this, e, educations, educations.rows.Values`id, educations.rows.Values`employee
      reads certifications, certifications.rows.Values`id, certifications.rows.Values`employee
      reads skills, skills.rows.Values`id, skills.rows.Values`employee, (set c | c in e.educationList)`id
      reads (set c | c in e.certifications)`id, (set c | c in e.skills)`id
    {
      ListsApplied(e, e.educationList, e.certifications, e.skills, dto, b)
    }

    /** QualificationsApplied for three lists not yet stored in `e`; it does not
        read `e`, so setting the lists keeps it. */
    ghost predicate ListsApplied(e: Employee, educationList: seq<Education>, certificationList: seq<Certification>,
                                 skillList: seq<Skill>, dto: EmployeeDto, b: UpdateBefore)
      reads this, educations, educations.rows.Values`id, educations.rows.Values`employee
      reads certifications, certifications.rows.Values`id, certifications.rows.Values`employee
      reads skills, skills.rows.Values`id, skills.rows.Values`employee, (set c | c in educationList)`id
      reads (set c | c in certificationList)`id, (set c | c in skillList)`id
    {
      (Reconciled(educations, e, educationList, |ItemsOf(dto.educationList)|),
       Reconciled(certifications, e, certificationList, |ItemsOf(dto.certifications)|),
       Reconciled(skills, e, skillList, |ItemsOf(dto.skills)|),
       Pruned(educations, b.educations, Orphans(b.educationIds, ItemsOf(dto.educationList))),
       Pruned(certifications, b.certifications, Orphans(b.certificationIds, ItemsOf(dto.certifications))),
       Pruned(skills, b.skills, Orphans(b.skillIds, ItemsOf(dto.skills)))) == (true, true, true, true, true, true)
    }

    /** Each of the employee's three lists holds what its items make of the
        records before: the merged rows and the new records. */
    ghost predicate QualificationsMerged(e: Employee, dto: EmployeeDto, b: UpdateBefore)
      reads e, (set c | c in e.educationList)`id, (set c | c in e.certifications)`id, (set c | c in e.skills)`id
      reads (set c | c in e.educationList)`columns, (set c | c in e.educationList)`version
      reads (set c | c in e.certifications)`columns, (set c | c in e.certifications)`version
      reads (set c | c in e.skills)`columns, (set c | c in e.skills)`version
    {
      ListsMerged(e.educationList, e.certifications, e.skills, dto, b)
    }

    /** QualificationsMerged for three lists not yet stored in an employee. */
    ghost predicate ListsMerged(educationList: seq<Education>, certificationList: seq<Certification>,
                                skillList: seq<Skill>, dto: EmployeeDto, b: UpdateBefore)
      reads (set c | c in educationList)`id, (set c | c in certificationList)`id, (set c | c in skillList)`id
      reads (set c | c in educationList)`columns, (set c | c in educationList)`version
      reads (set c | c in certificationList)`columns, (set c | c in certificationList)`version
      reads (set c | c in skillList)`columns, (set c | c in skillList)`version
    {
      Merged(educationList, ItemsOf(dto.educationList), b.educationFields) &&
      Merged(certificationList, ItemsOf(dto.certifications), b.certificationFields) &&
      Merged(skillList, ItemsOf(dto.skills), b.skillFields)
    }

    /** The three reconciliations, leaving the employee's lists alone. */
    method ReconcileTables(e: Employee, dto: EmployeeDto, ghost kept: set<object>)
      returns (educationList: seq<Education>, certificationList: seq<Certification>, skillList: seq<Skill>)
      requires educations.Valid() && certifications.Valid() && skills.Valid()
      requires educations !in kept && certifications !in kept && skills !in kept && e !in kept
      requires kept !! Footprint(educations, []) && kept !! Footprint(certifications, []) && kept !! Footprint(skills, [])
      modifies educations, educations.rows.Values, certifications, certifications.rows.Values
      modifies skills, skills.rows.Values
      ensures (Reconciled(educations, e, educationList, |ItemsOf(dto.educationList)|),
               Reconciled(certifications, e, certificationList, |ItemsOf(dto.certifications)|),
               Reconciled(skills, e, skillList, |ItemsOf(dto.skills)|)) == (true, true, true)
      ensures (Pruned(educations, old(educations.rows), Orphans(old(educations.OwnedBy(e)), ItemsOf(dto.educationList))),
               Pruned(certifications, old(certifications.rows), Orphans(old(certifications.OwnedBy(e)), ItemsOf(dto.certifications))),
               Pruned(skills, old(skills.rows), Orphans(old(skills.OwnedBy(e)), ItemsOf(dto.skills)))) == (true, true, true)
      ensures Merged(educationList, ItemsOf(dto.educationList), old(educations.OwnedFields(e)))
      ensures Merged(certificationList, ItemsOf(dto.certifications), old(certifications.OwnedFields(e)))
      ensures Merged(skillList, ItemsOf(dto.skills), old(skills.OwnedFields(e)))
      ensures forall i :: 0 <= i < |ItemsOf(dto.educationList)| ==>
                if Matches(old(educations.OwnedBy(e)), ItemsOf(dto.educationList)[i]) then educationList[i] == old(educations.rows[ItemsOf(dto.educationList)[i].id.value])
                else fresh(educationList[i])
      ensures forall i :: 0 <= i < |ItemsOf(dto.certifications)| ==>
                if Matches(old(certifications.OwnedBy(e)), ItemsOf(dto.certifications)[i]) then certificationList[i] == old(certifications.rows[ItemsOf(dto.certifications)[i].id.value])
                else fresh(certificationList[i])
      ensures forall i :: 0 <= i < |ItemsOf(dto.skills)| ==>
                if Matches(old(skills.OwnedBy(e)), ItemsOf(dto.skills)[i]) then skillList[i] == old(skills.rows[ItemsOf(dto.skills)[i].id.value])
                else fresh(skillList[i])
      ensures unchanged(kept)
    {
      EducationsApart(educations, [], certifications, skills);
      educationList := ReplaceRecords(educations, e, ItemsOf(dto.educationList),
                                      kept + Footprint(certifications, []) + Footprint(skills, []));
      EducationsApart(educations, educationList, certifications, skills);
      certifications.FieldsKept(e);
      skills.FieldsKept(e);
      certificationList, skillList := ReconcileLater(e, dto, kept + Footprint(educations, educationList));
    }

    /** The certification and skill reconciliations; the objects in `kept`
        are left alone. */
    method ReconcileLater(e: Employee, dto: EmployeeDto, ghost kept: set<object>)
      returns (certificationList: seq<Certification>, skillList: seq<Skill>)
      requires certifications.Valid() && skills.Valid()
      requires certifications !in kept && skills !in kept && kept !! Footprint(certifications, []) && kept !! Footprint(skills, [])
      modifies certifications, certifications.rows.Values, skills, skills.rows.Values
      ensures (Reconciled(certifications, e, certificationList, |ItemsOf(dto.certifications)|),
               Reconciled(skills, e, skillList, |ItemsOf(dto.skills)|)) == (true, true)
      ensures (Pruned(certifications, old(certifications.rows), Orphans(old(certifications.OwnedBy(e)), ItemsOf(dto.certifications))),
               Pruned(skills, old(skills.rows), Orphans(old(skills.OwnedBy(e)), ItemsOf(dto.skills)))) == (true, true)
      ensures Merged(certificationList, ItemsOf(dto.certifications), old(certifications.OwnedFields(e)))
      ensures Merged(skillList, ItemsOf(dto.skills), old(skills.OwnedFields(e)))
      ensures forall i :: 0 <= i < |ItemsOf(dto.certifications)| ==>
                if Matches(old(certifications.OwnedBy(e)), ItemsOf(dto.certifications)[i]) then certificationList[i] == old(certifications.rows[ItemsOf(dto.certifications)[i].id.value])
                else fresh(certificationList[i])
      ensures forall i :: 0 <= i < |ItemsOf(dto.skills)| ==>
                if Matches(old(skills.OwnedBy(e)), ItemsOf(dto.skills)[i]) then skillList[i] == old(skills.rows[ItemsOf(dto.skills)[i].id.value])
                else fresh(skillList[i])
      ensures unchanged(kept)
    {
      CertificationsApart(certifications, [], skills);
      certificationList := ReplaceRecords(certifications, e, ItemsOf(dto.certifications), kept + Footprint(skills, []));
      CertificationsApart(certifications, certificationList, skills);
      skills.FieldsKept(e);
      skillList := ReplaceRecords(skills, e, ItemsOf(dto.skills), kept + Footprint(certifications, certificationList));
    }

    /** saveEmployee: the uniqueness check, then the new employee with all its
        records; nothing is written when the check fails. */
    method SaveEmployee(dto: EmployeeDto) returns (r: Result<nat>)
      requires Valid() && Unique()
      modifies employees, educations, certifications, skills, experiences, documents
      ensures Valid() && Unique()
      ensures var check := ValidateUniqueConstraints(old(employees.Contacts()), ContactOf(dto), None);
              (check.Err? ==> r == Err(check.error)) && (r.Ok? <==> check.Ok?)
      ensures r.Err? ==> employees.rows == old(employees.rows) && Tables() == old(Tables())
      ensures r.Ok? ==>
                r.value !in old(employees.rows) && r.value in employees.rows && fresh(employees.rows[r.value]) &&
                employees.rows == old(employees.rows)[r.value := employees.rows[r.value]] &&
                employees.Contacts() == old(employees.Contacts())[r.value := ContactOf(dto)]
      ensures r.Ok? ==> Created(employees.rows[r.value], dto)
      ensures r.Ok? ==> NewRecordsStored(employees.rows[r.value], dto, Tables())
      ensures r.Ok? ==> RecordsGrow(employees.rows[r.value], Tables(), old(Tables()))
    {
      var check := ValidateUniqueConstraints(employees.Contacts(), ContactOf(dto), None);
      if check.Err? {
        return Err(check.error);
      }
      var id := CreateEmployee(dto);
      CreateKeepsContactsUnique(old(employees.Contacts()), ContactOf(dto), id);
      r := Ok(id);
    }

    /** updateEmployee: the employee is looked up, the unique columns are
        validated against the stored row, and only then is anything written:
        the listed documents are deleted, the photo is removed when asked, the
        non-null columns are copied onto the employee and its educations,
        certifications, skills and document metadata are brought in line with
        the request. A failure leaves every table as it was. */
    method UpdateEmployee(id: nat, dto: EmployeeDto) returns (r: Result<nat>)
      requires Valid() && Unique()
      modifies employees.rows.Values, PhotoObjects(), documents, documents.rows.Values, photos
      modifies educations, educations.rows.Values, certifications, certifications.rows.Values, skills, skills.rows.Values
      ensures Valid() && Unique()
      ensures id !in old(employees.rows) ==> r == Err(NotFound("Employee not found"))
      ensures id in old(employees.rows) ==>
                var check := ValidateUniqueConstraints(old(employees.Contacts()), ContactOf(dto), Some(old(employees.Contacts())[id]));
                (check.Err? ==> r == Err(check.error)) && (check.Ok? ==> r == Ok(id))
      ensures r.Err? ==> unchanged(employees, documents, photos, educations, certifications, skills) &&
                         unchanged(old(employees.rows.Values), old(PhotoObjects()), old(documents.rows.Values)) &&
                         unchanged(old(educations.rows.Values), old(certifications.rows.Values), old(skills.rows.Values))
      ensures r.Ok? ==> id in old(employees.rows) && UpdateApplied(id, dto, old(Before(id)))
    {
      if id !in employees.rows {
        return Err(NotFound("Employee not found"));
      }
      var e := employees.rows[id];
      var contacts := employees.Contacts();
      var check := ValidateUniqueConstraints(contacts, ContactOf(dto), Some(contacts[id]));
      if check.Err? {
        return Err(check.error);
      }
      UpdateKeepsContactsUnique(contacts, ContactOf(dto), id);
      ApplyUpdate(id, e, dto);
      r := Ok(id);
    }

    /** deleteEmployee: the educations, certifications, skills and documents
        whose employee column holds `id` are deleted in bulk, then the employee
        row; removing the employee cascades to its experiences and its photo.
        An id with no employee removes no employee and cascades nowhere. */
    method DeleteEmployee(id: nat)
      requires Valid() && Unique()
      modifies employees`rows, educations`rows, certifications`rows, skills`rows, documents`rows
      modifies experiences`rows, photos`rows
      ensures Valid() && Unique()
      ensures employees.rows == old(employees.rows) - {id}
      ensures educations.rows == old(educations.rows) - old(educations.OfEmployeeId(id))
      ensures certifications.rows == old(certifications.rows) - old(certifications.OfEmployeeId(id))
      ensures skills.rows == old(skills.rows) - old(skills.OfEmployeeId(id))
      ensures documents.rows == old(documents.rows) - old(documents.OfEmployeeId(id))
      ensures id in old(employees.rows) ==>
                experiences.rows == old(experiences.rows) - old(experiences.OwnedBy(employees.rows[id])) &&
                photos.rows == old(photos.rows) - old(photos.OwnedBy(employees.rows[id]))
      ensures id !in old(employees.rows) ==> experiences.rows == old(experiences.rows) && photos.rows == old(photos.rows)
    {
      DeleteRecords(id);
      label deleted:
      DeleteRow(id);
      RecordTablesKept@deleted();
    }

    /** Tables whose objects and ids have not changed are as valid as before. */
    twostate lemma RecordTablesKept()
      requires unchanged(educations, certifications, skills, documents)
      requires unchanged(educations.rows.Values`id, certifications.rows.Values`id)
      requires unchanged(skills.rows.Values`id, documents.rows.Values`id)
      requires old(educations.Valid() && certifications.Valid() && skills.Valid() && documents.Valid())
      ensures educations.Valid() && certifications.Valid() && skills.Valid() && documents.Valid()
    {
    }

    /** The four bulk deletes by employee id. */
    method DeleteRecords(id: nat)
      requires educations.Valid() && certifications.Valid() && skills.Valid() && documents.Valid()
      modifies educations`rows, certifications`rows, skills`rows, documents`rows
      ensures educations.Valid() && certifications.Valid() && skills.Valid() && documents.Valid()
      ensures educations.rows == old(educations.rows) - old(educations.OfEmployeeId(id))
      ensures certifications.rows == old(certifications.rows) - old(certifications.OfEmployeeId(id))
      ensures skills.rows == old(skills.rows) - old(skills.OfEmployeeId(id))
      ensures documents.rows == old(documents.rows) - old(documents.OfEmployeeId(id))
      ensures unchanged(experiences.rows.Values, photos.rows.Values)
      ensures id in employees.rows ==>
                experiences.OwnedBy(employees.rows[id]) == old(experiences.OwnedBy(employees.rows[id])) &&
                photos.OwnedBy(employees.rows[id]) == old(photos.OwnedBy(employees.rows[id]))
    {
      DeleteQualifications(id);
      DeleteSkillsAndDocuments(id);
    }

    /** The bulk deletes of the educations and certifications by employee id. */
    method DeleteQualifications(id: nat)
      requires educations.Valid() && certifications.Valid()
      modifies educations`rows, certifications`rows
      ensures educations.Valid() && certifications.Valid()
      ensures educations.rows == old(educations.rows) - old(educations.OfEmployeeId(id))
      ensures certifications.rows == old(certifications.rows) - old(certifications.OfEmployeeId(id))
    {
      educations.DeleteByEmployeeId(id);
      certifications.DeleteByEmployeeId(id);
    }

    /** The bulk deletes of the skills and documents by employee id. */
    method DeleteSkillsAndDocuments(id: nat)
      requires skills.Valid() && documents.Valid()
      modifies skills`rows, documents`rows
      ensures skills.Valid() && documents.Valid()
      ensures skills.rows == old(skills.rows) - old(skills.OfEmployeeId(id))
      ensures documents.rows == old(documents.rows) - old(documents.OfEmployeeId(id))
    {
      skills.DeleteByEmployeeId(id);
      documents.DeleteByEmployeeId(id);
    }

    /** deleteById with its cascade: the employee row goes, and with it the
        experiences and the photo that belong to it. */
    method DeleteRow(id: nat)
      requires employees.Valid() && experiences.Valid() && photos.Valid() && Unique()
      modifies employees`rows, experiences`rows, photos`rows
      ensures employees.Valid() && experiences.Valid() && photos.Valid() && Unique()
      ensures employees.rows == old(employees.rows) - {id}
      ensures id in old(employees.rows) ==>
                experiences.rows == old(experiences.rows) - old(experiences.OwnedBy(employees.rows[id])) &&
                photos.rows == old(photos.rows) - old(photos.OwnedBy(employees.rows[id]))
      ensures id !in old(employees.rows) ==> experiences.rows == old(experiences.rows) && photos.rows == old(photos.rows)
    {
      if id in employees.rows {
        Cascade(employees.rows[id]);
      }
      employees.DeleteById(id);
      DeleteKeepsContactsUnique(old(employees.Contacts()), id);
    }

    /** The records that go with an employee when it is removed. */
    method Cascade(e: Employee)
      requires experiences.Valid() && photos.Valid()
      modifies experiences`rows, photos`rows
      ensures experiences.Valid() && photos.Valid()
      ensures experiences.rows == old(experiences.rows) - old(experiences.OwnedBy(e))
      ensures photos.rows == old(photos.rows) - old(photos.OwnedBy(e))
    {
      experiences.DeleteByEmployee(e);
      photos.DeleteByEmployee(e);
    }

    /** The tables as updateEmployee finds them, for the employee under `id`. */
    ghost function Before(id: nat): UpdateBefore
      requires id in employees.rows
      reads this, employees, employees.rows.Values, documents, documents.rows.Values`documentType
      reads documents.rows.Values`version, photos, educations, educations.rows.Values`employee
      reads certifications, certifications.rows.Values`employee, skills, skills.rows.Values`employee
      reads educations.rows.Values`columns, educations.rows.Values`version
      reads certifications.rows.Values`columns, certifications.rows.Values`version
      reads skills.rows.Values`columns, skills.rows.Values`version
    {
      var e := employees.rows[id];
      UpdateBefore(employees.rows, employees.Contacts(), documents.rows, Metas(), photos.rows, e.profilePhoto, e.details,
                   e.role, educations.rows, certifications.rows, skills.rows, educations.OwnedBy(e),
                   certifications.OwnedBy(e), skills.OwnedBy(e),
                   educations.OwnedFields(e), certifications.OwnedFields(e), skills.OwnedFields(e))
    }

    /** `metas` records the type and version of every stored document. */
    ghost predicate MetasLinked(metas: map<nat, DocMeta>)
      reads this, documents, documents.rows.Values`documentType, documents.rows.Values`version
    {
      forall k :: k in documents.rows ==>
        k in metas && metas[k] == DocMeta(documents.rows[k].documentType, documents.rows[k].version)
    }

    /** The type and version of every stored document. */
    ghost function Metas(): map<nat, DocMeta>
      reads this, documents, documents.rows.Values`documentType, documents.rows.Values`version
    {
      map k | k in documents.rows :: DocMeta(documents.rows[k].documentType, documents.rows[k].version)
    }

    /** Everything a successful updateEmployee promises, against the tables
        before it. */
    ghost predicate UpdateApplied(id: nat, dto: EmployeeDto, b: UpdateBefore)
      reads this, employees, employees.rows.Values, documents, documents.rows.Values, photos, {b.photo}`id
      reads {b.photo}`employee, educations, educations.rows.Values, certifications, certifications.rows.Values
      reads skills, skills.rows.Values
      reads if id in employees.rows then (set c | c in employees.rows[id].educationList) else {}
      reads if id in employees.rows then (set c | c in employees.rows[id].certifications) else {}
      reads if id in employees.rows then (set c | c in employees.rows[id].skills) else {}
    {
      id in employees.rows &&
      UpdatedEmployee(id, dto, b.rows, b.contacts, b.documents, b.photos, b.photo, b.details, b.role) &&
      QualificationsApplied(employees.rows[id], dto, b) && QualificationsMerged(employees.rows[id], dto, b) &&
      DocumentsApplied(employees.rows[id], ItemsOf(dto.documents), b.metas)
    }

    /** The document metadata after updateDocuments: the owner's documents
        carry what MetaAfter gives from their metadata before, the others keep
        theirs. */
    ghost predicate DocumentsApplied(e: Employee, dtos: seq<DocumentDto>, metas: map<nat, DocMeta>)
      reads this, documents, documents.rows.Values`employee, documents.rows.Values`documentType
      reads documents.rows.Values`version
    {
      forall k :: k in documents.rows ==>
                    k in metas &&
                    DocMeta(documents.rows[k].documentType, documents.rows[k].version) ==
                    if documents.rows[k].employee == e then MetaAfter(metas[k], k, dtos) else metas[k]
    }

    /** updateDocuments against the metadata the documents had before. */
    method UpdateDocumentMetas(owner: Employee, dtos: seq<DocumentDto>, ghost metas: map<nat, DocMeta>,
                               ghost kept: set<object>, ghost dto: EmployeeDto, ghost b: UpdateBefore)
      requires documents.Valid() && kept !! DocumentObjects()
      requires MetasLinked(metas)
      requires QualificationsApplied(owner, dto, b) && QualificationsMerged(owner, dto, b)
      modifies documents.rows.Values`documentType, documents.rows.Values`version
      ensures documents.Valid() && DocumentsApplied(owner, dtos, metas)
      ensures unchanged(kept)
      ensures QualificationsApplied(owner, dto, b) && QualificationsMerged(owner, dto, b)
    {
      UpdateDocuments(owner, dtos);
    }

    /** The writes of updateEmployee once validation has passed. */
    method ApplyUpdate(id: nat, e: Employee, dto: EmployeeDto)
      requires Valid() && id in employees.rows && employees.rows[id] == e
      requires UniqueContacts(employees.Contacts()[id := MergeContact(employees.Contacts()[id], ContactOf(dto))])
      modifies employees.rows.Values, PhotoObjects(), documents, documents.rows.Values, photos
      modifies educations, educations.rows.Values, certifications, certifications.rows.Values, skills, skills.rows.Values
      ensures Valid() && Unique()
      ensures UpdateApplied(id, dto, old(Before(id)))
    {
      ghost var b := Before(id);
      SnapshotLinked(id);
      UntouchedApart(e, e.profilePhoto);
      PrepareUpdate(id, e, dto, UntouchedByRowUpdate());
      RecordsKept(id, dto, b);
      FinishUpdate(id, e, dto, b);
    }

    /** The row update leaves the record tables and the stored documents'
        metadata alone. */
    twostate lemma RecordsKept(new id: nat, new dto: EmployeeDto, b: UpdateBefore)
      requires id in b.rows && old(RecordsAsBefore(b.rows[id], b) && MetasLinked(b.metas))
      requires unchanged(old(UntouchedByRowUpdate()))
      requires documents.rows == old(documents.rows) - DocumentsToDelete(dto)
      ensures RecordsAsBefore(b.rows[id], b) && MetasLinked(b.metas)
    {
    }

    /** The snapshot agrees with the tables it was taken from. */
    lemma SnapshotLinked(id: nat)
      requires Valid() && id in employees.rows
      ensures RecordsAsBefore(employees.rows[id], Before(id)) && MetasLinked(Before(id).metas)
    {
    }

    /** The record tables are valid and hold what `b` recorded of them. */
    ghost predicate RecordsAsBefore(e: Employee, b: UpdateBefore)
      reads this, educations, educations.rows.Values`id, educations.rows.Values`employee
      reads certifications, certifications.rows.Values`id, certifications.rows.Values`employee
      reads skills, skills.rows.Values`id, skills.rows.Values`employee, experiences, experiences.rows.Values`id
      reads educations.rows.Values`columns, educations.rows.Values`version
      reads certifications.rows.Values`columns, certifications.rows.Values`version
      reads skills.rows.Values`columns, skills.rows.Values`version
    {
      educations.Valid() && certifications.Valid() && skills.Valid() && experiences.Valid() &&
      educations.rows == b.educations && certifications.rows == b.certifications && skills.rows == b.skills &&
      educations.OwnedBy(e) == b.educationIds && certifications.OwnedBy(e) == b.certificationIds &&
      skills.OwnedBy(e) == b.skillIds &&
      educations.OwnedFields(e) == b.educationFields && certifications.OwnedFields(e) == b.certificationFields &&
      skills.OwnedFields(e) == b.skillFields
    }

    /** updateEmployeeRelationships after the row update, against the tables
        as they were before updateEmployee. */
    method FinishUpdate(id: nat, e: Employee, dto: EmployeeDto, ghost b: UpdateBefore)
      requires employees.Valid() && photos.Valid() && documents.Valid() && Unique()
      requires RecordsAsBefore(e, b) && MetasLinked(b.metas)
      requires id in employees.rows && employees.rows[id] == e
      requires UpdatedEmployee(id, dto, b.rows, b.contacts, b.documents, b.photos, b.photo, b.details, b.role)
      requires MetasLinked(b.metas)
      modifies educations, educations.rows.Values, certifications, certifications.rows.Values
      modifies skills, skills.rows.Values, e`educationList, e`certifications, e`skills
      modifies documents.rows.Values`documentType, documents.rows.Values`version
      ensures Valid() && Unique()
      ensures UpdateApplied(id, dto, b)
    {
      OthersApart(e, b.photo);
      OthersApartFromSkills(e, b.photo);
      ghost var kept := Others(e, b.photo);
      UpdateRelationships(e, dto, kept, b);
      OthersKept(id, dto, b);
    }

    /** What updateEmployeeRelationships leaves alone keeps the row update and
        the tables it does not touch as they were. */
    twostate lemma OthersKept(new id: nat, new dto: EmployeeDto, b: UpdateBefore)
      requires old(id in employees.rows) && id in b.rows && old(employees.rows[id]) == b.rows[id]
      requires unchanged(old(Others(b.rows[id], b.photo)))
      requires unchanged({b.rows[id]}`id, {b.rows[id]}`email, {b.rows[id]}`personalEmail, {b.rows[id]}`mobile)
      requires unchanged({b.rows[id]}`details, {b.rows[id]}`role, {b.rows[id]}`profilePhoto)
      requires old(employees.Valid() && photos.Valid() && experiences.Valid() && Unique())
      requires old(UpdatedEmployee(id, dto, b.rows, b.contacts, b.documents, b.photos, b.photo, b.details, b.role))
      ensures employees.Valid() && photos.Valid() && experiences.Valid() && Unique()
      ensures UpdatedEmployee(id, dto, b.rows, b.contacts, b.documents, b.photos, b.photo, b.details, b.role)
    {
      ValidityKept(id, dto, b);
      RowUpdateKept(id, dto, b);
    }

    /** The tables updateEmployeeRelationships leaves alone stay valid. */
    twostate lemma ValidityKept(new id: nat, new dto: EmployeeDto, b: UpdateBefore)
      requires old(id in employees.rows) && id in b.rows && old(employees.rows[id]) == b.rows[id]
      requires unchanged(old(Others(b.rows[id], b.photo)))
      requires unchanged({b.rows[id]}`id, {b.rows[id]}`email, {b.rows[id]}`personalEmail, {b.rows[id]}`mobile)
      requires unchanged({b.rows[id]}`details, {b.rows[id]}`role, {b.rows[id]}`profilePhoto)
      requires old(employees.Valid() && photos.Valid() && experiences.Valid() && Unique())
      requires old(UpdatedEmployee(id, dto, b.rows, b.contacts, b.documents, b.photos, b.photo, b.details, b.role))
      ensures employees.Valid() && photos.Valid() && experiences.Valid() && Unique()
    {
    }

    /** The row update survives updateEmployeeRelationships. */
    twostate lemma RowUpdateKept(new id: nat, new dto: EmployeeDto, b: UpdateBefore)
      requires old(id in employees.rows) && id in b.rows && old(employees.rows[id]) == b.rows[id]
      requires unchanged(old(Others(b.rows[id], b.photo)))
      requires unchanged({b.rows[id]}`id, {b.rows[id]}`email, {b.rows[id]}`personalEmail, {b.rows[id]}`mobile)
      requires unchanged({b.rows[id]}`details, {b.rows[id]}`role, {b.rows[id]}`profilePhoto)
      requires old(employees.Valid() && photos.Valid() && experiences.Valid() && Unique())
      requires old(UpdatedEmployee(id, dto, b.rows, b.contacts, b.documents, b.photos, b.photo, b.details, b.role))
      ensures UpdatedEmployee(id, dto, b.rows, b.contacts, b.documents, b.photos, b.photo, b.details, b.role)
    {
    }

    /** The photos the employees link to. */
    ghost function PhotoObjects(): set<ProfilePhoto>
      reads this, employees, employees.rows.Values`profilePhoto
    {
      set k | k in employees.rows && employees.rows[k].profilePhoto != null :: employees.rows[k].profilePhoto
    }

    /** What updateEmployee has done to the employee row, the document table
        and the photo table once it succeeds, against their earlier contents:
        the same employees under the same ids, the contact columns merged, the
        other columns overlaid, the listed documents gone and the photo removed
        exactly when asked. */
    ghost predicate UpdatedEmployee(id: nat, dto: EmployeeDto, rowsBefore: map<nat, Employee>, contactsBefore: Contacts,
                                    documentsBefore: map<nat, Document>, photosBefore: map<nat, ProfilePhoto>,
                                    photoBefore: ProfilePhoto?, detailsBefore: Columns, roleBefore: Role)
      reads this, employees, employees.rows.Values`email, employees.rows.Values`personalEmail
      reads employees.rows.Values`mobile, employees.rows.Values`details, employees.rows.Values`role
      reads employees.rows.Values`profilePhoto, documents, photos, {photoBefore}`id, {photoBefore}`employee
    {
      documents.rows == documentsBefore - DocumentsToDelete(dto) &&
      RowUpdated(id, dto, rowsBefore, contactsBefore, photosBefore, photoBefore, detailsBefore, roleBefore)
    }

    /** The employee and photo part of UpdatedEmployee. */
    ghost predicate RowUpdated(id: nat, dto: EmployeeDto, rowsBefore: map<nat, Employee>, contactsBefore: Contacts,
                               photosBefore: map<nat, ProfilePhoto>, photoBefore: ProfilePhoto?,
                               detailsBefore: Columns, roleBefore: Role)
      reads this, employees, employees.rows.Values`email, employees.rows.Values`personalEmail
      reads employees.rows.Values`mobile, employees.rows.Values`details, employees.rows.Values`role
      reads employees.rows.Values`profilePhoto, photos, {photoBefore}`id, {photoBefore}`employee
    {
      employees.rows == rowsBefore && id in employees.rows && id in contactsBefore &&
      employees.Contacts() == contactsBefore[id := MergeContact(contactsBefore[id], ContactOf(dto))] &&
      employees.rows[id].details == detailsBefore + dto.details &&
      employees.rows[id].role == (if dto.role.Some? then dto.role.value else roleBefore) &&
      if PhotoDecision(dto.removeProfilePhoto, dto.profilePhoto) == RemovePhoto then
        employees.rows[id].profilePhoto == null && photos.rows == PhotoRowsAfter(photosBefore, photoBefore) &&
        (photoBefore != null ==> photoBefore.employee == null)
      else
        employees.rows[id].profilePhoto == photoBefore && photos.rows == photosBefore
    }

    /** The steps of updateEmployee before updateEmployeeRelationships, once
        validation has passed: the listed documents are deleted, the photo is
        removed when asked, and the non-null columns are copied onto `e`. */
    method PrepareUpdate(id: nat, e: Employee, dto: EmployeeDto, ghost kept: set<object>)
      requires employees.Valid() && documents.Valid() && photos.Valid()
      requires id in employees.rows && employees.rows[id] == e
      requires UniqueContacts(employees.Contacts()[id := MergeContact(employees.Contacts()[id], ContactOf(dto))])
      requires documents !in kept && photos !in kept && e !in kept && e.profilePhoto !in kept
      modifies documents`rows, photos`rows, e`profilePhoto, {e.profilePhoto}`employee
      modifies e`email, e`personalEmail, e`mobile, e`details, e`role
      ensures employees.Valid() && documents.Valid() && photos.Valid() && Unique()
      ensures UpdatedEmployee(id, dto, old(employees.rows), old(employees.Contacts()), old(documents.rows),
                              old(photos.rows), old(e.profilePhoto), old(e.details), old(e.role))
      ensures unchanged(kept)
    {
      DeleteListedDocuments(e, dto);
      UpdateRow(id, e, dto);
    }

    /** documentRepository.deleteAllById over the listed ids, when there are
        any; the employee row and the photo table are not touched. */
    method DeleteListedDocuments(e: Employee, dto: EmployeeDto)
      requires documents.Valid()
      modifies documents`rows
      ensures documents.Valid() && documents.rows == old(documents.rows) - DocumentsToDelete(dto)
      ensures employees.rows == old(employees.rows) && employees.Contacts() == old(employees.Contacts())
      ensures old(employees.Valid()) ==> employees.Valid()
      ensures photos.rows == old(photos.rows) && (old(photos.Valid()) ==> photos.Valid())
      ensures e.profilePhoto == old(e.profilePhoto) && e.details == old(e.details) && e.role == old(e.role)
    {
      if dto.documentsToDelete.Some? && |dto.documentsToDelete.value| > 0 {
        documents.DeleteAllById(dto.documentsToDelete.value);
      }
    }

    /** The photo removal and the column copy of updateEmployee. */
    method UpdateRow(id: nat, e: Employee, dto: EmployeeDto)
      requires employees.Valid() && photos.Valid()
      requires id in employees.rows && employees.rows[id] == e
      requires UniqueContacts(employees.Contacts()[id := MergeContact(employees.Contacts()[id], ContactOf(dto))])
      modifies photos`rows, e`profilePhoto, {e.profilePhoto}`employee
      modifies e`email, e`personalEmail, e`mobile, e`details, e`role
      ensures employees.Valid() && photos.Valid() && Unique()
      ensures RowUpdated(id, dto, old(employees.rows), old(employees.Contacts()), old(photos.rows),
                         old(e.profilePhoto), old(e.details), old(e.role))
    {
      RowApart(e);
      RemoveProfilePhoto(e, PhotoDecision(dto.removeProfilePhoto, dto.profilePhoto) == RemovePhoto);
      MergeColumns(id, e, dto, old(e.profilePhoto));
    }

    /** The record tables, their rows and the stored documents: what the row
        update leaves alone. */
    ghost function UntouchedByRowUpdate(): set<object>
      reads this, educations, certifications, skills, experiences, documents
    {
      var tables: set<object> := {educations, certifications, skills, experiences};
      var educationRows: set<object> := educations.rows.Values;
      var certificationRows: set<object> := certifications.rows.Values;
      var skillRows: set<object> := skills.rows.Values;
      var experienceRows: set<object> := experiences.rows.Values;
      var documentRows: set<object> := documents.rows.Values;
      tables + educationRows + certificationRows + skillRows + experienceRows + documentRows
    }

    /** None of them is an object the row update writes. */
    lemma UntouchedApart(e: Employee, photo: ProfilePhoto?)
      ensures documents !in UntouchedByRowUpdate() && photos !in UntouchedByRowUpdate() && e !in UntouchedByRowUpdate()
      ensures photo !in UntouchedByRowUpdate()
    {
    }

    /** An employee is neither the employee nor the photo table. */
    lemma RowApart(e: Employee)
      ensures e as object != employees && e as object != photos
    {
    }

    /** The removeProfilePhoto branch, taken when `remove` holds: a stored
        photo is deleted and unlinked. */
    method RemoveProfilePhoto(e: Employee, remove: bool)
      requires photos.Valid()
      modifies photos`rows, e`profilePhoto, {e.profilePhoto}`employee
      ensures photos.Valid() && employees.Contacts() == old(employees.Contacts())
      ensures old(employees.Valid()) ==> employees.Valid()
      ensures remove ==> e.profilePhoto == null && photos.rows == PhotoRowsAfter(old(photos.rows), old(e.profilePhoto)) &&
                         (old(e.profilePhoto) != null ==> old(e.profilePhoto).employee == null)
      ensures !remove ==> e.profilePhoto == old(e.profilePhoto) && photos.rows == old(photos.rows)
    {
      if remove && e.profilePhoto != null {
        if e.profilePhoto.id.Some? {
          photos.Delete(e.profilePhoto.id.value);
        }
        e.SetProfilePhoto(null);
      }
      employees.RowsKept();
    }

    /** ModelMapper's skip-null copy of the request onto the employee: each
        non-null column replaces the stored one, and the id is kept. */
    method MergeColumns(id: nat, e: Employee, dto: EmployeeDto, ghost photo: ProfilePhoto?)
      requires employees.Valid() && id in employees.rows && employees.rows[id] == e
      requires UniqueContacts(employees.Contacts()[id := MergeContact(employees.Contacts()[id], ContactOf(dto))])
      modifies e`email, e`personalEmail, e`mobile, e`details, e`role
      ensures employees.Valid() && Unique()
      ensures employees.rows == old(employees.rows) && photos.rows == old(photos.rows)
      ensures e.profilePhoto == old(e.profilePhoto) && (photo != null ==> photo.employee == old(photo.employee))
      ensures employees.Contacts() == old(employees.Contacts())[id := MergeContact(old(employees.Contacts())[id], ContactOf(dto))]
      ensures e.details == old(e.details) + dto.details
      ensures e.role == if dto.role.Some? then dto.role.value else old(e.role)
    {
      e.OverlayColumns(dto.email, dto.personalEmail, dto.mobile, dto.details, dto.role);
      forall k | k in employees.rows && k != id
        ensures employees.rows[k] != e
      {
        assert employees.rows[k].id == Some(k);
      }
      employees.ContactsAfterColumns(id);
    }

    /** updateEmployeeRelationships: the three reconciliations, then the
        document metadata; the objects in `kept` are left alone. */
    method UpdateRelationships(e: Employee, dto: EmployeeDto, ghost kept: set<object>, ghost b: UpdateBefore)
      requires educations.Valid() && certifications.Valid() && skills.Valid() && documents.Valid()
      requires educations !in kept && certifications !in kept && skills !in kept && e !in kept
      requires kept !! Footprint(educations, []) && kept !! Footprint(certifications, []) && kept !! Footprint(skills, [])
      requires kept !! DocumentObjects()
      requires educations.rows == b.educations && certifications.rows == b.certifications && skills.rows == b.skills
      requires educations.OwnedBy(e) == b.educationIds && certifications.OwnedBy(e) == b.certificationIds
      requires skills.OwnedBy(e) == b.skillIds
      requires educations.OwnedFields(e) == b.educationFields && certifications.OwnedFields(e) == b.certificationFields
      requires skills.OwnedFields(e) == b.skillFields
      requires MetasLinked(b.metas)
      modifies educations, educations.rows.Values, certifications, certifications.rows.Values
      modifies skills, skills.rows.Values, e`educationList, e`certifications, e`skills
      modifies documents.rows.Values`documentType, documents.rows.Values`version
      ensures QualificationsApplied(e, dto, b) && QualificationsMerged(e, dto, b)
      ensures DocumentsApplied(e, ItemsOf(dto.documents), b.metas) && documents.Valid()
      ensures unchanged(kept) && unchanged(e`id, e`email, e`personalEmail, e`mobile, e`details, e`role, e`profilePhoto)
    {
      DocumentsApart();
      ReconcileRecords(e, dto, kept + {documents} + DocumentObjects(), b);
      UpdateDocumentMetas(e, ItemsOf(dto.documents), b.metas, kept + {e}, dto, b);
    }

    /** The stored documents, as objects. */
    ghost function DocumentObjects(): set<object>
      reads this, documents
    {
      var rows: set<object> := documents.rows.Values;
      rows
    }

    /** The documents are none of the education, certification or skill objects. */
    lemma DocumentsApart()
      ensures educations !in DocumentObjects() && certifications !in DocumentObjects() && skills !in DocumentObjects()
      ensures documents !in Footprint(educations, []) && documents !in Footprint(certifications, [])
      ensures documents !in Footprint(skills, [])
      ensures DocumentObjects() !! Footprint(educations, []) && DocumentObjects() !! Footprint(certifications, [])
      ensures DocumentObjects() !! Footprint(skills, [])
    {
    }

    /** What updateEmployeeRelationships leaves alone: the employee, photo and
        experience tables and the rows in them other than `e`, the document
        repository and the photo `e` had before. */
    ghost function Others(e: Employee, photo: ProfilePhoto?): set<object>
      reads this, employees, photos, experiences
    {
      var tables: set<object> := {this, employees, photos, documents, experiences};
      var others: set<object> := employees.rows.Values - {e};
      var photoRows: set<object> := photos.rows.Values;
      var experienceRows: set<object> := experiences.rows.Values;
      var earlier: set<object> := if photo == null then {} else {photo};
      tables + others + photoRows + experienceRows + earlier
    }

    /** Those objects are none of the objects updateEmployeeRelationships changes. */
    lemma OthersApart(e: Employee, photo: ProfilePhoto?)
      ensures educations !in Others(e, photo) && certifications !in Others(e, photo) && skills !in Others(e, photo)
      ensures e !in Others(e, photo)
      ensures Others(e, photo) !! Footprint(educations, []) && Others(e, photo) !! Footprint(certifications, [])
    {
    }

    /** ... and none of the skill and document objects. */
    lemma OthersApartFromSkills(e: Employee, photo: ProfilePhoto?)
      ensures Others(e, photo) !! Footprint(skills, []) && Others(e, photo) !! DocumentObjects()
    {
    }
  }
}
