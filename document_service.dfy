/** DocumentServiceImpl: uploaded documents, kept both as rows and in their
    owner's document list. */
module DocumentService {
  import opened Common
  import opened Text
  import opened Entities
  import opened Dtos
  import opened Repositories

  /** DocumentDTO as convertToDTO fills it. */
  datatype DocumentView = DocumentView(
    id: Option<nat>, fileName: Option<string>, fileType: Option<string>, fileSize: Option<int>,
    data: seq<bv8>, documentType: Option<string>, employeeId: Option<nat>, version: Option<int>)

  function DocumentNotFound(documentId: nat): Error
  {
    NotFound("Document not found with id: " + NatText(documentId))
  }

  class DocumentService {
    const documents: DocumentRepository
    const employees: EmployeeRepository

    ghost predicate Valid()
      reads this, documents, documents.rows.Values`id, employees, employees.rows.Values`id
    {
      documents.Valid() && employees.Valid()
    }

    constructor (documents: DocumentRepository, employees: EmployeeRepository)
      requires documents.Valid() && employees.Valid()
      ensures Valid() && this.documents == documents && this.employees == employees
    {
      this.documents, this.employees := documents, employees;
    }

    /** getDocumentsByEmployeeId: the documents whose employee column holds that
        id; an unknown id simply matches none. */
    function GetDocumentsByEmployeeId(employeeId: nat): (r: set<nat>)
      reads this, documents, documents.rows.Values`employee
      reads (set k | k in documents.rows && documents.rows[k].employee != null :: documents.rows[k].employee)`id
      ensures forall k :: k in r <==>
                k in documents.rows && documents.rows[k].employee != null && documents.rows[k].employee.id == Some(employeeId)
    {
      documents.OfEmployeeId(employeeId)
    }

    /** getDocumentById: convertToDTO reads the owner's id, so a stored document
        without an owner throws. */
    function GetDocumentById(documentId: nat): (r: Result<DocumentView>)
      reads this, documents, documents.rows.Values
      reads (set k | k in documents.rows && documents.rows[k].employee != null :: documents.rows[k].employee)`id
      ensures documentId !in documents.rows ==> r == Err(DocumentNotFound(documentId))
      ensures documentId in documents.rows && documents.rows[documentId].employee == null ==> r == Err(NullPointer)
      ensures r.Ok? <==> documentId in documents.rows && documents.rows[documentId].employee != null
      ensures r.Ok? ==>
                var d := documents.rows[documentId];
                r.value.id == d.id && r.value.employeeId == d.employee.id && r.value.data == d.data &&
                r.value.fileName == d.fileName && r.value.fileType == d.fileType && r.value.fileSize == d.fileSize &&
                r.value.documentType == d.documentType && r.value.version == d.version
    {
      if documentId !in documents.rows then Err(DocumentNotFound(documentId))
      else
        var d := documents.rows[documentId];
        if d.employee == null then Err(NullPointer)
        else Ok(DocumentView(d.id, d.fileName, d.fileType, d.fileSize, d.data, d.documentType, d.employee.id, d.version))
    }

    /** downloadDocument: the stored bytes. */
    function DownloadDocument(documentId: nat): (r: Result<seq<bv8>>)
      reads this, documents, documents.rows.Values`data
      ensures r.Err? <==> documentId !in documents.rows
      ensures r.Err? ==> r.error == DocumentNotFound(documentId)
      ensures r.Ok? ==> r.value == documents.rows[documentId].data
    {
      if documentId !in documents.rows then Err(DocumentNotFound(documentId)) else Ok(documents.rows[documentId].data)
    }

    /** `new Document()` filled from the upload. */
    static method NewDocument(file: Upload, documentType: string, employee: Employee) returns (d: Document)
      ensures fresh(d) && d.id == None && d.version == None && d.employee == employee
      ensures d.fileName == file.originalFilename && d.fileType == file.contentType
      ensures d.fileSize == Some(|file.bytes|) && d.data == file.bytes && d.documentType == Some(documentType)
    {
      d := new Document.New(file.originalFilename, file.contentType, Some(|file.bytes|), file.bytes, Some(documentType));
      d.employee := employee;
    }

    /** uploadDocument: stores the file for an existing employee and appends it to
        that employee's documents. A null document list throws after the save,
        which the transaction undoes. */
    method UploadDocument(employeeId: nat, file: Upload, documentType: string) returns (r: Result<nat>)
      requires Valid()
      modifies documents, if employeeId in employees.rows then {employees.rows[employeeId]} else {}
      ensures Valid()
      ensures employeeId !in employees.rows ==>
                r == Err(NotFound("Employee not found with id: " + NatText(employeeId))) && documents.rows == old(documents.rows)
      ensures employeeId in employees.rows && old(employees.rows[employeeId].documents).None? ==>
                r == Err(NullPointer) && documents.rows == old(documents.rows) && unchanged(employees.rows[employeeId])
      ensures r.Ok? <==> employeeId in employees.rows && old(employees.rows[employeeId].documents).Some?
      ensures r.Ok? ==>
                var e := employees.rows[employeeId];
                r.value !in old(documents.rows) && r.value in documents.rows && fresh(documents.rows[r.value]) &&
                documents.rows == old(documents.rows)[r.value := documents.rows[r.value]] &&
                e.documents == Some(old(e.documents.value) + [documents.rows[r.value]])
      ensures r.Ok? ==>
                var d := documents.rows[r.value];
                d.employee == employees.rows[employeeId] && d.documentType == Some(documentType) && d.version == Some(0) &&
                d.fileName == file.originalFilename && d.fileType == file.contentType &&
                d.fileSize == Some(|file.bytes|) && d.data == file.bytes
      ensures r.Ok? ==> r.value in GetDocumentsByEmployeeId(employeeId) && DownloadDocument(r.value) == Ok(file.bytes)
    {
      if employeeId !in employees.rows {
        return Err(NotFound("Employee not found with id: " + NatText(employeeId)));
      }
      var employee := employees.rows[employeeId];
      if employee.documents.None? {
        return Err(NullPointer);
      }
      var document := NewDocument(file, documentType, employee);
      var id := documents.Insert(document);
      employee.documents := Some(employee.documents.value + [document]);
      assert documents.rows[id] == document;
      r := Ok(id);
    }

    /** deleteDocument: the document leaves its owner's list, if it has an owner,
        and then its row is deleted; the document keeps pointing at its owner. */
    method DeleteDocument(documentId: nat) returns (r: Result<()>)
      requires Valid()
      modifies documents`rows
      modifies (if documentId in documents.rows && documents.rows[documentId].employee != null
                then {documents.rows[documentId].employee} else {})`documents
      ensures Valid()
      ensures documentId !in old(documents.rows) ==> r == Err(DocumentNotFound(documentId)) && documents.rows == old(documents.rows)
      ensures documentId in old(documents.rows) && old(documents.rows[documentId].employee) == null ==>
                r == Ok(())
      ensures documentId in old(documents.rows) && old(documents.rows[documentId].employee) != null ==>
                var owner := old(documents.rows[documentId].employee);
                (old(owner.documents).None? ==> r == Err(NullPointer) && documents.rows == old(documents.rows) &&
                                                  owner.documents == None) &&
                (old(owner.documents).Some? ==> r == Ok(()) &&
                                                  owner.documents == Some(RemoveFirst(old(owner.documents.value), old(documents.rows[documentId]))))
      ensures r.Ok? ==> documents.rows == old(documents.rows) - {documentId}
      ensures r.Ok? ==> DownloadDocument(documentId) == Err(DocumentNotFound(documentId))
    {
      if documentId !in documents.rows {
        return Err(DocumentNotFound(documentId));
      }
      var document := documents.rows[documentId];
      var owner := document.employee;
      if owner != null {
        if owner.documents.None? {
          return Err(NullPointer);
        }
        owner.documents := Some(RemoveFirst(owner.documents.value, document));
      }
      documents.Delete(documentId);
      assert documentId !in documents.rows;
      r := Ok(());
    }
  }
}
