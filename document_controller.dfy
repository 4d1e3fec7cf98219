/** The checks DocumentController makes on an upload before it calls the
    document service. */
module DocumentController {
  import opened Common
  import opened Text
  import opened Dtos
  import DocumentService

  /** The largest accepted document, 5 MiB. */
  const MaxDocumentSize: nat := 5 * 1024 * 1024

  const PdfType := "application/pdf"
  const DocType := "application/msword"
  const DocxType := "application/vnd.openxmlformats-officedocument.wordprocessingml.document"

  /** isValidDocumentType */
  predicate IsValidDocumentType(contentType: Option<string>)
  {
    contentType.Some? && (contentType.value == PdfType || contentType.value == DocType || contentType.value == DocxType)
  }

  /** The three checks in order: empty, then size, then content type. */
  function ValidateUpload(file: Upload): (r: Result<()>)
    ensures r.Ok? <==> 0 < |file.bytes| <= MaxDocumentSize && IsValidDocumentType(file.contentType)
    ensures |file.bytes| == 0 ==> r == Err(IllegalArgument("File cannot be empty"))
    ensures 0 < |file.bytes| && |file.bytes| > MaxDocumentSize ==> r == Err(IllegalArgument("File size exceeds 5MB limit"))
    ensures 0 < |file.bytes| <= MaxDocumentSize && !IsValidDocumentType(file.contentType) ==>
              r == Err(IllegalArgument("Invalid file type. Only PDF, DOC, DOCX are allowed"))
  {
    if |file.bytes| == 0 then Err(IllegalArgument("File cannot be empty"))
    else if |file.bytes| > MaxDocumentSize then Err(IllegalArgument("File size exceeds 5MB limit"))
    else if !IsValidDocumentType(file.contentType) then Err(IllegalArgument("Invalid file type. Only PDF, DOC, DOCX are allowed"))
    else Ok(())
  }

  /** The size bound is inclusive: a PDF of exactly 5 MiB passes, one byte more
      does not. */
  lemma SizeLimitIsInclusive(data: seq<bv8>, name: Option<string>)
    requires |data| == 5 * 1024 * 1024
    ensures ValidateUpload(Upload(name, Some(PdfType), data)).Ok?
    ensures ValidateUpload(Upload(name, Some(PdfType), data + [0])) == Err(IllegalArgument("File size exceeds 5MB limit"))
  {
  }

  /** The content type must equal one of the three exactly: a parameter or a
      different case is refused. */
  lemma ContentTypeMustMatchExactly()
    ensures !IsValidDocumentType(Some("application/pdf; charset=binary"))
    ensures !IsValidDocumentType(Some("Application/PDF"))
    ensures !IsValidDocumentType(None)
  {
    assert |"application/pdf; charset=binary"| != |PdfType|;
    assert "Application/PDF"[0] != PdfType[0];
  }

  const UploadFailurePrefix := "Failed to upload document: "

  /** uploadDocument: the three checks, then the service; every failure,
      including an unknown employee, comes back as one RuntimeException whose
      message starts with UploadFailurePrefix. */
  method UploadDocument(service: DocumentService.DocumentService, employeeId: nat, file: Upload, documentType: string)
    returns (r: Result<nat>)
    requires service.Valid()
    modifies service.documents, if employeeId in service.employees.rows then {service.employees.rows[employeeId]} else {}
    ensures service.Valid()
    ensures ValidateUpload(file).Err? ==>
              r == Err(Wrapped(UploadFailurePrefix, ValidateUpload(file).error)) &&
              service.documents.rows == old(service.documents.rows)
    ensures ValidateUpload(file).Ok? && employeeId !in service.employees.rows ==>
              r == Err(Wrapped(UploadFailurePrefix, NotFound("Employee not found with id: " + NatText(employeeId))))
    ensures ValidateUpload(file).Ok? && employeeId in service.employees.rows &&
            old(service.employees.rows[employeeId].documents).None? ==>
              r == Err(Wrapped(UploadFailurePrefix, NullPointer))
    ensures r.Err? ==> r.error.Wrapped? && r.error.prefix == UploadFailurePrefix
    ensures r.Err? ==> service.documents.rows == old(service.documents.rows)
    ensures r.Ok? <==> ValidateUpload(file).Ok? && employeeId in service.employees.rows &&
                       old(service.employees.rows[employeeId].documents).Some?
    ensures r.Ok? ==>
              var e := service.employees.rows[employeeId];
              r.value !in old(service.documents.rows) && r.value in service.documents.rows &&
              fresh(service.documents.rows[r.value]) &&
              service.documents.rows == old(service.documents.rows)[r.value := service.documents.rows[r.value]] &&
              e.documents == Some(old(e.documents.value) + [service.documents.rows[r.value]])
    ensures r.Ok? ==>
              var d := service.documents.rows[r.value];
              d.employee == service.employees.rows[employeeId] && d.documentType == Some(documentType) &&
              d.version == Some(0) && d.fileName == file.originalFilename && d.fileType == file.contentType &&
              d.fileSize == Some(|file.bytes|) && d.data == file.bytes
    ensures r.Ok? ==> r.value in service.GetDocumentsByEmployeeId(employeeId) &&
                      service.DownloadDocument(r.value) == Ok(file.bytes)
  {
    var check := ValidateUpload(file);
    if check.Err? {
      return Err(Wrapped(UploadFailurePrefix, check.error));
    }
    var stored := service.UploadDocument(employeeId, file, documentType);
    if stored.Err? {
      return Err(Wrapped(UploadFailurePrefix, stored.error));
    }
    r := stored;
  }
}
