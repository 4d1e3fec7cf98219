/** ProfilePhotoService: one photo row per employee, replaced on upload. */
module PhotoService {
  import opened Common
  import opened Text
  import opened Entities
  import opened Dtos
  import opened EmployeeQueries
  import opened Repositories

  class ProfilePhotoService {
    const photos: ProfilePhotoRepository
    const employees: EmployeeRepository

    /** Both tables are well formed and the unique employee column holds. */
    ghost predicate Valid()
      reads this, photos, photos.rows.Values`id, photos.rows.Values`employee, employees, employees.rows.Values`id
    {
      photos.Valid() && employees.Valid() && photos.AtMostOnePerEmployee()
    }

    constructor (photos: ProfilePhotoRepository, employees: EmployeeRepository)
      requires photos.Valid() && employees.Valid() && photos.AtMostOnePerEmployee()
      ensures Valid() && this.photos == photos && this.employees == employees
    {
      this.photos, this.employees := photos, employees;
    }

    /** getProfilePhoto: the photo whose employee column holds employeeId, if any. */
    function GetProfilePhoto(employeeId: nat): (r: Result<Option<nat>>)
      reads this, photos, photos.rows.Values`employee
      reads (set k | k in photos.rows && photos.rows[k].employee != null :: photos.rows[k].employee)`id
      ensures r == Ok(None) <==>
                forall k :: k in photos.rows && photos.rows[k].employee != null ==> photos.rows[k].employee.id != Some(employeeId)
      ensures forall k: nat :: r == Ok(Some(k)) <==> photos.OfEmployeeId(employeeId) == {k}
      ensures forall k: nat :: r == Ok(Some(k)) ==>
                k in photos.rows && photos.rows[k].employee != null && photos.rows[k].employee.id == Some(employeeId)
      ensures r.Err? <==> exists a, b :: a in photos.OfEmployeeId(employeeId) && b in photos.OfEmployeeId(employeeId) && a != b
      ensures r.Err? ==> r.error == NonUniqueResult
    {
      var owned := photos.OfEmployeeId(employeeId);
      assert forall k: nat :: owned == {k} ==> k in owned;
      SingleResult(owned)
    }

    /** `new ProfilePhoto()` filled from the upload and linked to its employee. */
    static method NewPhoto(file: Upload, employee: Employee) returns (photo: ProfilePhoto)
      ensures fresh(photo) && photo.id == None && photo.employee == employee
      ensures photo.fileName == file.originalFilename && photo.fileType == file.contentType
      ensures photo.fileSize == Some(|file.bytes|) && photo.data == file.bytes
    {
      photo := new ProfilePhoto.New(file.originalFilename, file.contentType, Some(|file.bytes|), file.bytes);
      photo.employee := employee;
    }

    /** deleteProfilePhoto: removes every photo of that employee id. */
    method DeleteProfilePhoto(employeeId: nat)
      requires Valid()
      modifies photos`rows
      ensures Valid()
      ensures photos.rows == old(photos.rows) - old(photos.OfEmployeeId(employeeId))
      ensures GetProfilePhoto(employeeId) == Ok(None)
    {
      photos.DeleteByEmployeeId(employeeId);
    }

    /** uploadProfilePhoto: the employee must exist and the file must be present
        and non-empty; the old photo is then replaced by the new one. The whole
        call is one transaction, so a rejected file leaves the old photo. */
    method UploadProfilePhoto(employeeId: nat, file: Option<Upload>) returns (r: Result<nat>)
      requires Valid()
      modifies photos
      ensures Valid()
      ensures employeeId !in old(employees.rows) ==>
                r == Err(NotFound("Employee not found with id: " + NatText(employeeId))) && photos.rows == old(photos.rows)
      ensures employeeId in old(employees.rows) && (file.None? || |file.value.bytes| == 0) ==>
                r == Err(IllegalArgument("File cannot be empty")) && photos.rows == old(photos.rows)
      ensures r.Ok? <==> employeeId in old(employees.rows) && file.Some? && |file.value.bytes| > 0
      ensures r.Ok? ==>
                r.value !in old(photos.rows) && r.value in photos.rows && fresh(photos.rows[r.value]) &&
                photos.rows == (old(photos.rows) - old(photos.OfEmployeeId(employeeId)))[r.value := photos.rows[r.value]]
      ensures r.Ok? ==>
                var p := photos.rows[r.value];
                p.employee == employees.rows[employeeId] && p.fileName == file.value.originalFilename &&
                p.fileType == file.value.contentType && p.fileSize == Some(|file.value.bytes|) && p.data == file.value.bytes
      ensures r.Ok? ==> GetProfilePhoto(employeeId) == Ok(Some(r.value))
    {
      if employeeId !in employees.rows {
        return Err(NotFound("Employee not found with id: " + NatText(employeeId)));
      }
      if file.None? || |file.value.bytes| == 0 {
        return Err(IllegalArgument("File cannot be empty"));
      }
      var photo := NewPhoto(file.value, employees.rows[employeeId]);
      var id := photos.Replace(employeeId, photo);
      assert photos.rows[id] == photo;
      r := Ok(id);
    }
  }
}
