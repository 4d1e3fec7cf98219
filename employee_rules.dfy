/** The decisions of EmployeeServiceImpl that only read the store: the lookups,
    the unique-column validation and the profile-photo intent of an update. */
module EmployeeRules {
  import opened Common
  import opened Text
  import opened Dtos
  import opened EmployeeQueries

  /** getEmployeeById */
  function GetEmployeeById(t: Contacts, id: nat): (r: Result<Contact>)
    ensures r.Ok? <==> id in t
    ensures r.Ok? ==> r.value == t[id]
    ensures r.Err? ==> r.error == NotFound("Employee not found with id: " + NatText(id))
  {
    FindById(t, id, "Employee")
  }

  function ContactOf(dto: EmployeeDto): Contact
  {
    Contact(dto.email, dto.personalEmail, dto.mobile)
  }

  /** The contact columns after the skip-null merge of an update. */
  function MergeContact(current: Contact, incoming: Contact): Contact
  {
    Contact(Overlay(current.email, incoming.email), Overlay(current.personalEmail, incoming.personalEmail),
            Overlay(current.mobile, incoming.mobile))
  }

  /** One column of validateUniqueConstraints. `current` is None when there is no
      existing employee, and Some(v) for an existing employee whose column holds v;
      comparing a null v throws. The existence query runs only when the column is
      new or changed. */
  function CheckColumn(current: Option<Option<string>>, incoming: Option<string>, taken: bool, message: string): Result<()>
  {
    if current.Some? && current.value.None? then Err(NullPointer)
    else if (current.None? || current.value != incoming) && taken then Err(IllegalArgument(message))
    else Ok(())
  }

  function CurrentEmail(existing: Option<Contact>): Option<Option<string>>
  {
    if existing.Some? then Some(existing.value.email) else None
  }

  function CurrentPersonalEmail(existing: Option<Contact>): Option<Option<string>>
  {
    if existing.Some? then Some(existing.value.personalEmail) else None
  }

  function CurrentMobile(existing: Option<Contact>): Option<Option<string>>
  {
    if existing.Some? then Some(existing.value.mobile) else None
  }

  /** A column passes its check: there is no existing employee and the value is
      not taken, or the existing employee's value is not null and is unchanged or
      not taken. */
  predicate ColumnPasses(current: Option<Option<string>>, incoming: Option<string>, taken: bool)
  {
    if current.None? then !taken else current.value.Some? && (current.value == incoming || !taken)
  }

  /** validateUniqueConstraints: email, then personal email, then mobile. */
  function ValidateUniqueConstraints(t: Contacts, dto: Contact, existing: Option<Contact>): (r: Result<()>)
    ensures existing.None? ==>
              (r.Ok? <==> !ExistsByEmail(t, dto.email) && !ExistsByPersonalEmail(t, dto.personalEmail) &&
                          !ExistsByMobile(t, dto.mobile))
    ensures existing.Some? ==>
              (r.Ok? <==> var c := existing.value;
                          c.email.Some? && c.personalEmail.Some? && c.mobile.Some? &&
                          (c.email == dto.email || !ExistsByEmail(t, dto.email)) &&
                          (c.personalEmail == dto.personalEmail || !ExistsByPersonalEmail(t, dto.personalEmail)) &&
                          (c.mobile == dto.mobile || !ExistsByMobile(t, dto.mobile)))
    ensures ((existing.None? || (existing.value.email.Some? && existing.value.email != dto.email)) &&
             ExistsByEmail(t, dto.email)) ==> r == Err(IllegalArgument("Email already exists"))
    ensures existing.Some? && existing.value.email.None? ==> r == Err(NullPointer)
    ensures ColumnPasses(CurrentEmail(existing), dto.email, ExistsByEmail(t, dto.email)) &&
            existing.Some? && existing.value.personalEmail.None? ==>
              r == Err(NullPointer)
    ensures ColumnPasses(CurrentEmail(existing), dto.email, ExistsByEmail(t, dto.email)) &&
            (existing.None? || (existing.value.personalEmail.Some? && existing.value.personalEmail != dto.personalEmail)) &&
            ExistsByPersonalEmail(t, dto.personalEmail) ==>
              r == Err(IllegalArgument("Personal email already exists"))
    ensures ColumnPasses(CurrentEmail(existing), dto.email, ExistsByEmail(t, dto.email)) &&
            ColumnPasses(CurrentPersonalEmail(existing), dto.personalEmail, ExistsByPersonalEmail(t, dto.personalEmail)) &&
            existing.Some? && existing.value.mobile.None? ==>
              r == Err(NullPointer)
    ensures ColumnPasses(CurrentEmail(existing), dto.email, ExistsByEmail(t, dto.email)) &&
            ColumnPasses(CurrentPersonalEmail(existing), dto.personalEmail, ExistsByPersonalEmail(t, dto.personalEmail)) &&
            (existing.None? || (existing.value.mobile.Some? && existing.value.mobile != dto.mobile)) &&
            ExistsByMobile(t, dto.mobile) ==>
              r == Err(IllegalArgument("Mobile number already exists"))
    ensures r.Err? ==> r.error in {NullPointer, IllegalArgument("Email already exists"),
                                   IllegalArgument("Personal email already exists"),
                                   IllegalArgument("Mobile number already exists")}
  {
    var email := CheckColumn(CurrentEmail(existing), dto.email, ExistsByEmail(t, dto.email), "Email already exists");
    if email.Err? then email
    else
      var personal := CheckColumn(CurrentPersonalEmail(existing), dto.personalEmail,
                                  ExistsByPersonalEmail(t, dto.personalEmail), "Personal email already exists");
      if personal.Err? then personal
      else CheckColumn(CurrentMobile(existing), dto.mobile, ExistsByMobile(t, dto.mobile), "Mobile number already exists")
  }

  /** Creating an employee that passed validation under a fresh id keeps every
      unique column unique. */
  lemma CreateKeepsContactsUnique(t: Contacts, dto: Contact, id: nat)
    requires UniqueContacts(t) && id !in t
    requires ValidateUniqueConstraints(t, dto, None).Ok?
    ensures UniqueContacts(t[id := dto])
  {
    var t' := t[id := dto];
    forall a, b | a in t' && b in t' && a != b
      ensures ContactsApart(t'[a], t'[b])
    {
      if a == id {
        assert b in t && t[b] == t'[b];
      } else if b == id {
        assert a in t && t[a] == t'[a];
      } else {
        assert t[a] == t'[a] && t[b] == t'[b];
      }
    }
  }

  /** An update that passed validation keeps every unique column unique: a column
      either keeps the employee's own value or takes one nobody holds. */
  lemma UpdateKeepsContactsUnique(t: Contacts, dto: Contact, id: nat)
    requires UniqueContacts(t) && id in t
    requires ValidateUniqueConstraints(t, dto, Some(t[id])).Ok?
    ensures UniqueContacts(t[id := MergeContact(t[id], dto)])
  {
    var c := MergeContact(t[id], dto);
    var t' := t[id := c];
    assert c.email == t[id].email || forall k :: k in t ==> t[k].email != c.email;
    assert c.personalEmail == t[id].personalEmail || forall k :: k in t ==> t[k].personalEmail != c.personalEmail;
    assert c.mobile == t[id].mobile || forall k :: k in t ==> t[k].mobile != c.mobile;
    forall a, b | a in t' && b in t' && a != b
      ensures ContactsApart(t'[a], t'[b])
    {
      if a == id {
        assert b in t && t[b] == t'[b] && ContactsApart(t[id], t[b]);
      } else if b == id {
        assert a in t && t[a] == t'[a] && ContactsApart(t[a], t[id]);
      } else {
        assert t[a] == t'[a] && t[b] == t'[b];
      }
    }
  }

  /** Removing an employee keeps every unique column unique. */
  lemma DeleteKeepsContactsUnique(t: Contacts, id: nat)
    requires UniqueContacts(t)
    ensures UniqueContacts(t - {id})
  {
    var t' := t - {id};
    forall a, b | a in t' && b in t' && a != b
      ensures ContactsApart(t'[a], t'[b])
    {
      assert t[a] == t'[a] && t[b] == t'[b];
    }
  }

  /** A derived query given null asks for a null column, so a new employee without
      an email is refused as soon as one stored employee lacks an email. */
  lemma MissingEmailClashesWithMissingEmail()
    ensures var t := map[7 := Contact(None, Some("p@x"), Some("1"))];
            ValidateUniqueConstraints(t, Contact(None, Some("q@x"), Some("2")), None)
              == Err(IllegalArgument("Email already exists"))
  {
    var t := map[7 := Contact(None, Some("p@x"), Some("1"))];
    assert t[7].email == None;
  }

  /** getEmployeeByEmail: by email or personal email, then by personal email, and for
      an identifier starting with "auth0|" the same two lookups on the text after the
      first '|'. A match on the identifier as given decides before any stripping. */
  function GetEmployeeByEmail(t: Contacts, email: string): (r: Result<nat>)
    ensures forall k: nat :: OnlyMatch(t, email, k) ==> r == Ok(k)
    ensures AmbiguousMatch(t, email) ==> r == Err(NonUniqueResult)
    ensures NoMatch(t, email) && StartsWith(email, "auth0|") ==>
              var clean := AfterFirst(email, '|');
              (forall k: nat :: r == Ok(k) <==> OnlyMatch(t, clean, k)) &&
              (r == Err(NonUniqueResult) <==> AmbiguousMatch(t, clean))
    ensures r == Err(NotFound("Employee not found with identifier: " + email)) <==>
              NoMatch(t, email) && (StartsWith(email, "auth0|") ==> NoMatch(t, AfterFirst(email, '|')))
    ensures r.Err? ==> r.error == NonUniqueResult || r.error == NotFound("Employee not found with identifier: " + email)
  {
    var found := FindEither(t, email);
    var found := if found == Ok(None) && StartsWith(email, "auth0|") then FindEither(t, AfterFirst(email, '|')) else found;
    if found.Err? then Err(found.error)
    else if found.value.Some? then Ok(found.value.value)
    else Err(NotFound("Employee not found with identifier: " + email))
  }

  /** Only the "auth0|" prefix is stripped: an identifier of another provider whose
      suffix is a stored email is not found. */
  lemma OtherProviderPrefixNotStripped()
    ensures var t := map[1 := Contact(Some("a@x"), None, None)];
            GetEmployeeByEmail(t, "google|a@x") == Err(NotFound("Employee not found with identifier: google|a@x"))
  {
    var t := map[1 := Contact(Some("a@x"), None, None)];
    assert !StartsWith("google|a@x", "auth0|") by {
      assert "google|a@x"[0] != "auth0|"[0];
    }
    assert !MatchesEither(t[1], "google|a@x");
  }

  /** An "auth0|" identifier that matches nobody as it stands falls back to the
      one employee whose email or personal email is the text after the prefix. */
  lemma Auth0IdentifierFallsBack(t: Contacts, e: string, k: nat)
    requires forall j :: j in t ==> !MatchesEither(t[j], "auth0|" + e)
    requires k in t && MatchesEither(t[k], e)
    requires forall j :: j in t && MatchesEither(t[j], e) ==> j == k
    ensures GetEmployeeByEmail(t, "auth0|" + e) == Ok(k)
  {
    var id := "auth0|" + e;
    assert id == "auth0" + ['|'] + e;
    AfterFirstOfPrefixed("auth0", '|', e);
    assert StartsWith(id, "auth0|");
    assert FindByEmail(t, id) == Ok(None);
    assert FindByPersonalEmail(t, id) == Ok(None);
    var found := FindByEmail(t, e);
    assert found != Ok(None) && !found.Err?;
  }

  /** What an update does with the profile photo. */
  datatype PhotoIntent = RemovePhoto | KeepExisting | UseIncoming(photo: PhotoDto)

  /** The photo branch of updateEmployee: an explicit removal wins; otherwise an
      incoming photo without data stands for the existing one. */
  function PhotoDecision(removeProfilePhoto: Option<bool>, incoming: Option<PhotoDto>): (r: PhotoIntent)
    ensures r == RemovePhoto <==> removeProfilePhoto == Some(true)
    ensures r == KeepExisting <==> removeProfilePhoto != Some(true) && (incoming.None? || !HasPhotoData(incoming.value))
    ensures r.UseIncoming? ==> incoming == Some(r.photo) && HasPhotoData(r.photo)
  {
    if removeProfilePhoto == Some(true) then RemovePhoto
    else if incoming.None? || !HasPhotoData(incoming.value) then KeepExisting
    else UseIncoming(incoming.value)
  }
}
