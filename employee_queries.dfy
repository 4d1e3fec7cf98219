/** The EmployeeRepository queries, over a snapshot of the three unique contact
    columns of every stored employee, keyed by employee id. */
module EmployeeQueries {
  import opened Common

  datatype Contact = Contact(email: Option<string>, personalEmail: Option<string>, mobile: Option<string>)

  type Contacts = map<nat, Contact>

  /** `existsByEmail`, a derived query: a null argument asks for a null column. */
  predicate ExistsByEmail(t: Contacts, email: Option<string>)
  {
    exists k :: k in t && t[k].email == email
  }

  predicate ExistsByPersonalEmail(t: Contacts, personalEmail: Option<string>)
  {
    exists k :: k in t && t[k].personalEmail == personalEmail
  }

  predicate ExistsByMobile(t: Contacts, mobile: Option<string>)
  {
    exists k :: k in t && t[k].mobile == mobile
  }

  /** The three columns declared unique: no non-null value appears twice in a column
      (a unique index lets any number of rows hold null). */
  predicate UniqueContacts(t: Contacts)
  {
    forall a, b {:trigger ContactsApart(t[a], t[b])} :: a in t && b in t && a != b ==> ContactsApart(t[a], t[b])
  }

  /** No non-null column value of `x` is the same column's value in `y`. */
  predicate ContactsApart(x: Contact, y: Contact)
  {
    (x.email.Some? ==> x.email != y.email) &&
    (x.personalEmail.Some? ==> x.personalEmail != y.personalEmail) &&
    (x.mobile.Some? ==> x.mobile != y.mobile)
  }

  /** Whether an employee is selected when `x` is compared with its email or its
      personal email. */
  predicate MatchesEither(c: Contact, x: string)
  {
    c.email == Some(x) || c.personalEmail == Some(x)
  }

  /** `k` is the one employee selected by `x`. */
  predicate OnlyMatch(t: Contacts, x: string, k: nat)
  {
    k in t && MatchesEither(t[k], x) && forall j :: j in t && MatchesEither(t[j], x) ==> j == k
  }

  /** Two different employees are selected by `x`. */
  predicate AmbiguousMatch(t: Contacts, x: string)
  {
    exists a, b :: a in t && b in t && a != b && MatchesEither(t[a], x) && MatchesEither(t[b], x)
  }

  /** No employee is selected by `x`. */
  predicate NoMatch(t: Contacts, x: string)
  {
    forall k :: k in t ==> !MatchesEither(t[k], x)
  }

  lemma TwoDistinct<T>(s: set<T>)
    requires |s| >= 2
    ensures exists a, b :: a in s && b in s && a != b
  {
    var a :| a in s;
    assert |s - {a}| == |s| - 1;
    var b :| b in s - {a};
  }

  /** A query returning Optional: empty when no row matches, the row when exactly
      one does, and an IncorrectResultSizeDataAccessException when several do. */
  function SingleResult(ids: set<nat>): (r: Result<Option<nat>>)
    ensures r == Ok(None) <==> ids == {}
    ensures forall k: nat :: r == Ok(Some(k)) <==> ids == {k}
    ensures r.Err? <==> exists a, b :: a in ids && b in ids && a != b
    ensures r.Err? ==> r.error == NonUniqueResult
  {
    if |ids| == 0 then Ok(None)
    else if |ids| == 1 then Ok(Some(The(ids)))
    else TwoDistinct(ids); Err(NonUniqueResult)
  }

  /** `findByEmail`: the JPQL query compares the argument with both the email and
      the personal email column. */
  function FindByEmail(t: Contacts, x: string): (r: Result<Option<nat>>)
    ensures r == Ok(None) <==> NoMatch(t, x)
    ensures forall k: nat :: r == Ok(Some(k)) <==> OnlyMatch(t, x, k)
    ensures r.Err? <==> AmbiguousMatch(t, x)
    ensures r.Err? ==> r.error == NonUniqueResult
  {
    var ids := set k | k in t && MatchesEither(t[k], x);
    assert forall k :: k in ids <==> k in t && MatchesEither(t[k], x);
    forall k: nat
      ensures ids == {k} <==> OnlyMatch(t, x, k)
    {
      if OnlyMatch(t, x, k) {
        assert forall j :: j in ids <==> j == k;
      }
    }
    SingleResult(ids)
  }

  /** `findByPersonalEmail`: a derived query on the personal email column only. */
  function FindByPersonalEmail(t: Contacts, x: string): (r: Result<Option<nat>>)
    ensures r == Ok(None) <==> forall k :: k in t ==> t[k].personalEmail != Some(x)
    ensures forall k :: r == Ok(Some(k)) ==> k in t && t[k].personalEmail == Some(x)
    ensures r.Err? <==> exists a, b :: a in t && b in t && a != b && t[a].personalEmail == Some(x) && t[b].personalEmail == Some(x)
  {
    var ids := set k | k in t && t[k].personalEmail == Some(x);
    assert forall k :: k in ids <==> k in t && t[k].personalEmail == Some(x);
    SingleResult(ids)
  }

  /** The personal-email finder never sees a row the email finder missed, so the
      second lookup of a fallback chain can only repeat an empty answer. */
  lemma PersonalLookupAddsNothing(t: Contacts, x: string)
    requires FindByEmail(t, x) == Ok(None)
    ensures FindByPersonalEmail(t, x) == Ok(None)
  {
    forall k | k in t
      ensures t[k].personalEmail != Some(x)
    {
      assert !MatchesEither(t[k], x);
    }
  }

  /** Optional.or for a finder: the second lookup counts only when the first found
      nothing (and a failing first lookup has already thrown). */
  function OrElse(first: Result<Option<nat>>, second: Result<Option<nat>>): Result<Option<nat>>
  {
    if first == Ok(None) then second else first
  }

  /** `findByEmail(x).or(() -> findByPersonalEmail(x))`: the chain selects the
      one matching employee, fails when two match, and is empty when none does. */
  function FindEither(t: Contacts, x: string): (r: Result<Option<nat>>)
    ensures r == Ok(None) <==> NoMatch(t, x)
    ensures forall k: nat :: r == Ok(Some(k)) <==> OnlyMatch(t, x, k)
    ensures r.Err? <==> AmbiguousMatch(t, x)
    ensures r.Err? ==> r.error == NonUniqueResult
  {
    OrElse(FindByEmail(t, x), FindByPersonalEmail(t, x))
  }

  /** With the unique constraint in force the personal-email finder is never
      ambiguous. */
  lemma FindByPersonalEmailUnambiguous(t: Contacts, x: string)
    requires UniqueContacts(t)
    ensures FindByPersonalEmail(t, x).Ok?
  {
    forall a, b | a in t && b in t && a != b && t[a].personalEmail == Some(x)
      ensures t[b].personalEmail != Some(x)
    {
      assert ContactsApart(t[a], t[b]);
    }
  }

  /** The email finder can be ambiguous even in a table that honours every unique
      column: one employee's email may be another's personal email. */
  lemma FindByEmailAmbiguousDespiteUniqueColumns()
    ensures var t := map[1 := Contact(Some("a@x"), None, None), 2 := Contact(None, Some("a@x"), None)];
            UniqueContacts(t) && FindByEmail(t, "a@x") == Err(NonUniqueResult)
  {
    var t := map[1 := Contact(Some("a@x"), None, None), 2 := Contact(None, Some("a@x"), None)];
    assert MatchesEither(t[1], "a@x") && MatchesEither(t[2], "a@x");
  }
}
