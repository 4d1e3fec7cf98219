/** Values shared by every part of the model: optional values, the exceptions
    the services and controllers throw, the lookup by id, and two small
    collection helpers. */
module Common {
  import Text

  /** A Java reference that may be null. */
  datatype Option<T> = None | Some(value: T)

  /** The exceptions of the source, by Java class. */
  datatype Error =
    | NotFound(message: string)          // ResourceNotFoundException
    | IllegalArgument(message: string)   // IllegalArgumentException
    | IllegalState(message: string)      // IllegalStateException
    | AccessDenied(message: string)      // AccessDeniedException
    | NullPointer                        // NullPointerException: a null field or argument dereferenced
    | NonUniqueResult                    // a single-result finder matched more than one row
    | Wrapped(prefix: string, cause: Error) // RuntimeException whose message is prefix + cause's message

  /** A call that either returns a value or throws. */
  datatype Result<T> = Ok(value: T) | Err(error: Error)

  /** The message of the IllegalArgumentException Spring Data throws when a finder
      is given a null id. */
  const NullIdMessage := "The given id must not be null"

  /** ModelMapper with skip-null: an incoming non-null value replaces the current one,
      a null leaves it as it is. The two ensures clauses are the whole definition;
      the services' overlay lemmas build on them. */
  function Overlay<T>(current: Option<T>, incoming: Option<T>): (r: Option<T>)
    ensures incoming.Some? ==> r == incoming
    ensures incoming.None? ==> r == current
  {
    if incoming.Some? then incoming else current
  }

  /** findById(id).orElseThrow(...): the row stored under id, or the
      ResourceNotFoundException naming the entity and the id. */
  function FindById<V>(t: map<nat, V>, id: nat, entity: string): (r: Result<V>)
    ensures r.Ok? <==> id in t
    ensures r.Ok? ==> r.value == t[id]
    ensures r.Err? ==> r.error == NotFound(entity + " not found with id: " + Text.NatText(id))
  {
    if id in t then Ok(t[id]) else Err(NotFound(entity + " not found with id: " + Text.NatText(id)))
  }

  /** The position of the first occurrence of x in s, or |s| if there is none. */
  function FirstIndex<T(==)>(s: seq<T>, x: T): (i: nat)
    ensures i <= |s|
    ensures x !in s[..i]
    ensures i < |s| <==> x in s
    ensures i < |s| ==> s[i] == x
  {
    if s == [] then 0
    else if s[0] == x then 0
    else
      var j := FirstIndex(s[1..], x);
      assert s[..j + 1] == [s[0]] + s[1..][..j];
      assert s == [s[0]] + s[1..];
      j + 1
  }

  /** Java's List.remove(Object): removes the first occurrence, if any. Entities
      do not override equals, so an occurrence is the same object. */
  function RemoveFirst<T(==)>(s: seq<T>, x: T): (r: seq<T>)
    ensures x !in s ==> r == s
    ensures x in s ==> exists i :: 0 <= i < |s| && s[i] == x && x !in s[..i] && r == s[..i] + s[i + 1..]
    ensures multiset(r) == multiset(s) - multiset{x}
  {
    var i := FirstIndex(s, x);
    if i == |s| then
      assert s[..i] == s;
      s
    else
      assert s == s[..i] + [x] + s[i + 1..];
      s[..i] + s[i + 1..]
  }

  lemma SingletonUnique<T>(s: set<T>)
    requires |s| == 1
    ensures forall x, y :: x in s && y in s ==> x == y
  {
    forall x, y | x in s && y in s ensures x == y {
      assert s == (s - {x}) + {x};
      assert |s - {x}| == 0;
      assert y !in s - {x};
    }
  }

  /** The only element of a one-element set. */
  function The<T>(s: set<T>): (x: T)
    requires |s| == 1
    ensures s == {x}
  {
    SingletonUnique(s);
    var x :| x in s; x
  }
}
