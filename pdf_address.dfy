/** PdfService.formatAddress: an address composed from four optional parts with a
    string builder. The rest of PdfService renders the PDF and is not modelled. */
module PdfAddress {
  import opened Common

  /** A value counts when it is non-null and non-empty. */
  predicate Present(v: Option<string>)
  {
    v.Some? && |v.value| > 0
  }

  /** One part of an address: its value and the text written before and after it. */
  datatype Part = Part(value: Option<string>, before: string, after: string)

  function Piece(p: Part): string
  {
    if Present(p.value) then p.before + p.value.value + p.after else ""
  }

  /** The parts in order, each contributing its piece. */
  function Render(parts: seq<Part>): string
  {
    if parts == [] then "" else Render(parts[..|parts| - 1]) + Piece(parts[|parts| - 1])
  }

  /** Street ends its line; state follows a comma and zip a space. */
  function AddressParts(street: Option<string>, city: Option<string>, state: Option<string>, zip: Option<string>): seq<Part>
  {
    [Part(street, "", "\n"), Part(city, "", ""), Part(state, ", ", ""), Part(zip, " ", "")]
  }

  method FormatAddress(street: Option<string>, city: Option<string>, state: Option<string>, zip: Option<string>)
    returns (address: string)
    ensures address == Render(AddressParts(street, city, state, zip))
  {
    var parts := AddressParts(street, city, state, zip);
    var sb := "";
    if Present(street) {
      sb := sb + street.value + "\n";
    }
    Appended("", parts[0], sb);
    ghost var upToStreet := sb;
    if Present(city) {
      sb := sb + city.value;
      assert sb == upToStreet + "" + city.value + "";
    }
    Appended(upToStreet, parts[1], sb);
    ghost var upToCity := sb;
    if Present(state) {
      sb := sb + ", " + state.value;
    }
    Appended(upToCity, parts[2], sb);
    ghost var upToState := sb;
    if Present(zip) {
      sb := sb + " " + zip.value;
    }
    Appended(upToState, parts[3], sb);
    address := sb;
    RenderOfFour(parts[0], parts[1], parts[2], parts[3]);
    assert parts == [parts[0], parts[1], parts[2], parts[3]];
  }

  /** Appending a part's before-text, value and after-text to a builder, or nothing
      when the value is absent, adds exactly its piece. */
  lemma Appended(built: string, p: Part, after: string)
    requires Present(p.value) ==> after == built + p.before + p.value.value + p.after
    requires !Present(p.value) ==> after == built
    ensures after == built + Piece(p)
  {
  }

  lemma RenderOfFour(a: Part, b: Part, c: Part, d: Part)
    ensures Render([a, b, c, d]) == Piece(a) + Piece(b) + Piece(c) + Piece(d)
  {
    assert [a][..0] == [];
    assert Render([a]) == Piece(a);
    assert [a, b][..1] == [a];
    assert Render([a, b]) == Piece(a) + Piece(b);
    assert [a, b, c][..2] == [a, b];
    assert Render([a, b, c]) == Piece(a) + Piece(b) + Piece(c);
    assert [a, b, c, d][..3] == [a, b, c];
  }

  /** A rendering is empty exactly when no part is present. */
  lemma {:induction false} RenderEmptyIffNonePresent(parts: seq<Part>)
    ensures Render(parts) == "" <==> forall i :: 0 <= i < |parts| ==> !Present(parts[i].value)
  {
    if parts != [] {
      var init := parts[..|parts| - 1];
      RenderEmptyIffNonePresent(init);
      assert forall i :: 0 <= i < |init| ==> init[i] == parts[i];
      var last := parts[|parts| - 1];
      if Present(last.value) {
        assert |Piece(last)| >= |last.value.value| > 0;
      }
    }
  }

  /** An address with no street, city, state or zip is the empty string. */
  lemma EmptyAddressIffAllAbsent(street: Option<string>, city: Option<string>, state: Option<string>, zip: Option<string>)
    ensures Render(AddressParts(street, city, state, zip)) == "" <==>
              !Present(street) && !Present(city) && !Present(state) && !Present(zip)
  {
    var parts := AddressParts(street, city, state, zip);
    RenderEmptyIffNonePresent(parts);
    assert parts[0].value == street && parts[1].value == city && parts[2].value == state && parts[3].value == zip;
  }

  /** The state keeps its comma even when there is no city before it. */
  lemma StateWithoutCityKeepsComma(state: string, zip: string)
    requires |state| > 0 && |zip| > 0
    ensures Render(AddressParts(None, None, Some(state), Some(zip))) == ", " + state + " " + zip
  {
    var street, city, st, z := Part(None, "", "\n"), Part(None, "", ""), Part(Some(state), ", ", ""), Part(Some(zip), " ", "");
    assert AddressParts(None, None, Some(state), Some(zip)) == [street, city, st, z];
    RenderOfFour(street, city, st, z);
    assert Piece(street) + Piece(city) + Piece(st) + Piece(z) == ", " + state + " " + zip by {
      assert Piece(street) + Piece(city) == "";
      assert Piece(st) == ", " + state && Piece(z) == " " + zip;
    }
  }
}
