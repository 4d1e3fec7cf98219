/** The java.lang.String operations the model needs, on strings as sequences of chars. */
module Text {

  /** String.startsWith */
  predicate StartsWith(s: string, prefix: string) {
    prefix <= s
  }

  /** String.indexOf(char): the first position of c, or -1. */
  function IndexOf(s: string, c: char): (r: int)
    ensures -1 <= r < |s|
    ensures r == -1 <==> c !in s
    ensures r >= 0 ==> s[r] == c && c !in s[..r]
  {
    if s == [] then -1
    else if s[0] == c then 0
    else
      var j := IndexOf(s[1..], c);
      assert s == [s[0]] + s[1..];
      if j == -1 then -1
      else
        assert s[..j + 1] == [s[0]] + s[1..][..j];
        j + 1
  }

  /** s.substring(s.indexOf(c) + 1): the text after the first c, or all of s when
      there is no c (indexOf gives -1, so the substring starts at 0). */
  function AfterFirst(s: string, c: char): (r: string)
    ensures c !in s ==> r == s
    ensures c in s ==> exists i :: 0 <= i < |s| && s[i] == c && c !in s[..i] && s == s[..i] + [c] + r
  {
    var i := IndexOf(s, c);
    if i == -1 then s
    else
      assert s == s[..i] + [c] + s[i + 1..];
      s[i + 1..]
  }

  /** Cutting at the first c of a text that starts with a c-free prefix, then c,
      leaves exactly what follows that c. */
  lemma AfterFirstOfPrefixed(p: string, c: char, q: string)
    requires c !in p
    ensures AfterFirst(p + [c] + q, c) == q
  {
    var s := p + [c] + q;
    assert s[..|p|] == p && s[|p|] == c;
    var i := IndexOf(s, c);
    assert i == |p|;
    assert s[i + 1..] == q;
  }

  /** Character.isWhitespace: the Unicode space, line and paragraph separators other
      than the three no-break spaces, plus tab, line feed, vertical tab, form feed,
      carriage return and the four information separators U+001C to U+001F. */
  predicate IsWhitespace(c: char) {
    c in {'\U{9}', '\U{A}', '\U{B}', '\U{C}', '\U{D}', '\U{1C}', '\U{1D}', '\U{1E}', '\U{1F}',
          '\U{20}', '\U{1680}', '\U{2000}', '\U{2001}', '\U{2002}', '\U{2003}', '\U{2004}',
          '\U{2005}', '\U{2006}', '\U{2008}', '\U{2009}', '\U{200A}', '\U{2028}', '\U{2029}',
          '\U{205F}', '\U{3000}'}
  }

  /** String.isBlank: empty or only whitespace. */
  predicate IsBlank(s: string) {
    forall i :: 0 <= i < |s| ==> IsWhitespace(s[i])
  }

  /** The number a string of decimal digits denotes, most significant digit first. */
  function DigitsValue(s: string): nat
    requires forall i :: 0 <= i < |s| ==> '0' <= s[i] <= '9'
  {
    if |s| == 0 then 0 else 10 * DigitsValue(s[..|s| - 1]) + (s[|s| - 1] as int - '0' as int)
  }

  /** Long.toString for the non-negative ids of the model, as it appears in messages:
      decimal digits without a leading zero that denote `n`. */
  function NatText(n: nat): (r: string)
    ensures |r| >= 1
    ensures forall i :: 0 <= i < |r| ==> '0' <= r[i] <= '9'
    ensures n >= 10 ==> r[0] != '0'
    ensures DigitsValue(r) == n
  {
    var d := ['0', '1', '2', '3', '4', '5', '6', '7', '8', '9'][n % 10];
    if n < 10 then [d] else NatText(n / 10) + [d]
  }
}
