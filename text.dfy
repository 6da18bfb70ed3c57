/** Python's `str.strip()`, which the message handler applies to the text it relays. */
module Text {

  /** Python's `str.isspace()` for one character: the Unicode whitespace it recognises. */
  predicate IsSpace(c: char)
  {
    || c == ' '
    || '\t' <= c <= '\r'
    || '\U{1C}' <= c <= '\U{1F}'
    || c == '\U{85}' || c == '\U{A0}' || c == '\U{1680}'
    || '\U{2000}' <= c <= '\U{200A}'
    || c == '\U{2028}' || c == '\U{2029}' || c == '\U{202F}' || c == '\U{205F}' || c == '\U{3000}'
  }

  predicate AllSpace(s: string)
  {
    forall i :: 0 <= i < |s| ==> IsSpace(s[i])
  }

  /** How many whitespace characters `s` starts with. */
  function LeadingSpaces(s: string): (k: nat)
    ensures k <= |s| && AllSpace(s[..k])
    ensures k < |s| ==> !IsSpace(s[k])
  {
    if s == [] || !IsSpace(s[0]) then 0 else 1 + LeadingSpaces(s[1..])
  }

  /** How many whitespace characters `s` ends with. */
  function TrailingSpaces(s: string): (k: nat)
    ensures k <= |s| && AllSpace(s[|s| - k..])
    ensures k < |s| ==> !IsSpace(s[|s| - 1 - k])
  {
    if s == [] || !IsSpace(s[|s| - 1]) then 0 else 1 + TrailingSpaces(s[..|s| - 1])
  }

  /**
   * `s.strip()`: `s` with its leading and trailing whitespace removed. The result is the
   * infix of `s` between two all-whitespace ends, and it neither starts nor ends with
   * whitespace; it is empty exactly when `s` is all whitespace.
   */
  function Strip(s: string): (r: string)
    ensures r == [] || (!IsSpace(r[0]) && !IsSpace(r[|r| - 1]))
    ensures exists i :: 0 <= i && i + |r| <= |s| && r == s[i..i + |r|] && AllSpace(s[..i]) && AllSpace(s[i + |r|..])
    ensures r == [] <==> AllSpace(s)
  {
    var i := LeadingSpaces(s);
    var t := s[i..];
    var k := TrailingSpaces(t);
    var j := i + (|t| - k);
    StripShape(s, i, j, k);
    s[i..j]
  }

  lemma StripShape(s: string, i: nat, j: nat, k: nat)
    requires i == LeadingSpaces(s) && k == TrailingSpaces(s[i..]) && j == |s| - k
    ensures i <= j <= |s|
    ensures AllSpace(s[..i]) && AllSpace(s[j..])
    ensures i < j ==> !IsSpace(s[i]) && !IsSpace(s[j - 1])
    ensures i == j <==> AllSpace(s)
  {
  }

  /** Stripping twice strips nothing more. */
  lemma StripIsIdempotent(s: string)
    ensures Strip(Strip(s)) == Strip(s)
  {
  }

  lemma {:induction false} LeadingSpacesOfPadded(a: string, rest: string)
    requires AllSpace(a) && rest != [] && !IsSpace(rest[0])
    ensures LeadingSpaces(a + rest) == |a|
  {
    if a != [] {
      assert (a + rest)[1..] == a[1..] + rest;
      LeadingSpacesOfPadded(a[1..], rest);
    } else {
      assert a + rest == rest;
    }
  }

  lemma {:induction false} TrailingSpacesOfPadded(rest: string, b: string)
    requires AllSpace(b) && rest != [] && !IsSpace(rest[|rest| - 1])
    ensures TrailingSpaces(rest + b) == |b|
  {
    if b != [] {
      assert (rest + b)[..|rest + b| - 1] == rest + b[..|b| - 1];
      TrailingSpacesOfPadded(rest, b[..|b| - 1]);
    } else {
      assert rest + b == rest;
    }
  }

  /**
   * The converse of `Strip`'s contract: text that neither starts nor ends with whitespace,
   * padded with whitespace on both sides, strips back to exactly itself.
   */
  lemma StripOfPadded(a: string, t: string, b: string)
    requires AllSpace(a) && AllSpace(b)
    requires t != [] && !IsSpace(t[0]) && !IsSpace(t[|t| - 1])
    ensures Strip(a + t + b) == t
  {
    var s := a + t + b;
    assert s == a + (t + b);
    LeadingSpacesOfPadded(a, t + b);
    assert s[|a|..] == t + b;
    TrailingSpacesOfPadded(t, b);
    assert s[|a|..|a| + |t|] == t;
  }
}
