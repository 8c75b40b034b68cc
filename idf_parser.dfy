/**
 * ASCII upper-casing used by the IDF parser (IdfParser::convertToUpper).
 * Only the letters 'a'..'z' change; they lose bit 0x20.
 */
module IdfParser {

  predicate IsLower(c: char) { 'a' <= c <= 'z' }

  predicate IsUpper(c: char) { 'A' <= c <= 'Z' }

  /** One character, as the loop body of convertToUpper maps it: `c ^ 0x20` for a lower-case letter. */
  function UpperChar(c: char): (u: char)
    ensures IsLower(c) ==> IsUpper(u) && u as int == c as int - 32
    ensures !IsLower(c) ==> u == c
  {
    if IsLower(c) then
      XorCaseBitLowers(c as int);
      ((c as int as bv8 ^ 0x20) as int) as char
    else c
  }

  /** For the codes of 'a'..'z', clearing bit 0x20 by exclusive or is subtracting 32. */
  lemma XorCaseBitLowers(x: int)
    requires 97 <= x <= 122
    ensures (x as bv8 ^ 0x20) as int == x - 32
  {
  }

  /** The upper-cased string: the reference the loop of convertToUpper is proved against. */
  function ToUpper(s: string): (r: string)
    ensures |r| == |s|
  {
    seq(|s|, i requires 0 <= i < |s| => UpperChar(s[i]))
  }

  /** convertToUpper: rewrites the characters of its by-value copy one at a time. */
  method ConvertToUpper(str: string) returns (r: string)
    ensures |r| == |str|
    ensures forall i :: 0 <= i < |str| ==> r[i] == UpperChar(str[i])
    ensures r == ToUpper(str)
  {
    r := str;
    var len := |r|;
    for i := 0 to len
      invariant |r| == len
      invariant forall k :: 0 <= k < i ==> r[k] == UpperChar(str[k])
      invariant forall k :: i <= k < len ==> r[k] == str[k]
    {
      var c := r[i];
      r := r[i := UpperChar(c)];
    }
  }

  /** No lower-case letter survives upper-casing. */
  lemma ToUpperHasNoLower(s: string)
    ensures forall i :: 0 <= i < |s| ==> !IsLower(ToUpper(s)[i])
  {
  }

  /** Upper-casing twice is upper-casing once. */
  lemma {:induction false} ToUpperIdempotent(s: string)
    ensures ToUpper(ToUpper(s)) == ToUpper(s)
  {
    var u := ToUpper(s);
    forall i | 0 <= i < |s|
      ensures ToUpper(u)[i] == u[i]
    {
      assert !IsLower(u[i]);
    }
  }

  /** Upper-casing distributes over concatenation. */
  lemma ToUpperAppend(a: string, b: string)
    ensures ToUpper(a + b) == ToUpper(a) + ToUpper(b)
  {
    var l, r := ToUpper(a + b), ToUpper(a) + ToUpper(b);
    forall i | 0 <= i < |a| + |b|
      ensures l[i] == r[i]
    {
      if i < |a| { assert (a + b)[i] == a[i]; } else { assert (a + b)[i] == b[i - |a|]; }
    }
  }

  /** A string that is its own upper-case has no lower-case letter, and conversely. */
  lemma ToUpperFixedPoint(s: string)
    ensures ToUpper(s) == s <==> forall i :: 0 <= i < |s| ==> !IsLower(s[i])
  {
    if forall i :: 0 <= i < |s| ==> !IsLower(s[i]) {
      assert forall i :: 0 <= i < |s| ==> ToUpper(s)[i] == s[i];
    } else {
      var i :| 0 <= i < |s| && IsLower(s[i]);
      assert ToUpper(s)[i] != s[i];
    }
  }

  /** Case-insensitive equality (Util::SameString), taken as equality after ASCII upper-casing. */
  predicate SameString(a: string, b: string)
  {
    ToUpper(a) == ToUpper(b)
  }
}
