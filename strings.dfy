/** The two string primitives the model needs: PHP's strrpos for one
    character, and the decimal rendering of a timestamp. */
module Strings {
  import opened Basics

  /** Position of the last occurrence of c in s (strrpos), or None. */
  function LastIndexOf(s: string, c: char): (r: Option<nat>)
    ensures r.Some? ==> r.value < |s| && s[r.value] == c && c !in s[r.value + 1..]
    ensures r.None? <==> c !in s
  {
    if s == [] then None
    else if s[|s| - 1] == c then Some(|s| - 1)
    else
      var r := LastIndexOf(s[..|s| - 1], c);
      assert s == s[..|s| - 1] + [s[|s| - 1]];
      if r.Some? then
        assert s[r.value + 1..] == s[..|s| - 1][r.value + 1..] + [s[|s| - 1]];
        r
      else
        r
  }

  /** When the last c sits between a prefix and a c-free suffix, strrpos
      finds exactly that position. */
  lemma {:induction false} LastIndexOfBeforeSuffix(prefix: string, c: char, suffix: string)
    requires c !in suffix
    ensures LastIndexOf(prefix + [c] + suffix, c) == Some(|prefix|)
  {
    var s := prefix + [c] + suffix;
    assert s[|prefix|] == c;
    var r := LastIndexOf(s, c);
    assert r.Some?;
    assert forall k :: r.value < k < |s| ==> s[k] == s[r.value + 1..][k - r.value - 1];
    assert forall k :: |prefix| < k < |s| ==> s[k] == suffix[k - |prefix| - 1];
  }

  function Digit(d: nat): (c: char)
    requires d < 10
    ensures '0' <= c <= '9'
  {
    "0123456789"[d]
  }

  /** Decimal rendering of a natural number, as PHP's string interpolation
      of an integer produces it. */
  function DecimalString(n: nat): (s: string)
    ensures 1 <= |s|
    ensures forall i :: 0 <= i < |s| ==> '0' <= s[i] <= '9'
  {
    if n < 10 then [Digit(n)] else DecimalString(n / 10) + [Digit(n % 10)]
  }
}
