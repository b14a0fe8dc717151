/** The JavaScript string operations the core relies on: `toLowerCase`,
    `includes` and the decimal rendering of an integer in a template literal. */
module Text {

  /** Lower-cases one character; letters outside A-Z are left alone. */
  function LowerChar(ch: char): char {
    if 'A' <= ch <= 'Z' then (ch as int + 32) as char else ch
  }

  /** `s.toLowerCase()`. */
  function ToLower(s: string): (r: string)
    ensures |r| == |s|
    ensures forall i | 0 <= i < |s| :: r[i] == LowerChar(s[i])
  {
    if s == [] then [] else [LowerChar(s[0])] + ToLower(s[1..])
  }

  /** Lower-casing leaves no upper-case letter behind, so doing it twice changes nothing. */
  lemma ToLowerIdempotent(s: string)
    ensures ToLower(ToLower(s)) == ToLower(s)
    ensures forall i | 0 <= i < |s| :: !('A' <= ToLower(s)[i] <= 'Z')
  {
    assert ToLower(ToLower(s)) == ToLower(s) by {
      forall i | 0 <= i < |s| ensures ToLower(ToLower(s))[i] == ToLower(s)[i] {
        assert LowerChar(LowerChar(s[i])) == LowerChar(s[i]);
      }
    }
  }

  /** The account comparison `a.toLowerCase() === b.toLowerCase()`. */
  predicate SameAccount(a: string, b: string) {
    ToLower(a) == ToLower(b)
  }

  /** The comparison is an equivalence that ignores the case of either side. */
  lemma SameAccountIsCaseInsensitiveEquivalence(a: string, b: string, c: string)
    ensures SameAccount(a, a)
    ensures SameAccount(a, b) ==> SameAccount(b, a)
    ensures SameAccount(a, b) && SameAccount(b, c) ==> SameAccount(a, c)
    ensures SameAccount(a, b) <==> SameAccount(ToLower(a), b)
  {
    ToLowerIdempotent(a);
  }

  predicate IsPrefix(p: string, s: string) {
    |p| <= |s| && s[..|p|] == p
  }

  /** `hay.includes(needle)`: the needle starts at some position of the haystack. */
  function Includes(hay: string, needle: string): (r: bool)
    ensures needle == [] ==> r
    ensures r ==> |needle| <= |hay|
    decreases |hay|
  {
    IsPrefix(needle, hay) || (hay != [] && Includes(hay[1..], needle))
  }

  /** Reference meaning of `includes`: `needle` occurs as a contiguous slice of `hay`. */
  ghost predicate OccursIn(needle: string, hay: string) {
    exists i: nat :: OccursAt(needle, hay, i)
  }

  predicate OccursAt(needle: string, hay: string, i: nat) {
    i + |needle| <= |hay| && hay[i..i + |needle|] == needle
  }

  lemma {:induction false} IncludesIff(hay: string, needle: string)
    ensures Includes(hay, needle) <==> OccursIn(needle, hay)
    decreases |hay|
  {
    if IsPrefix(needle, hay) {
      assert OccursAt(needle, hay, 0);
    } else if hay == [] {
      assert |needle| > 0;
    } else {
      IncludesIff(hay[1..], needle);
      if OccursIn(needle, hay[1..]) {
        var i: nat :| OccursAt(needle, hay[1..], i);
        assert hay[i + 1..i + 1 + |needle|] == hay[1..][i..i + |needle|];
        assert OccursAt(needle, hay, i + 1);
      }
      if OccursIn(needle, hay) {
        var i: nat :| OccursAt(needle, hay, i);
        assert i != 0;
        assert hay[1..][i - 1..i - 1 + |needle|] == hay[i..i + |needle|];
        assert OccursAt(needle, hay[1..], i - 1);
      }
    }
  }

  /** Decimal digits. */
  function DigitChar(d: nat): char
    requires d < 10
  {
    ('0' as int + d) as char
  }

  predicate IsDigit(ch: char) {
    '0' <= ch <= '9'
  }

  function DigitValue(ch: char): nat
    requires IsDigit(ch)
  {
    ch as int - '0' as int
  }

  predicate AllDigits(s: string) {
    forall i | 0 <= i < |s| :: IsDigit(s[i])
  }

  /** The decimal rendering of a non-negative integer, as `${n}` produces it:
      at least one digit and no leading zero. */
  function NatToDecimal(n: nat): (s: string)
    ensures |s| >= 1 && AllDigits(s)
    ensures s[0] == '0' ==> n == 0
  {
    if n < 10 then [DigitChar(n)] else NatToDecimal(n / 10) + [DigitChar(n % 10)]
  }

  /** Reads a string of digits back as a number. */
  function DecimalValue(s: string): nat
    requires AllDigits(s)
  {
    if s == [] then 0 else 10 * DecimalValue(s[..|s| - 1]) + DigitValue(s[|s| - 1])
  }

  /** Rendering a number in decimal and reading it back gives the number. */
  lemma {:induction false} DecimalRoundTrip(n: nat)
    ensures DecimalValue(NatToDecimal(n)) == n
  {
    var s := NatToDecimal(n);
    if n >= 10 {
      DecimalRoundTrip(n / 10);
      assert s[..|s| - 1] == NatToDecimal(n / 10);
    }
  }

  /** The decimal rendering of any integer: a minus sign before the magnitude when negative. */
  function IntToDecimal(i: int): (s: string)
    ensures i >= 0 ==> s == NatToDecimal(i)
    ensures i < 0 ==> |s| >= 2 && s[0] == '-' && s[1..] == NatToDecimal(-i)
  {
    if i < 0 then "-" + NatToDecimal(-i) else NatToDecimal(i)
  }
}
