/**
 * Java's decimal rendering of a `long` (`Long.toString`, used when a `Long` is
 * concatenated to a string), and its inverse.
 */
module Decimal {
  import opened Domain

  function DigitChar(d: int): char
    requires 0 <= d < 10
  {
    "0123456789"[d]
  }

  predicate IsDigit(c: char) { '0' <= c <= '9' }

  /** The shortest decimal numeral of `n`, without sign. */
  function NatToString(n: nat): (s: string)
    ensures |s| > 0
    ensures forall i :: 0 <= i < |s| ==> IsDigit(s[i])
  {
    if n < 10 then [DigitChar(n)] else NatToString(n / 10) + [DigitChar(n % 10)]
  }

  /** `Long.toString(v)`: a leading '-' for negative values. */
  function LongToString(v: Long): (s: string)
    ensures |s| > 0 && (s[0] == '-' <==> v < 0)
    ensures forall i :: (if v < 0 then 1 else 0) <= i < |s| ==> IsDigit(s[i])
  {
    if v < 0 then "-" + NatToString(-(v as int)) else NatToString(v)
  }

  /** The value of a string of decimal digits (the empty string reads as 0). */
  function ParseNat(s: string): nat
    requires forall i :: 0 <= i < |s| ==> IsDigit(s[i])
  {
    if s == [] then 0
    else
      assert IsDigit(s[|s| - 1]);
      ParseNat(s[..|s| - 1]) * 10 + (s[|s| - 1] as int - '0' as int)
  }

  /** `Long.parseLong` restricted to the numerals `LongToString` produces. */
  function ParseLong(s: string): int
    requires |s| > 0
    requires forall i :: (if s[0] == '-' then 1 else 0) <= i < |s| ==> IsDigit(s[i])
  {
    if s[0] == '-' then -(ParseNat(s[1..]) as int) else ParseNat(s)
  }

  lemma {:induction false} NatRoundTrip(n: nat)
    ensures ParseNat(NatToString(n)) == n
  {
    var s := NatToString(n);
    if n >= 10 {
      var prefix := NatToString(n / 10);
      assert s == prefix + [DigitChar(n % 10)];
      assert s[..|s| - 1] == prefix;
      NatRoundTrip(n / 10);
    }
  }

  /** Reading back the text of a `long` gives the `long`. */
  lemma LongRoundTrip(v: Long)
    ensures var s := LongToString(v);
            |s| > 0 && (forall i :: (if s[0] == '-' then 1 else 0) <= i < |s| ==> IsDigit(s[i])) &&
            ParseLong(s) == v
  {
    var s := LongToString(v);
    if v < 0 {
      NatRoundTrip(-(v as int));
      assert s[1..] == NatToString(-(v as int));
    } else {
      NatRoundTrip(v);
    }
  }

  /** Distinct values have distinct texts, so an error message naming an id names exactly it. */
  lemma LongToStringInjective(a: Long, b: Long)
    requires LongToString(a) == LongToString(b)
    ensures a == b
  {
    LongRoundTrip(a);
    LongRoundTrip(b);
  }
}
