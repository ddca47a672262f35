/** Decimal text of Java `long` values: Long.toString, which renders an owner id
    for comparison with the token subject, and Long.valueOf / Long.parseLong,
    which read the token subject as a user id. */
module Decimal {
  import opened Common

  const LongMin: int := -0x8000_0000_0000_0000
  const LongMax: int := 0x7FFF_FFFF_FFFF_FFFF

  predicate IsLong(n: int) { LongMin <= n <= LongMax }

  predicate IsDigit(c: char) { '0' <= c <= '9' }

  predicate AllDigits(s: string) { forall i :: 0 <= i < |s| ==> IsDigit(s[i]) }

  function DigitChar(d: nat): char
    requires d < 10
  {
    (48 + d) as char
  }

  /** The digits of n, most significant first, without leading zeros. */
  function NatDigits(n: nat): (s: string)
    ensures |s| > 0 && AllDigits(s)
    ensures n > 0 ==> s[0] != '0'
  {
    if n < 10 then [DigitChar(n)] else NatDigits(n / 10) + [DigitChar(n % 10)]
  }

  /** Long.toString(n). */
  function ToDecimal(n: int): (s: string)
    ensures |s| > 0
    ensures n < 0 <==> s[0] == '-'
  {
    if n < 0 then "-" + NatDigits(-n) else NatDigits(n)
  }

  /** The value of a string of decimal digits. */
  function DigitsValue(s: string): nat
    requires AllDigits(s)
  {
    if |s| == 0 then 0 else 10 * DigitsValue(s[..|s| - 1]) + (s[|s| - 1] as int - 48)
  }

  /** Long.parseLong(s): an optional '+' or '-' followed by at least one digit,
      whose value fits in 64 bits; None stands for NumberFormatException. */
  function ParseLong(s: string): (r: Option<int>)
    ensures r.Some? ==> IsLong(r.value)
    ensures r.Some? ==> |s| > 0
  {
    var negative := |s| > 0 && s[0] == '-';
    var digits := if |s| > 0 && (s[0] == '-' || s[0] == '+') then s[1..] else s;
    if |digits| == 0 || !AllDigits(digits) then None
    else
      var v: int := if negative then 0 - DigitsValue(digits) as int else DigitsValue(digits) as int;
      if IsLong(v) then Some(v) else None
  }

  lemma {:induction false} DigitsRoundTrip(n: nat)
    ensures DigitsValue(NatDigits(n)) == n
  {
    if n >= 10 {
      DigitsRoundTrip(n / 10);
      var s := NatDigits(n);
      assert s[..|s| - 1] == NatDigits(n / 10);
    }
  }

  /** Reading back the decimal text of a long gives the long. */
  lemma ParseToDecimal(n: int)
    requires IsLong(n)
    ensures ParseLong(ToDecimal(n)) == Some(n)
  {
    var s := ToDecimal(n);
    if n < 0 {
      var d := NatDigits(-n);
      DigitsRoundTrip(-n);
      assert s == "-" + d && s[1..] == d;
      assert AllDigits(d) && 0 - DigitsValue(d) as int == n;
    } else {
      var d := NatDigits(n);
      DigitsRoundTrip(n);
      assert s == d && IsDigit(s[0]);
      assert s[0] != '-' && s[0] != '+';
    }
  }

  /** For a subject issued as the decimal text of some id, the string comparison
      with an owner's rendered id (used before updating or deleting a recipe) and
      the numeric comparison of the parsed subject (used before rating one)
      decide alike. */
  lemma CanonicalSubjectChecksAgree(subject: string, issued: int, owner: int)
    requires IsLong(issued) && IsLong(owner)
    requires subject == ToDecimal(issued)
    ensures subject == ToDecimal(owner) <==> ParseLong(subject) == Some(owner)
  {
    ParseToDecimal(issued);
    ParseToDecimal(owner);
  }

  /** A subject that is not canonical decimal text parses to an id without
      being equal to that id's text: the two owner checks can disagree on it. */
  lemma NonCanonicalSubject()
    ensures ParseLong("+7") == Some(7) && "+7" != ToDecimal(7)
  {
    assert "+7"[1..] == "7";
    assert DigitsValue("7") == 10 * DigitsValue("") + 7 by {
      assert "7"[..0] == "";
    }
  }
}
