/**
 * The `%d` verb of Go's fmt package: an integer written in base ten, with a
 * leading '-' when it is negative and no leading zeros. `ParseDecimal` reads
 * such a text back; the round trip makes `Format` injective.
 */
module Decimal {
  import opened Wrappers

  predicate IsDigit(c: char) {
    '0' <= c <= '9'
  }

  predicate AllDigits(s: string) {
    forall i :: 0 <= i < |s| ==> IsDigit(s[i])
  }

  function DigitChar(d: nat): (c: char)
    requires d < 10
    ensures IsDigit(c) && c as int - '0' as int == d
  {
    ('0' as int + d) as char
  }

  /** The number a string of decimal digits denotes, most significant digit first. */
  function DigitsValue(s: string): nat
    requires AllDigits(s)
  {
    if s == [] then 0
    else DigitsValue(s[..|s| - 1]) * 10 + (s[|s| - 1] as int - '0' as int)
  }

  /** The decimal digits of `n`, without leading zeros. */
  function Digits(n: nat): (s: string)
    ensures |s| >= 1 && AllDigits(s)
    ensures s[0] == '0' ==> n == 0
    decreases n
  {
    if n < 10 then [DigitChar(n)] else Digits(n / 10) + [DigitChar(n % 10)]
  }

  lemma {:induction false} DigitsRoundTrip(n: nat)
    ensures DigitsValue(Digits(n)) == n
    decreases n
  {
    var s := Digits(n);
    if n < 10 {
      assert s[..|s| - 1] == [];
    } else {
      assert s[..|s| - 1] == Digits(n / 10);
      DigitsRoundTrip(n / 10);
    }
  }

  /** `fmt.Sprintf("%d", i)`. */
  function Format(i: int): (s: string)
    ensures |s| >= 1 && AllDigits(s[1..])
    ensures s[0] == '-' <==> i < 0
    ensures s[0] != '-' ==> IsDigit(s[0])
  {
    if i < 0 then "-" + Digits(-i) else Digits(i)
  }

  /** Reads back an optional '-' followed by at least one decimal digit; anything else is `None`. */
  function ParseDecimal(s: string): Option<int> {
    if |s| >= 2 && s[0] == '-' && AllDigits(s[1..]) then Some(-(DigitsValue(s[1..]) as int))
    else if |s| >= 1 && AllDigits(s) then Some(DigitsValue(s))
    else None
  }

  lemma FormatRoundTrip(i: int)
    ensures ParseDecimal(Format(i)) == Some(i)
  {
    var s := Format(i);
    if i < 0 {
      assert s == "-" + Digits(-i);
      assert s[1..] == Digits(-i);
      DigitsRoundTrip(-i);
    } else {
      assert s == Digits(i) && s[0] != '-';
      DigitsRoundTrip(i);
    }
  }

  lemma FormatInjective(i: int, j: int)
    ensures Format(i) == Format(j) <==> i == j
  {
    FormatRoundTrip(i);
    FormatRoundTrip(j);
  }
}
