/** Decimal numbers as sprintf prints them and strtoll reads them. */
module Decimal {
  const INT64_MIN := -0x8000_0000_0000_0000
  const INT64_MAX := 0x7FFF_FFFF_FFFF_FFFF

  predicate IsDigit(c: char) { '0' <= c <= '9' }

  predicate AllDigits(s: string) { forall i :: 0 <= i < |s| ==> IsDigit(s[i]) }

  function Digit(d: int): char
    requires 0 <= d < 10
  {
    (d + 48) as char
  }

  function Digits(n: nat): (s: string)
    ensures |s| >= 1
  {
    if n < 10 then [Digit(n)] else Digits(n / 10) + [Digit(n % 10)]
  }

  /** `%ld` */
  function Print(n: int): string { if n < 0 then "-" + Digits(-n) else Digits(n) }

  /** Length of the longest prefix of digits. */
  function DigitRun(s: string): (n: nat)
    ensures n <= |s|
  {
    if s == "" || !IsDigit(s[0]) then 0 else 1 + DigitRun(s[1..])
  }

  function Value(s: string): (v: int)
    requires AllDigits(s)
    ensures v >= 0
  {
    if s == "" then 0 else Value(s[..|s| - 1]) * 10 + (s[|s| - 1] as int - 48)
  }

  lemma {:induction false} RunOfDigits(s: string)
    ensures forall i :: 0 <= i < DigitRun(s) ==> IsDigit(s[i])
    ensures (forall i :: 0 <= i < |s| ==> IsDigit(s[i])) ==> DigitRun(s) == |s|
  {
    if s != "" && IsDigit(s[0]) { RunOfDigits(s[1..]); }
  }

  function Clamp(v: int): int { if v < INT64_MIN then INT64_MIN else if v > INT64_MAX then INT64_MAX else v }

  /** strtoll with base 10: an optional sign and the digits behind it, saturating. */
  function StrToLL(s: string): int {
    if s != "" && s[0] == '-' then
      RunOfDigits(s[1..]);
      Clamp(-Value(s[1..][..DigitRun(s[1..])]))
    else
      RunOfDigits(s);
      Clamp(Value(s[..DigitRun(s)]))
  }

  lemma {:induction false} DigitsRoundTrip(n: nat)
    ensures AllDigits(Digits(n)) && Value(Digits(n)) == n
  {
    if n >= 10 {
      DigitsRoundTrip(n / 10);
    } else {
      assert [Digit(n)][..0] == "" && Value("") == 0;
    }
  }

  /** Every id of the type int64_t is read back. */
  lemma PrintRoundTrip(n: int)
    requires INT64_MIN <= n <= INT64_MAX
    ensures StrToLL(Print(n)) == n
  {
    var d := Digits(if n < 0 then -n else n);
    DigitsRoundTrip(if n < 0 then -n else n);
    RunOfDigits(d);
    assert d[..|d|] == d;
    if n < 0 {
      assert Print(n)[1..] == d;
    }
  }

  /** The characters of a printed number. */
  lemma PrintCharacters(n: int, i: nat)
    requires i < |Print(n)|
    ensures IsDigit(Print(n)[i]) || Print(n)[i] == '-'
  {
    DigitsRoundTrip(if n < 0 then -n else n);
  }

  // ----- the buffer

  /** `sprintf` into `char idbuffer[20]`: the text and the zero behind it stay inside. */
  predicate Fits(id: int) { |Print(id)| < 20 }

  function Pow10(k: nat): nat { if k == 0 then 1 else 10 * Pow10(k - 1) }

  lemma {:induction false} DigitCount(n: nat, k: nat)
    requires k >= 1
    ensures |Digits(n)| <= k <==> n < Pow10(k)
  {
    if k == 1 {
      assert Pow10(1) == 10 * Pow10(0);
    } else if n < 10 {
      Pow10Rises(k);
    } else {
      DigitCount(n / 10, k - 1);
    }
  }

  lemma {:induction false} Pow10Rises(k: nat)
    requires k >= 1
    ensures Pow10(k) >= 10
  {
    if k > 1 { Pow10Rises(k - 1); }
  }

  lemma BigPowers()
    ensures Pow10(18) == 1_000_000_000_000_000_000 && Pow10(19) == 10_000_000_000_000_000_000
  {
    assert Pow10(6) == 1_000_000;
    assert Pow10(12) == 1_000_000_000_000;
  }

  /** Which ids the buffer holds: of the 64-bit numbers all but those with a sign and nineteen digits. */
  lemma FitsExactly(id: int)
    ensures Fits(id) <==> -1_000_000_000_000_000_000 < id < 10_000_000_000_000_000_000
    ensures INT64_MIN <= id <= INT64_MAX ==> (Fits(id) <==> id > -1_000_000_000_000_000_000)
  {
    hide Digits, Pow10;
    BigPowers();
    if id < 0 { DigitCount(-id, 18); } else { DigitCount(id, 19); }
  }
}
