/** Decimal text: Go's strconv.Itoa and strconv.Atoi, and exact decimal fractions. */
module Numbers {
  import opened Core

  const MAX_INT64 := 0x7FFF_FFFF_FFFF_FFFF
  const MIN_INT64 := -0x8000_0000_0000_0000
  const MAX_INT32 := 0x7FFF_FFFF

  predicate IsDigit(c: char) {
    '0' <= c <= '9'
  }

  predicate AllDigits(s: string) {
    forall i | 0 <= i < |s| :: IsDigit(s[i])
  }

  function DigitValue(c: char): nat
    requires IsDigit(c)
  {
    c as int - '0' as int
  }

  function DigitsValue(s: string): nat
    requires AllDigits(s)
  {
    if s == "" then 0 else 10 * DigitsValue(s[..|s| - 1]) + DigitValue(s[|s| - 1])
  }

  function NatText(n: nat): (s: string)
    ensures s != "" && AllDigits(s)
    ensures s[0] == '0' ==> s == "0" && n == 0
  {
    var last := ['0' + (n % 10) as char];
    if n < 10 then last else NatText(n / 10) + last
  }

  function Itoa(n: int): string {
    if n < 0 then "-" + NatText(-n) else NatText(n)
  }

  /** Optional sign, then digits, within int64. */
  function Atoi(s: string): Option<int> {
    var (negative, digits) :=
      if s != "" && s[0] == '-' then (true, s[1..])
      else if s != "" && s[0] == '+' then (false, s[1..])
      else (false, s);
    if digits == "" || !AllDigits(digits) then None
    else
      var v: int := DigitsValue(digits);
      var n := if negative then -v else v;
      if MIN_INT64 <= n <= MAX_INT64 then Some(n) else None
  }

  lemma {:induction false} NatTextValue(n: nat)
    ensures DigitsValue(NatText(n)) == n
  {
    var s := NatText(n);
    if n >= 10 {
      NatTextValue(n / 10);
      assert s[..|s| - 1] == NatText(n / 10);
    } else {
      assert s[..|s| - 1] == "";
    }
  }

  lemma AtoiOfDigits(digits: string)
    requires digits != "" && AllDigits(digits)
    ensures Atoi(digits) == if DigitsValue(digits) <= 0x7FFF_FFFF_FFFF_FFFF then Some(DigitsValue(digits)) else None
  {
    assert IsDigit(digits[0]);
  }

  lemma AtoiOfMinus(digits: string)
    requires digits != "" && AllDigits(digits)
    ensures Atoi("-" + digits)
            == if DigitsValue(digits) <= 0x8000_0000_0000_0000 then Some(0 - DigitsValue(digits)) else None
  {
    assert ("-" + digits)[1..] == digits;
  }

  lemma AtoiOfPlus(digits: string)
    requires digits != "" && AllDigits(digits)
    ensures Atoi("+" + digits) == Atoi(digits)
  {
    assert ("+" + digits)[1..] == digits;
    AtoiOfDigits(digits);
  }

  /** What is neither digits nor a sign and digits does not read as a number. */
  lemma AtoiRefuses(s: string)
    requires !(s != "" && AllDigits(s))
    requires !(|s| > 1 && (s[0] == '-' || s[0] == '+') && AllDigits(s[1..]))
    ensures Atoi(s) == None
  {
  }

  /** Digits are positional. */
  lemma DigitsArePositional(s: string, c: char)
    requires AllDigits(s) && '0' <= c <= '9'
    ensures DigitsValue("") == 0
    ensures DigitsValue(s + [c]) == 10 * DigitsValue(s) + (c as int - '0' as int)
  {
    assert (s + [c])[..|s|] == s;
  }

  /** Reading a printed integer gives it back, for everything an int can hold. */
  lemma AtoiOfItoa(n: int)
    requires MIN_INT64 <= n <= MAX_INT64
    ensures Atoi(Itoa(n)) == Some(n)
  {
    if n < 0 {
      NatTextValue(-n);
      AtoiOfMinus(NatText(-n));
    } else {
      NatTextValue(n);
      AtoiOfDigits(NatText(n));
    }
  }

  /** Two's complement wrap of an int64 result. */
  function Wrap64(n: int): (r: int)
    ensures MIN_INT64 <= r <= MAX_INT64
    ensures r == n <==> MIN_INT64 <= n <= MAX_INT64
    ensures (n - r) % 0x1_0000_0000_0000_0000 == 0
  {
    (n - MIN_INT64) % 0x1_0000_0000_0000_0000 + MIN_INT64
  }

  /** A finite float64 as the decimal that strconv.FormatFloat(v, 'f', -1, 64) prints. */
  datatype Decimal = Decimal(negative: bool, whole: string, fraction: string) {
    predicate Valid() {
      whole != "" && AllDigits(whole) && AllDigits(fraction)
    }

    function Text(): string {
      (if negative then "-" else "") + Unsigned(whole, fraction)
    }

    function Value(): real
      requires Valid()
    {
      if negative then -Magnitude(whole, fraction) else Magnitude(whole, fraction)
    }
  }

  function Unsigned(whole: string, fraction: string): string {
    whole + if fraction == "" then "" else "." + fraction
  }

  function FractionValue(s: string): real
    requires AllDigits(s)
  {
    if s == "" then 0.0 else (DigitValue(s[0]) as real + FractionValue(s[1..])) / 10.0
  }

  /** Each digit after the point counts a tenth of what it would one place to the left. */
  lemma FractionsArePositional(c: char, s: string)
    requires '0' <= c <= '9' && AllDigits(s)
    ensures FractionValue("") == 0.0
    ensures FractionValue([c] + s) == ((c as int - '0' as int) as real + FractionValue(s)) / 10.0
  {
    assert ([c] + s)[1..] == s;
  }

  function Magnitude(whole: string, fraction: string): real
    requires AllDigits(whole) && AllDigits(fraction)
  {
    DigitsValue(whole) as real + FractionValue(fraction)
  }
}
