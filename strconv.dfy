/**
 * The part of Go's `strconv` package and of `fmt`'s `%d` verb that the
 * listener relies on: `Atoi` parses the port of a bind address, and the
 * decimal rendering of an `int` is embedded in the "invalid number of
 * concurrent listeners" message. Go's `int` is 64 bits wide.
 */
module Strconv {
  import opened Wrappers

  const MinInt64: int := -0x8000_0000_0000_0000
  const MaxInt64: int := 0x7fff_ffff_ffff_ffff

  predicate IsDigit(c: char) {
    '0' <= c <= '9'
  }

  predicate AllDigits(s: string) {
    forall i :: 0 <= i < |s| ==> IsDigit(s[i])
  }

  function DigitChar(d: nat): (c: char)
    requires d < 10
    ensures IsDigit(c) && c as int - '0' as int == d
  {
    ('0' as int + d) as char
  }

  /** The value of a string of decimal digits, most significant first. */
  function DecimalValue(s: string): nat
    requires AllDigits(s)
  {
    if s == [] then 0
    else DecimalValue(s[..|s| - 1]) * 10 + (s[|s| - 1] as int - '0' as int)
  }

  /** Shortest decimal rendering of a natural number (no leading zeros). */
  function NatToDecimal(n: nat): (s: string)
    ensures 1 <= |s| && AllDigits(s)
    ensures s[0] == '0' ==> n == 0 && s == "0"
    decreases n
  {
    if n < 10 then [DigitChar(n)] else NatToDecimal(n / 10) + [DigitChar(n % 10)]
  }

  lemma {:induction false} DecimalValueOfNatToDecimal(n: nat)
    ensures DecimalValue(NatToDecimal(n)) == n
    decreases n
  {
    var s := NatToDecimal(n);
    if n >= 10 {
      DecimalValueOfNatToDecimal(n / 10);
      assert s[..|s| - 1] == NatToDecimal(n / 10);
    }
  }

  /** `fmt.Sprintf("%d", n)` and `strconv.Itoa(n)`: a `-` for a negative number, then the shortest digits of its magnitude. */
  function Itoa(n: int): (s: string)
    ensures 1 <= |s|
    ensures s[0] == '-' <==> n < 0
    ensures CanonicalDecimal(s)
    ensures DecimalValue(Magnitude(s)) == if n < 0 then -n else n
  {
    if n < 0 then
      DecimalValueOfNatToDecimal(-n);
      var s := "-" + NatToDecimal(-n);
      assert Magnitude(s) == NatToDecimal(-n);
      s
    else
      DecimalValueOfNatToDecimal(n);
      NatToDecimal(n)
  }

  /** The text after an optional leading sign. */
  function Magnitude(s: string): string {
    if |s| > 0 && (s[0] == '+' || s[0] == '-') then s[1..] else s
  }

  /** Text `Atoi` accepts as a number: an optional `+` or `-`, then at least one decimal digit. */
  predicate IsIntText(s: string) {
    Magnitude(s) != [] && AllDigits(Magnitude(s))
  }

  /** The signed value of number text. */
  function SignedValue(s: string): int
    requires IsIntText(s)
  {
    var m: int := DecimalValue(Magnitude(s));
    if s[0] == '-' then -m else m
  }

  /** The text `%d` prints: no `+`, no leading zero, and no `-0`. */
  predicate CanonicalDecimal(s: string) {
    IsIntText(s) && s[0] != '+' && (Magnitude(s)[0] == '0' ==> s == "0")
  }

  /** `strconv.Quote`, restricted to its effect on printable text without quotes or backslashes. */
  function Quote(s: string): string {
    "\"" + s + "\""
  }

  /** The text of the `*strconv.NumError` that `Atoi` returns. */
  function NumErrorText(num: string, reason: string): string {
    "strconv.Atoi: parsing " + Quote(num) + ": " + reason
  }

  const InvalidSyntax: string := "invalid syntax"
  const OutOfRange: string := "value out of range"

  /**
   * `strconv.Atoi`: an optional `+` or `-` sign followed by at least one
   * decimal digit; anything else is a syntax error, and a value outside the
   * 64-bit range is a range error. Errors are carried as their rendered text.
   */
  function Atoi(s: string): (r: Result<int, string>)
    ensures r.Success? <==> IsIntText(s) && MinInt64 <= SignedValue(s) <= MaxInt64
    ensures r.Success? ==> r.value == SignedValue(s)
    ensures !IsIntText(s) ==> r == Failure(NumErrorText(s, InvalidSyntax))
    ensures IsIntText(s) && r.Failure? ==> r == Failure(NumErrorText(s, OutOfRange))
  {
    var negative := |s| > 0 && s[0] == '-';
    var digits := Magnitude(s);
    if digits == [] || !AllDigits(digits) then
      Failure(NumErrorText(s, InvalidSyntax))
    else
      var magnitude: int := DecimalValue(digits);
      var v := if negative then -magnitude else magnitude;
      if v < MinInt64 || MaxInt64 < v then Failure(NumErrorText(s, OutOfRange))
      else Success(v)
  }

  /** Parsing the rendering of any 64-bit integer gives that integer back. */
  lemma {:induction false} AtoiItoa(n: int)
    requires MinInt64 <= n <= MaxInt64
    ensures Atoi(Itoa(n)) == Success(n)
  {
    var s := Itoa(n);
    if n < 0 {
      DecimalValueOfNatToDecimal(-n);
      assert s[1..] == NatToDecimal(-n);
    } else {
      DecimalValueOfNatToDecimal(n);
    }
  }

  /** A digit string without a leading zero is the `%d` rendering of its own value. */
  lemma {:induction false} NatToDecimalOfDecimalValue(d: string)
    requires 1 <= |d| && AllDigits(d) && (d[0] == '0' ==> d == "0")
    ensures NatToDecimal(DecimalValue(d)) == d
    decreases |d|
  {
    var v := DecimalValue(d);
    if |d| == 1 {
      assert d[..0] == [];
    } else {
      var init := d[..|d| - 1];
      assert init[0] == d[0] && AllDigits(init);
      NatToDecimalOfDecimalValue(init);
      LeadingDigitPositive(init);
      assert v / 10 == DecimalValue(init) && v % 10 == d[|d| - 1] as int - '0' as int;
      assert d == init + [d[|d| - 1]];
    }
  }

  lemma {:induction false} LeadingDigitPositive(d: string)
    requires 1 <= |d| && AllDigits(d) && d[0] != '0'
    ensures DecimalValue(d) >= 1
    decreases |d|
  {
    if |d| > 1 {
      var init := d[..|d| - 1];
      assert init[0] == d[0] && AllDigits(init);
      LeadingDigitPositive(init);
    }
  }

  /** Every text `%d` could print that `Atoi` accepts is printed back as itself. */
  lemma ItoaAtoi(s: string)
    requires CanonicalDecimal(s) && Atoi(s).Success?
    ensures Itoa(Atoi(s).value) == s
  {
    var m := Magnitude(s);
    NatToDecimalOfDecimalValue(m);
    if s[0] == '-' {
      assert s == "-" + m;
    }
  }
}
