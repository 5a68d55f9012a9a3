// Decimal numerals: the text a JavaScript or Python program prints for a
// natural number, and the number it reads back.
module Decimal {

  type Digit = d: nat | d < 10

  function ToDigits(n: nat): (ds: seq<Digit>)
    ensures |ds| > 0
    ensures ds[0] == 0 ==> ds == [0]
  {
    if n < 10 then [n] else ToDigits(n / 10) + [n % 10]
  }

  function FromDigits(ds: seq<Digit>): nat {
    if ds == [] then 0 else 10 * FromDigits(ds[..|ds| - 1]) + ds[|ds| - 1]
  }

  lemma {:induction false} DigitsRoundTrip(n: nat)
    ensures FromDigits(ToDigits(n)) == n
  {
    if n >= 10 {
      DigitsRoundTrip(n / 10);
      assert ToDigits(n)[..|ToDigits(n)| - 1] == ToDigits(n / 10);
    } else {
      assert ToDigits(n)[..0] == [];
    }
  }

  function DigitChar(d: Digit): (c: char)
    ensures '0' <= c <= '9'
  {
    ('0' as int + d) as char
  }

  predicate IsDigit(c: char) {
    '0' <= c <= '9'
  }

  function CharDigit(c: char): Digit
    requires IsDigit(c)
  {
    c as int - '0' as int
  }

  function DigitsText(ds: seq<Digit>): (s: string)
    ensures |s| == |ds|
    ensures forall i :: 0 <= i < |s| ==> s[i] == DigitChar(ds[i])
  {
    seq(|ds|, i requires 0 <= i < |ds| => DigitChar(ds[i]))
  }

  // The numeral of n, as String(n) and f"{n}" print it.
  function Numeral(n: nat): (s: string)
    ensures |s| > 0
    ensures forall c :: c in s ==> IsDigit(c)
  {
    DigitsText(ToDigits(n))
  }

  // The number a run of digits denotes, as int(...) reads it.
  function ReadNumeral(s: string): nat
    requires forall c :: c in s ==> IsDigit(c)
  {
    FromDigits(seq(|s|, i requires 0 <= i < |s| => CharDigit(s[i])))
  }

  lemma NumeralRoundTrip(n: nat)
    ensures ReadNumeral(Numeral(n)) == n
  {
    var s := Numeral(n);
    assert seq(|s|, i requires 0 <= i < |s| => CharDigit(s[i])) == ToDigits(n);
    DigitsRoundTrip(n);
  }

  lemma NumeralInjective(a: nat, b: nat)
    requires Numeral(a) == Numeral(b)
    ensures a == b
  {
    NumeralRoundTrip(a);
    NumeralRoundTrip(b);
  }

  // The longest run of digits at the front of a text.
  function DigitRun(s: string): (k: nat)
    ensures k <= |s|
    ensures forall i :: 0 <= i < k ==> IsDigit(s[i])
    ensures k < |s| ==> !IsDigit(s[k])
  {
    if s == "" || !IsDigit(s[0]) then 0 else 1 + DigitRun(s[1..])
  }

  lemma {:induction false} DigitRunOfNumeral(s: string, rest: string)
    requires forall c :: c in s ==> IsDigit(c)
    requires rest == "" || !IsDigit(rest[0])
    ensures DigitRun(s + rest) == |s|
  {
    if s == "" {
      assert s + rest == rest;
    } else {
      assert s[0] in s;
      assert (s + rest)[1..] == s[1..] + rest;
      DigitRunOfNumeral(s[1..], rest);
    }
  }
}
