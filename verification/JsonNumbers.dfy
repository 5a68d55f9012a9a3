// The text JSON.stringify gives a JavaScript number, and the number a JSON
// numeral denotes.
//
// A finite non-zero number is 0.d1d2..dk * 10^point, where d1..dk is the
// shortest digit string that identifies it (ECMA-262, Number::toString). Which
// digits identify a given double is left to the engine; everything after that
// choice is modelled.
module JsonNumbers {
  import opened Decimal
  import opened Utf16
  import opened Wrappers

  datatype Num =
    | NaN
    | Infinity(negative: bool)
    | Zero(negative: bool)
    | Finite(negative: bool, digits: seq<Digit>, point: int)

  // Shortest digits: no zero at either end.
  predicate Shortest(ds: seq<Digit>) {
    |ds| > 0 && ds[0] != 0 && ds[|ds| - 1] != 0
  }

  predicate Valid(n: Num) {
    n.Finite? ==> Shortest(n.digits)
  }

  const MINUS: CodeUnit := 45
  const PLUS: CodeUnit := 43
  const POINT: CodeUnit := 46
  const LETTER_E: CodeUnit := 101

  function Zeros(k: nat): (ds: seq<Digit>)
    ensures |ds| == k
    ensures forall i :: 0 <= i < k ==> ds[i] == 0
  {
    seq(k, _ => 0)
  }

  function DigitUnit(d: Digit): (u: CodeUnit)
    ensures IsDigitUnit(u) && u - 48 == d
  {
    var v: int := d;
    48 + v
  }

  function Units(ds: seq<Digit>): (s: JsText)
    ensures |s| == |ds|
    ensures forall i :: 0 <= i < |s| ==> s[i] == DigitUnit(ds[i])
  {
    seq(|ds|, i requires 0 <= i < |ds| => DigitUnit(ds[i]))
  }

  function Abs(e: int): nat {
    if e < 0 then -e else e
  }

  function SignText(negative: bool): JsText {
    if negative then [MINUS] else []
  }

  function FractionText(fraction: seq<Digit>): JsText {
    if fraction == [] then [] else [POINT] + Units(fraction)
  }

  function ExponentText(exponent: Option<int>): JsText {
    match exponent
    case None => []
    case Some(e) => [LETTER_E, if e < 0 then MINUS else PLUS] + Units(ToDigits(Abs(e)))
  }

  // The notation Number::toString chooses for digits ds and decimal point n.
  function Magnitude(ds: seq<Digit>, n: int): JsText
    requires Shortest(ds)
  {
    var k := |ds|;
    if k <= n <= 21 then Units(ds + Zeros(n - k))
    else if 0 < n <= 21 then Units(ds[..n]) + FractionText(ds[n..])
    else if -6 < n <= 0 then Units([0]) + FractionText(Zeros(-n) + ds)
    else Units(ds[..1]) + FractionText(ds[1..]) + ExponentText(Some(n - 1))
  }

  // JSON.stringify on a number: numbers JSON cannot express become null.
  function NumberText(n: Num): JsText
    requires Valid(n)
  {
    match n
    case NaN => NULL_TEXT
    case Infinity(_) => NULL_TEXT
    case Zero(_) => Units([0])
    case Finite(negative, ds, point) => SignText(negative) + Magnitude(ds, point)
  }

  const NULL_TEXT: JsText := [110, 117, 108, 108]

  // --- reading -------------------------------------------------------------

  predicate IsDigitUnit(u: CodeUnit) { 48 <= u <= 57 }

  // A unit that could continue a numeral.
  predicate IsNumberUnit(u: CodeUnit) {
    IsDigitUnit(u) || u == POINT || u == LETTER_E || u == 69
  }

  // The text after a value in a JSON text: nothing, or a unit that ends it.
  predicate Delimited(rest: JsText) {
    rest == [] || !IsNumberUnit(rest[0])
  }

  function TakeDigits(s: JsText): (r: (seq<Digit>, JsText))
    ensures |r.0| + |r.1| == |s|
  {
    if s == [] || !IsDigitUnit(s[0]) then ([], s)
    else
      var (ds, rest) := TakeDigits(s[1..]);
      ([s[0] - 48] + ds, rest)
  }

  function StripLeading(ds: seq<Digit>): (r: seq<Digit>)
    ensures |r| <= |ds|
  {
    if ds == [] || ds[0] != 0 then ds else StripLeading(ds[1..])
  }

  function StripTrailing(ds: seq<Digit>): seq<Digit> {
    if ds == [] || ds[|ds| - 1] != 0 then ds else StripTrailing(ds[..|ds| - 1])
  }

  // The number whose integer digits, fraction digits and exponent were read;
  // the sign of zero is not kept.
  function Denoted(negative: bool, whole: seq<Digit>, fraction: seq<Digit>, exponent: int): Num {
    var all := whole + fraction;
    var significant := StripLeading(all);
    if significant == [] then Zero(false)
    else Finite(negative, StripTrailing(significant), |whole| + exponent - (|all| - |significant|))
  }

  function ReadExponent(s: JsText): Option<(int, JsText)> {
    if s == [] || (s[0] != LETTER_E && s[0] != 69) then Some((0, s))
    else
      var signed := |s| > 1 && (s[1] == PLUS || s[1] == MINUS);
      var (ds, rest) := TakeDigits(if signed then s[2..] else s[1..]);
      var magnitude: int := FromDigits(ds);
      if ds == [] then None
      else Some((if signed && s[1] == MINUS then -magnitude else magnitude, rest))
  }

  function ReadFraction(s: JsText): Option<(seq<Digit>, JsText)> {
    if s == [] || s[0] != POINT then Some(([], s))
    else
      var (ds, rest) := TakeDigits(s[1..]);
      if ds == [] then None else Some((ds, rest))
  }

  // A number of section 6 of RFC 8259, and the text after it.
  function ReadNumber(s: JsText): (r: Option<(Num, JsText)>)
    ensures r.Some? ==> |r.value.1| < |s|
  {
    var negative := s != [] && s[0] == MINUS;
    var (whole, afterWhole) := TakeDigits(if negative then s[1..] else s);
    if whole == [] || (whole[0] == 0 && |whole| > 1) then None else
    match ReadFraction(afterWhole)
    case None => None
    case Some((fraction, afterFraction)) =>
      match ReadExponent(afterFraction)
      case None => None
      case Some((exponent, rest)) => Some((Denoted(negative, whole, fraction, exponent), rest))
  }

  lemma {:induction false} TakeUnits(ds: seq<Digit>, rest: JsText)
    requires rest == [] || !IsDigitUnit(rest[0])
    ensures TakeDigits(Units(ds) + rest) == (ds, rest)
  {
    if ds == [] {
      assert Units(ds) + rest == rest;
    } else {
      TakeUnits(ds[1..], rest);
      assert (Units(ds) + rest)[1..] == Units(ds[1..]) + rest;
      assert ds == [ds[0]] + ds[1..];
    }
  }

  lemma AfterTwo(a: CodeUnit, b: CodeUnit, s: JsText, rest: JsText)
    ensures var whole := [a, b] + s + rest;
            |whole| >= 2 && whole[0] == a && whole[1] == b && whole[2..] == s + rest
  {}

  lemma ReadExponentText(exponent: Option<int>, rest: JsText)
    requires Delimited(rest)
    ensures ReadExponent(ExponentText(exponent) + rest)
         == Some((if exponent.Some? then exponent.value else 0, rest))
  {
    match exponent
    case None =>
      assert ExponentText(exponent) + rest == rest;
    case Some(e) =>
      var ds := ToDigits(Abs(e));
      AfterTwo(LETTER_E, if e < 0 then MINUS else PLUS, Units(ds), rest);
      TakeUnits(ds, rest);
      DigitsRoundTrip(Abs(e));
  }

  lemma ReadFractionText(fraction: seq<Digit>, rest: JsText)
    requires rest == [] || (!IsDigitUnit(rest[0]) && rest[0] != POINT)
    ensures ReadFraction(FractionText(fraction) + rest) == Some((fraction, rest))
  {
    if fraction == [] {
      assert FractionText(fraction) + rest == rest;
    } else {
      var s := FractionText(fraction) + rest;
      assert s == [POINT] + (Units(fraction) + rest);
      assert s[0] == POINT;
      assert s[1..] == Units(fraction) + rest;
      TakeUnits(fraction, rest);
    }
  }

  // Any numeral put together from its parts is read back part by part.
  lemma ReadParts(negative: bool, whole: seq<Digit>, fraction: seq<Digit>, exponent: Option<int>, rest: JsText)
    requires |whole| > 0 && (whole[0] != 0 || |whole| == 1)
    requires Delimited(rest)
    ensures ReadNumber(SignText(negative) + (Units(whole) + FractionText(fraction) + ExponentText(exponent)) + rest)
         == Some((Denoted(negative, whole, fraction, if exponent.Some? then exponent.value else 0), rest))
  {
    Regroup(SignText(negative), Units(whole), FractionText(fraction), ExponentText(exponent), rest);
    ReadSigned(negative, whole, fraction, exponent, rest);
  }

  lemma Regroup(a: JsText, b: JsText, c: JsText, d: JsText, e: JsText)
    ensures a + (b + c + d) + e == a + (b + (c + (d + e)))
  {}

  lemma ReadSigned(negative: bool, whole: seq<Digit>, fraction: seq<Digit>, exponent: Option<int>, rest: JsText)
    requires |whole| > 0 && (whole[0] != 0 || |whole| == 1)
    requires Delimited(rest)
    ensures ReadNumber(SignText(negative) + (Units(whole) + (FractionText(fraction) + (ExponentText(exponent) + rest))))
         == Some((Denoted(negative, whole, fraction, if exponent.Some? then exponent.value else 0), rest))
  {
    var afterFraction := ExponentText(exponent) + rest;
    var afterWhole := FractionText(fraction) + afterFraction;
    var body := Units(whole) + afterWhole;
    var s := SignText(negative) + body;
    assert body[0] == Units(whole)[0];
    assert s[0] == MINUS <==> negative;
    assert (if negative then s[1..] else s) == body;
    AfterWholeEnds(fraction, exponent, rest);
    TakeUnits(whole, afterWhole);
    ReadFractionText(fraction, afterFraction);
    ReadExponentText(exponent, rest);
  }

  lemma AfterWholeEnds(fraction: seq<Digit>, exponent: Option<int>, rest: JsText)
    requires Delimited(rest)
    ensures var after := ExponentText(exponent) + rest;
            && (after == [] || (!IsDigitUnit(after[0]) && after[0] != POINT))
            && (FractionText(fraction) + after == [] || !IsDigitUnit((FractionText(fraction) + after)[0]))
  {
    var after := ExponentText(exponent) + rest;
    if exponent.None? {
      assert after == rest;
    } else {
      assert after[0] == LETTER_E;
    }
    if fraction == [] {
      assert FractionText(fraction) + after == after;
    } else {
      assert (FractionText(fraction) + after)[0] == POINT;
    }
  }

  lemma {:induction false} StripLeadingZeros(k: nat, ds: seq<Digit>)
    requires ds == [] || ds[0] != 0
    ensures StripLeading(Zeros(k) + ds) == ds
  {
    if k == 0 {
      assert Zeros(k) + ds == ds;
    } else {
      assert (Zeros(k) + ds)[1..] == Zeros(k - 1) + ds;
      StripLeadingZeros(k - 1, ds);
    }
  }

  lemma {:induction false} StripTrailingZeros(ds: seq<Digit>, k: nat)
    requires ds != [] && ds[|ds| - 1] != 0
    ensures StripTrailing(ds + Zeros(k)) == ds
  {
    if k == 0 {
      assert ds + Zeros(k) == ds;
    } else {
      var s := ds + Zeros(k);
      assert s[..|s| - 1] == ds + Zeros(k - 1);
      StripTrailingZeros(ds, k - 1);
    }
  }

  // Zeros around the shortest digits only move the decimal point.
  lemma DenotedDigits(negative: bool, whole: seq<Digit>, fraction: seq<Digit>, exponent: int,
                      before: nat, ds: seq<Digit>, after: nat)
    requires Shortest(ds)
    requires whole + fraction == Zeros(before) + ds + Zeros(after)
    ensures Denoted(negative, whole, fraction, exponent) == Finite(negative, ds, |whole| + exponent - before)
  {
    assert Zeros(before) + ds + Zeros(after) == Zeros(before) + (ds + Zeros(after));
    StripLeadingZeros(before, ds + Zeros(after));
    StripTrailingZeros(ds, after);
  }

  // The value that survives being written as JSON.
  function Written(n: Num): Option<Num> {
    match n
    case NaN => None
    case Infinity(_) => None
    case Zero(_) => Some(Zero(false))
    case Finite(_, _, _) => Some(n)
  }

  // Reading a printed number gives it back, in every notation.
  lemma NumberRoundTrip(n: Num, rest: JsText)
    requires Valid(n) && Written(n).Some? && Delimited(rest)
    ensures ReadNumber(NumberText(n) + rest) == Some((Written(n).value, rest))
  {
    if n.Zero? {
      ReadParts(false, [0], [], None, rest);
      assert Units([0]) + FractionText([]) + ExponentText(None) == Units([0]);
      assert SignText(false) + Units([0]) + rest == NumberText(n) + rest;
      assert [0] + [] == [0];
      assert [0][1..] == [];
    } else {
      FiniteRoundTrip(n.negative, n.digits, n.point, rest);
    }
  }

  lemma FiniteRoundTrip(negative: bool, ds: seq<Digit>, n: int, rest: JsText)
    requires Shortest(ds) && Delimited(rest)
    ensures ReadNumber(SignText(negative) + Magnitude(ds, n) + rest) == Some((Finite(negative, ds, n), rest))
  {
    var parts := Notation(ds, n);
    MagnitudeParts(ds, n);
    ReadParts(negative, parts.whole, parts.fraction, parts.exponent, rest);
    NotationDenotes(negative, ds, n);
  }

  // The parts denote the number they were made from.
  lemma NotationDenotes(negative: bool, ds: seq<Digit>, n: int)
    requires Shortest(ds)
    ensures var parts := Notation(ds, n);
            Denoted(negative, parts.whole, parts.fraction, Power(parts)) == Finite(negative, ds, n)
  {
    var parts := Notation(ds, n);
    NotationDigits(ds, n);
    DenotedDigits(negative, parts.whole, parts.fraction, Power(parts), parts.before, ds, parts.after);
  }

  // The parts of the chosen notation, and how many zeros pad the digits on
  // the left and on the right.
  datatype Parts = Parts(whole: seq<Digit>, fraction: seq<Digit>, exponent: Option<int>, before: nat, after: nat)

  function Power(parts: Parts): int {
    if parts.exponent.Some? then parts.exponent.value else 0
  }

  ghost function Notation(ds: seq<Digit>, n: int): (parts: Parts)
    requires Shortest(ds)
    ensures |parts.whole| > 0 && (parts.whole[0] != 0 || |parts.whole| == 1)
  {
    var k := |ds|;
    if k <= n <= 21 then Parts(ds + Zeros(n - k), [], None, 0, n - k)
    else if 0 < n <= 21 then Parts(ds[..n], ds[n..], None, 0, 0)
    else if -6 < n <= 0 then Parts([0], Zeros(-n) + ds, None, 1 - n, 0)
    else Parts(ds[..1], ds[1..], Some(n - 1), 0, 0)
  }

  lemma MagnitudeParts(ds: seq<Digit>, n: int)
    requires Shortest(ds)
    ensures var parts := Notation(ds, n);
            Magnitude(ds, n) == Units(parts.whole) + FractionText(parts.fraction) + ExponentText(parts.exponent)
  {
    var parts := Notation(ds, n);
    if parts.exponent.None? {
      var text := Units(parts.whole) + FractionText(parts.fraction);
      assert text + [] == text;
      if parts.fraction == [] {
        assert Units(parts.whole) + [] == Units(parts.whole);
      }
    }
  }

  lemma NotationDigits(ds: seq<Digit>, n: int)
    requires Shortest(ds)
    ensures var parts := Notation(ds, n);
            && parts.whole + parts.fraction == Zeros(parts.before) + ds + Zeros(parts.after)
            && |parts.whole| + Power(parts) - parts.before == n
  {
    var parts := Notation(ds, n);
    assert |parts.whole + parts.fraction| == parts.before + |ds| + parts.after;
  }

  lemma NumberTextStart(n: Num)
    requires Valid(n) && Written(n).Some?
    ensures |NumberText(n)| > 0
    ensures NumberText(n)[0] == MINUS || IsDigitUnit(NumberText(n)[0])
  {}

  predicate Plain(s: JsText) {
    forall u :: u in s ==> u < 128
  }

  // Every unit of a printed number is ASCII.
  lemma NumberTextPlain(n: Num)
    requires Valid(n)
    ensures Plain(NumberText(n))
  {
    match n
    case NaN =>
    case Infinity(_) =>
    case Zero(_) =>
    case Finite(negative, ds, point) =>
      MagnitudePlain(ds, point);
      PlainConcat(SignText(negative), Magnitude(ds, point));
  }

  lemma MagnitudePlain(ds: seq<Digit>, n: int)
    requires Shortest(ds)
    ensures Plain(Magnitude(ds, n))
  {
    MagnitudeParts(ds, n);
    var parts := Notation(ds, n);
    PartsPlain(parts.whole, parts.fraction, parts.exponent);
  }

  lemma PartsPlain(whole: seq<Digit>, fraction: seq<Digit>, exponent: Option<int>)
    ensures Plain(Units(whole) + FractionText(fraction) + ExponentText(exponent))
  {
    UnitsPlain(whole);
    FractionPlain(fraction);
    ExponentPlain(exponent);
    PlainConcat(Units(whole), FractionText(fraction));
    PlainConcat(Units(whole) + FractionText(fraction), ExponentText(exponent));
  }

  lemma FractionPlain(fraction: seq<Digit>)
    ensures Plain(FractionText(fraction))
  {
    UnitsPlain(fraction);
    PlainConcat([POINT], Units(fraction));
  }

  lemma ExponentPlain(exponent: Option<int>)
    ensures Plain(ExponentText(exponent))
  {
    if exponent.Some? {
      UnitsPlain(ToDigits(Abs(exponent.value)));
      PlainConcat([LETTER_E, if exponent.value < 0 then MINUS else PLUS], Units(ToDigits(Abs(exponent.value))));
    }
  }

  lemma UnitsPlain(ds: seq<Digit>)
    ensures Plain(Units(ds))
  {}

  lemma PlainConcat(a: JsText, b: JsText)
    requires Plain(a) && Plain(b)
    ensures Plain(a + b)
  {}
}
