// Which text a value gets. That the text can be read back leaves the notation
// open; a digest does not, so it is fixed here, in the terms of ECMA-262:
// Number::toString, QuoteJSONString and the order of Array.prototype.sort.
module JsonLayout {
  import opened Decimal
  import opened Utf16
  import opened JsonStrings
  import opened JsonNumbers
  import opened StableJson
  import opened Sequences
  import opened Wrappers

  // --- numbers -------------------------------------------------------------------

  // A decimal numeral as people write it: no leading zero in front of other
  // whole digits, and no zero at the end of the fraction.
  predicate IsPlain(whole: nat, fraction: seq<Digit>) {
    && (whole > 0 || fraction != [])
    && (fraction != [] ==> fraction[|fraction| - 1] != 0)
  }

  function PlainText(whole: nat, fraction: seq<Digit>): JsText {
    if fraction == [] then Units(ToDigits(whole)) else Units(ToDigits(whole)) + [46] + Units(fraction)
  }

  lemma {:induction false} StripLeadingIs(ds: seq<Digit>) returns (k: nat)
    ensures k <= |ds| && StripLeading(ds) == ds[k..] && ds[..k] == Zeros(k)
    ensures k < |ds| ==> ds[k] != 0
  {
    if ds == [] || ds[0] != 0 {
      k := 0;
    } else {
      var rest := StripLeadingIs(ds[1..]);
      k := rest + 1;
      assert ds[..k] == [ds[0]] + ds[1..][..rest];
      assert Zeros(k) == [0] + Zeros(rest);
      assert ds[1..][rest..] == ds[k..];
    }
  }

  lemma {:induction false} StripTrailingIs(ds: seq<Digit>) returns (k: nat)
    ensures k <= |ds| && StripTrailing(ds) == ds[..k] && ds[k..] == Zeros(|ds| - k)
    ensures k > 0 ==> ds[k - 1] != 0
  {
    if ds == [] || ds[|ds| - 1] != 0 {
      k := |ds|;
    } else {
      k := StripTrailingIs(ds[..|ds| - 1]);
      assert ds[k..] == ds[..|ds| - 1][k..] + [0];
      assert Zeros(|ds| - k) == Zeros(|ds| - 1 - k) + [0];
    }
  }

  // A whole number: its digits without the zeros at the end, and the decimal
  // point after all of them, zeros included.
  lemma WholeShortest(n: nat)
    requires n > 0
    ensures Shortest(StripTrailing(ToDigits(n)))
    ensures |StripTrailing(ToDigits(n))| <= |ToDigits(n)|
    ensures StripTrailing(ToDigits(n)) + Zeros(|ToDigits(n)| - |StripTrailing(ToDigits(n))|) == ToDigits(n)
  {
    var ds := ToDigits(n);
    var k := StripTrailingIs(ds);
    FirstDigit(n);
    assert ds == ds[..k] + ds[k..];
  }

  lemma {:induction false} FirstDigit(n: nat)
    requires n > 0
    ensures ToDigits(n)[0] != 0
  {
    if n >= 10 {
      FirstDigit(n / 10);
    }
  }

  function Power10(k: nat): nat {
    if k == 0 then 1 else 10 * Power10(k - 1)
  }

  lemma {:induction false} DigitCount(n: nat, k: nat)
    requires k > 0
    ensures |ToDigits(n)| <= k <==> n < Power10(k)
    decreases k
  {
    if k == 1 {
      assert Power10(1) == 10 * Power10(0);
      if n >= 10 {
        assert |ToDigits(n)| == |ToDigits(n / 10)| + 1;
      }
    } else {
      DigitCount(n / 10, k - 1);
      if n < 10 {
        PowerPositive(k - 1);
      }
    }
  }

  lemma {:induction false} PowerPositive(k: nat)
    ensures Power10(k) >= 1
  {
    if k > 0 {
      PowerPositive(k - 1);
    }
  }

  lemma TenTo21()
    ensures Power10(21) == 1_000_000_000_000_000_000_000
  {
    assert Power10(3) == 1_000;
    assert Power10(6) == 1_000_000;
    assert Power10(9) == 1_000_000_000;
    assert Power10(12) == 1_000_000_000_000;
    assert Power10(15) == 1_000_000_000_000_000;
    assert Power10(18) == 1_000_000_000_000_000_000;
  }

  // A whole number below 10^21 is written with all its digits and nothing else.
  lemma WholeNumberText(n: nat, negative: bool)
    requires 0 < n < 1_000_000_000_000_000_000_000
    ensures Shortest(StripTrailing(ToDigits(n)))
    ensures NumberText(Finite(negative, StripTrailing(ToDigits(n)), |ToDigits(n)|))
         == (if negative then [45] else []) + Units(ToDigits(n))
  {
    WholeShortest(n);
    TenTo21();
    DigitCount(n, 21);
    WholeText(negative, StripTrailing(ToDigits(n)), |ToDigits(n)|);
  }

  lemma WholeText(negative: bool, ds: seq<Digit>, point: int)
    requires Shortest(ds) && |ds| <= point <= 21
    ensures NumberText(Finite(negative, ds, point))
         == (if negative then [45] else []) + Units(ds + Zeros(point - |ds|))
  {}

  lemma MixedText(negative: bool, ds: seq<Digit>, point: int)
    requires Shortest(ds) && 0 < point < |ds| && point <= 21
    ensures NumberText(Finite(negative, ds, point))
         == (if negative then [45] else []) + (Units(ds[..point]) + ([46] + Units(ds[point..])))
  {}

  lemma SmallText(negative: bool, ds: seq<Digit>, point: int)
    requires Shortest(ds) && -6 < point <= 0
    ensures NumberText(Finite(negative, ds, point))
         == (if negative then [45] else []) + (Units([0]) + ([46] + Units(Zeros(0 - point) + ds)))
  {}

  // The number whose decimal numeral is whole.fraction.
  function NumberOf(negative: bool, whole: nat, fraction: seq<Digit>): Num {
    Denoted(negative, ToDigits(whole), fraction, 0)
  }

  // The numeral with a whole part is the shortest digits and a decimal point.
  lemma LargeNumber(negative: bool, whole: nat, fraction: seq<Digit>)
    requires whole > 0 && IsPlain(whole, fraction) && fraction != []
    ensures NumberOf(negative, whole, fraction) == Finite(negative, ToDigits(whole) + fraction, |ToDigits(whole)|)
    ensures Shortest(ToDigits(whole) + fraction)
  {
    FirstDigit(whole);
    var all := ToDigits(whole) + fraction;
    assert StripLeading(all) == all;
    assert all[|all| - 1] == fraction[|fraction| - 1];
  }

  lemma WholeNumber(negative: bool, whole: nat)
    requires whole > 0
    ensures NumberOf(negative, whole, []) == Finite(negative, StripTrailing(ToDigits(whole)), |ToDigits(whole)|)
  {
    FirstDigit(whole);
    assert ToDigits(whole) + [] == ToDigits(whole);
  }

  lemma SmallNumber(negative: bool, fraction: seq<Digit>) returns (zeros: nat)
    requires IsPlain(0, fraction)
    ensures zeros < |fraction| && fraction[..zeros] == Zeros(zeros) && Shortest(fraction[zeros..])
    ensures NumberOf(negative, 0, fraction) == Finite(negative, fraction[zeros..], 0 - zeros)
  {
    zeros := StripLeadingIs(fraction);
    var ds := fraction[zeros..];
    assert ds[|ds| - 1] == fraction[|fraction| - 1];
    var all := [0] + fraction;
    assert all[1..] == fraction;
    assert ToDigits(0) == [0];
    assert StripLeading(all) == ds;
    assert StripTrailing(ds) == ds;
  }

  // What is to be proved of one plain numeral.
  ghost predicate WrittenPlainly(negative: bool, whole: nat, fraction: seq<Digit>) {
    var n := NumberOf(negative, whole, fraction);
    Valid(n) && NumberText(n) == (if negative then [45] else []) + PlainText(whole, fraction)
  }

  lemma PlainWhole(negative: bool, whole: nat)
    requires whole > 0 && |ToDigits(whole)| <= 21
    ensures WrittenPlainly(negative, whole, [])
  {
    WholeNumber(negative, whole);
    WholeShortest(whole);
    WholeText(negative, StripTrailing(ToDigits(whole)), |ToDigits(whole)|);
  }

  lemma PlainMixed(negative: bool, whole: nat, fraction: seq<Digit>)
    requires whole > 0 && IsPlain(whole, fraction) && fraction != [] && |ToDigits(whole)| <= 21
    ensures WrittenPlainly(negative, whole, fraction)
  {
    var ds, n := ToDigits(whole) + fraction, |ToDigits(whole)|;
    LargeNumber(negative, whole, fraction);
    Cut(ToDigits(whole), fraction);
    MixedText(negative, ds, n);
    Regroup3(Units(ToDigits(whole)), [46], Units(fraction));
  }

  lemma PlainSmall(negative: bool, fraction: seq<Digit>, zeros: nat)
    requires zeros < 6 && zeros < |fraction| && fraction[..zeros] == Zeros(zeros) && Shortest(fraction[zeros..])
    requires NumberOf(negative, 0, fraction) == Finite(negative, fraction[zeros..], 0 - zeros)
    ensures WrittenPlainly(negative, 0, fraction)
  {
    var z: int := zeros;
    assert Zeros(zeros) + fraction[zeros..] == fraction;
    assert ToDigits(0) == [0];
    SmallText(negative, fraction[zeros..], -z);
    Regroup3(Units([0]), [46], Units(fraction));
  }

  // A number from 10^-6 up to 10^21 is written as its decimal numeral.
  lemma PlainNumberText(negative: bool, whole: nat, fraction: seq<Digit>)
    requires IsPlain(whole, fraction)
    requires var n := NumberOf(negative, whole, fraction); n.Finite? ==> -6 < n.point <= 21
    ensures WrittenPlainly(negative, whole, fraction)
  {
    if whole == 0 {
      var zeros := SmallNumber(negative, fraction);
      PlainSmall(negative, fraction, zeros);
    } else if fraction == [] {
      WholeNumber(negative, whole);
      PlainWhole(negative, whole);
    } else {
      LargeNumber(negative, whole, fraction);
      PlainMixed(negative, whole, fraction);
    }
  }

  predicate NoLetter(s: JsText) {
    LETTER_E !in s
  }

  lemma NoLetterConcat(a: JsText, b: JsText)
    requires NoLetter(a) && NoLetter(b)
    ensures NoLetter(a + b)
  {}

  lemma DigitsHoldNoLetter(ds: seq<Digit>)
    ensures NoLetter(Units(ds))
  {}

  lemma FractionHoldsNoLetter(ds: seq<Digit>)
    ensures NoLetter(FractionText(ds))
  {
    DigitsHoldNoLetter(ds);
    NoLetterConcat([POINT], Units(ds));
  }

  lemma MagnitudeHoldsNoLetter(ds: seq<Digit>, point: int)
    requires Shortest(ds) && -6 < point <= 21
    ensures NoLetter(Magnitude(ds, point))
  {
    if |ds| <= point {
      DigitsHoldNoLetter(ds + Zeros(point - |ds|));
    } else if 0 < point {
      DigitsHoldNoLetter(ds[..point]);
      FractionHoldsNoLetter(ds[point..]);
      NoLetterConcat(Units(ds[..point]), FractionText(ds[point..]));
    } else {
      var fraction := Zeros(0 - point) + ds;
      DigitsHoldNoLetter([0]);
      FractionHoldsNoLetter(fraction);
      NoLetterConcat(Units([0]), FractionText(fraction));
    }
  }

  lemma NoExponent(negative: bool, ds: seq<Digit>, point: int)
    requires Shortest(ds) && -6 < point <= 21
    ensures NoLetter(NumberText(Finite(negative, ds, point)))
  {
    MagnitudeHoldsNoLetter(ds, point);
    NoLetterConcat(SignText(negative), Magnitude(ds, point));
  }

  // There is an exponent exactly outside of that range.
  lemma ExponentIff(negative: bool, ds: seq<Digit>, point: int)
    requires Shortest(ds)
    ensures 101 in NumberText(Finite(negative, ds, point)) <==> !(-6 < point <= 21)
  {
    if -6 < point <= 21 {
      NoExponent(negative, ds, point);
      assert 101 == LETTER_E;
    } else {
      ExponentForm(negative, ds, point);
      assert 101 in [101, if point > 0 then 43 else 45];
    }
  }

  // There it is one digit, the others behind a point, and the exponent with
  // its sign.
  lemma ExponentForm(negative: bool, ds: seq<Digit>, point: int)
    requires Shortest(ds) && !(-6 < point <= 21)
    ensures NumberText(Finite(negative, ds, point))
         == (if negative then [45] else [])
            + (Units(ds[..1]) + (if |ds| == 1 then [] else [46] + Units(ds[1..]))
               + ([101, if point > 0 then 43 else 45] + Units(ToDigits(if point > 0 then point - 1 else 1 - point))))
  {
    assert |ds| == 1 ==> ds[1..] == [];
    assert FractionText(ds[1..]) == if |ds| == 1 then [] else [46] + Units(ds[1..]);
    ExponentIs(point);
  }

  lemma ExponentIs(point: int)
    requires !(-6 < point <= 21)
    ensures ExponentText(Some(point - 1))
         == [101, if point > 0 then 43 else 45] + Units(ToDigits(if point > 0 then point - 1 else 1 - point))
  {}

  // --- strings ---------------------------------------------------------------------

  const HEX: JsText := [48, 49, 50, 51, 52, 53, 54, 55, 56, 57, 97, 98, 99, 100, 101, 102]

  // The units copied as they are: all but control characters, the quotation
  // mark, the backslash and surrogates.
  predicate IsCopied(u: CodeUnit) {
    32 <= u && u != 34 && u != 92 && !(0xD800 <= u < 0xE000)
  }

  lemma {:induction false} PlainIsCopied(s: JsText)
    requires forall i :: 0 <= i < |s| ==> IsCopied(s[i])
    ensures Escape(s) == s && Quoted(s) == [34] + s + [34]
  {
    if s != [] {
      PlainIsCopied(s[1..]);
      assert s == [s[0]] + s[1..];
    }
  }

  // A pair of surrogates is copied; a lone one, and a control character
  // without a letter of its own, is written as four hexadecimal digits in lower
  // case; the others are a backslash and a letter or the character itself.
  lemma UnitsWritten(u: CodeUnit)
    ensures Escape([u]) ==
              if u == 8 then [92, 98] else if u == 9 then [92, 116] else if u == 10 then [92, 110]
              else if u == 12 then [92, 102] else if u == 13 then [92, 114]
              else if u == 34 then [92, 34] else if u == 92 then [92, 92]
              else if IsCopied(u) then [u]
              else [92, 117, HEX[u / 4096], HEX[u / 256 % 16], HEX[u / 16 % 16], HEX[u % 16]]
  {
    assert [u][1..] == [];
    if u < 32 || 0xD800 <= u < 0xE000 {
      HexIs(u / 4096);
      HexIs(u / 256 % 16);
      HexIs(u / 16 % 16);
      HexIs(u % 16);
      NibblesAre(u);
    }
  }

  lemma HexIs(d: nat)
    requires d < 16
    ensures HexDigit(d) == HEX[d]
  {}

  lemma NibblesAre(u: CodeUnit)
    ensures Nibbles(u) == Hex(u / 4096, u / 256 % 16, u / 16 % 16, u % 16)
  {}

  // Everything is written unit by unit, but for pairs.
  lemma {:induction false} WrittenApart(a: JsText, b: JsText)
    requires a == [] || b == [] || !(0xD800 <= a[|a| - 1] < 0xDC00) || !(0xDC00 <= b[0] < 0xE000)
    ensures Escape(a + b) == Escape(a) + Escape(b)
  {
    if a == [] {
      assert a + b == b;
    } else if b == [] {
      assert a + b == a;
    } else if IsHigh(a[0]) && |a| >= 2 && IsLow(a[1]) {
      assert (a + b)[2..] == a[2..] + b && (a + b)[..2] == a[..2];
      WrittenApart(a[2..], b);
      Regroup3(a[..2], Escape(a[2..]), Escape(b));
    } else {
      assert (a + b)[1..] == a[1..] + b;
      WrittenApart(a[1..], b);
      Regroup3(EscapeUnit(a[0]), Escape(a[1..]), Escape(b));
    }
  }

  lemma PairIsCopied(high: CodeUnit, low: CodeUnit)
    requires 0xD800 <= high < 0xDC00 <= low < 0xE000
    ensures Escape([high, low]) == [high, low]
  {
    assert [high, low][2..] == [];
  }

  // --- objects -----------------------------------------------------------------------

  // One text comes before another when it is the smaller at the first unit in
  // which they differ, or is a beginning of the other.
  lemma {:induction false} BeforeMeans(a: JsText, b: JsText)
    ensures Before(a, b) <==>
              exists k :: 0 <= k <= |a| && k <= |b| && a[..k] == b[..k]
                          && k < |b| && (k == |a| || a[k] < b[k])
  {
    if a == [] || b == [] {
      if b != [] {
        assert a[..0] == b[..0];
      }
    } else if a[0] != b[0] {
      if a[0] < b[0] {
        assert a[..0] == b[..0];
      }
    } else {
      BeforeMeans(a[1..], b[1..]);
      if k :| 0 <= k <= |a[1..]| && k <= |b[1..]| && a[1..][..k] == b[1..][..k]
              && k < |b[1..]| && (k == |a[1..]| || a[1..][k] < b[1..][k]) {
        assert a[..k + 1] == [a[0]] + a[1..][..k] && b[..k + 1] == [b[0]] + b[1..][..k];
      }
      if k :| 0 <= k <= |a| && k <= |b| && a[..k] == b[..k] && k < |b| && (k == |a| || a[k] < b[k]) {
        assert a[1..][..k - 1] == a[..k][1..] && b[1..][..k - 1] == b[..k][1..];
      }
    }
  }

  // An object is its members between braces, each its quoted key, a colon and
  // its value, in ascending order of the keys.
  lemma ObjectText(fields: seq<Field>) returns (ms: seq<Member>)
    requires IsValue(Object(fields))
    ensures multiset(ms) == multiset(Members(fields))
    ensures forall i, j :: 0 <= i < j < |ms| ==> Before(ms[i].key, ms[j].key)
    ensures StableJson.StableJson(Object(fields)) == [123] + Commas(MemberTexts(ms)) + [125]
  {
    ms := SortMembers(Members(fields));
    SortSorts(Members(fields));
  }

  // Every mark of the notation, as its code.
  lemma Marks(m: Member, items: seq<Value>, negative: bool)
    requires IsValue(Array(items))
    ensures NumberText(Zero(negative)) == [48]
    ensures StableJson.StableJson(Null) == [110, 117, 108, 108]
    ensures StableJson.StableJson(Bool(true)) == [116, 114, 117, 101]
    ensures StableJson.StableJson(Bool(false)) == [102, 97, 108, 115, 101]
    ensures MemberText(m) == [34] + Escape(m.key) + [34] + [58] + m.text
    ensures StableJson.StableJson(Array(items)) == [91] + Commas(ItemTexts(items)) + [93]
  {}

  // The texts of several items are joined by single commas.
  lemma {:induction false} CommasJoin(a: seq<JsText>, b: seq<JsText>)
    requires a != [] && b != []
    ensures Commas(a + b) == Commas(a) + [44] + Commas(b)
  {
    assert (a + b)[1..] == a[1..] + b;
    if |a| == 1 {
      assert a[1..] + b == b;
    } else {
      CommasJoin(a[1..], b);
      assert Commas(a + b) == a[0] + [44] + (Commas(a[1..]) + [44] + Commas(b));
    }
  }

  lemma {:induction false} ItemsInOrder(items: seq<Value>, i: nat)
    requires i < |items| && IsValue(Array(items))
    ensures ItemTexts(items)[i] == StableJson.StableJson(items[i])
  {
    if i > 0 {
      assert IsValue(Array(items[1..]));
      ItemsInOrder(items[1..], i - 1);
    }
  }
}
