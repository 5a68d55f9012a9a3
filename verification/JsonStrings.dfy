// JavaScript strings as sequences of UTF-16 code units, and the quoted form
// JSON.stringify gives them.
module Utf16 {

  type CodeUnit = u: nat | u < 0x1_0000
  type JsText = seq<CodeUnit>

  predicate IsHigh(u: CodeUnit) { 0xD800 <= u < 0xDC00 }

  predicate IsLow(u: CodeUnit) { 0xDC00 <= u < 0xE000 }

  // Every surrogate is half of a pair, so the text has a UTF-8 encoding that
  // loses nothing.
  predicate WellFormed(s: JsText) {
    if s == [] then true
    else if IsHigh(s[0]) then |s| >= 2 && IsLow(s[1]) && WellFormed(s[2..])
    else !IsLow(s[0]) && WellFormed(s[1..])
  }

  lemma {:induction false} WellFormedConcat(a: JsText, b: JsText)
    requires WellFormed(a) && WellFormed(b)
    ensures WellFormed(a + b)
  {
    if a == [] {
      assert a + b == b;
    } else if IsHigh(a[0]) {
      WellFormedConcat(a[2..], b);
      assert (a + b)[2..] == a[2..] + b;
    } else {
      WellFormedConcat(a[1..], b);
      assert (a + b)[1..] == a[1..] + b;
    }
  }

  lemma {:induction false} PlainIsWellFormed(s: JsText)
    requires forall i :: 0 <= i < |s| ==> s[i] < 0xD800
    ensures WellFormed(s)
  {
    if s != [] {
      PlainIsWellFormed(s[1..]);
    }
  }

  // Array.prototype.sort on strings: lexicographic by code unit.
  predicate Before(a: JsText, b: JsText) {
    if b == [] then false
    else if a == [] then true
    else a[0] < b[0] || (a[0] == b[0] && Before(a[1..], b[1..]))
  }

  lemma {:induction false} BeforeTotal(a: JsText, b: JsText)
    ensures a == b || Before(a, b) || Before(b, a)
    ensures !(Before(a, b) && Before(b, a)) && !Before(a, a)
  {
    if a != [] && b != [] {
      BeforeTotal(a[1..], b[1..]);
      assert a == [a[0]] + a[1..] && b == [b[0]] + b[1..];
    }
    if a != [] {
      BeforeTotal(a[1..], a[1..]);
    }
  }

  lemma {:induction false} BeforeTransitive(a: JsText, b: JsText, c: JsText)
    requires Before(a, b) && Before(b, c)
    ensures Before(a, c)
  {
    if a != [] && a[0] == b[0] == c[0] {
      BeforeTransitive(a[1..], b[1..], c[1..]);
    }
  }
}

module JsonStrings {
  import opened Sequences
  import opened Utf16
  import opened Wrappers

  const QUOTE: CodeUnit := 34
  const BACKSLASH: CodeUnit := 92
  const LETTER_U: CodeUnit := 117

  // A hexadecimal digit in lower case, as JSON.stringify writes it.
  function HexDigit(d: nat): CodeUnit
    requires d < 16
  {
    if d < 10 then 48 + d else 87 + d
  }

  function HexValue(u: CodeUnit): Option<nat> {
    if 48 <= u <= 57 then Some(u - 48)
    else if 97 <= u <= 102 then Some(u - 87)
    else if 65 <= u <= 70 then Some(u - 55)
    else None
  }

  // The four hexadecimal digits of a code unit, most significant first.
  datatype Hex = Hex(a: nat, b: nat, c: nat, d: nat)

  function Nibbles(u: CodeUnit): (hex: Hex)
    ensures hex.a < 16 && hex.b < 16 && hex.c < 16 && hex.d < 16
    ensures 4096 * hex.a + 256 * hex.b + 16 * hex.c + hex.d == u
  {
    var q := u / 16;
    var p := q / 16;
    Hex(p / 16, p % 16, q % 16, u % 16)
  }

  function UnicodeEscape(u: CodeUnit): JsText {
    var Hex(a, b, c, d) := Nibbles(u);
    [BACKSLASH, LETTER_U, HexDigit(a), HexDigit(b), HexDigit(c), HexDigit(d)]
  }

  // One code unit that is not part of a surrogate pair.
  function EscapeUnit(u: CodeUnit): JsText {
    match u
    case 8 => [BACKSLASH, 98]
    case 9 => [BACKSLASH, 116]
    case 10 => [BACKSLASH, 110]
    case 12 => [BACKSLASH, 102]
    case 13 => [BACKSLASH, 114]
    case 34 => [BACKSLASH, QUOTE]
    case 92 => [BACKSLASH, BACKSLASH]
    case _ => if u < 32 || IsHigh(u) || IsLow(u) then UnicodeEscape(u) else [u]
  }

  // Surrogate pairs are copied; a lone surrogate is escaped.
  function Escape(s: JsText): JsText {
    if s == [] then []
    else if IsHigh(s[0]) && |s| >= 2 && IsLow(s[1]) then s[..2] + Escape(s[2..])
    else EscapeUnit(s[0]) + Escape(s[1..])
  }

  // JSON.stringify on a string.
  function Quoted(s: JsText): JsText {
    [QUOTE] + Escape(s) + [QUOTE]
  }

  // The character after a backslash, section 7 of RFC 8259, other than u.
  function SimpleEscape(u: CodeUnit): Option<CodeUnit> {
    match u
    case 98 => Some(8)
    case 116 => Some(9)
    case 110 => Some(10)
    case 102 => Some(12)
    case 114 => Some(13)
    case 34 => Some(34)
    case 92 => Some(92)
    case 47 => Some(47)
    case _ => None
  }

  function ReadHex(s: JsText): Option<CodeUnit>
    requires |s| == 4
  {
    match (HexValue(s[0]), HexValue(s[1]), HexValue(s[2]), HexValue(s[3]))
    case (Some(a), Some(b), Some(c), Some(d)) =>
      var n := 4096 * a + 256 * b + 16 * c + d;
      if n < 0x1_0000 then Some(n) else None
    case _ => None
  }

  // Reads string contents up to the closing quotation mark, and returns them
  // with the text that follows it.
  function ReadString(s: JsText): (r: Option<(JsText, JsText)>)
    ensures r.Some? ==> |r.value.1| < |s|
  {
    if s == [] then None
    else if s[0] == QUOTE then Some(([], s[1..]))
    else if s[0] < 32 then None
    else if s[0] != BACKSLASH then Prepend(s[0], ReadString(s[1..]))
    else if |s| < 2 then None
    else if s[1] == LETTER_U then
      if |s| < 6 then None else
      match ReadHex(s[2..6])
      case None => None
      case Some(u) => Prepend(u, ReadString(s[6..]))
    else
      match SimpleEscape(s[1])
      case None => None
      case Some(u) => Prepend(u, ReadString(s[2..]))
  }

  function Prepend(u: CodeUnit, r: Option<(JsText, JsText)>): Option<(JsText, JsText)> {
    match r
    case None => None
    case Some((body, rest)) => Some(([u] + body, rest))
  }

  lemma HexRoundTrip(u: CodeUnit)
    ensures ReadHex(UnicodeEscape(u)[2..6]) == Some(u)
  {
    var Hex(a, b, c, d) := Nibbles(u);
    assert UnicodeEscape(u)[2..6] == [HexDigit(a), HexDigit(b), HexDigit(c), HexDigit(d)];
    HexDigitValue(a);
    HexDigitValue(b);
    HexDigitValue(c);
    HexDigitValue(d);
  }

  lemma HexDigitValue(d: nat)
    requires d < 16
    ensures HexValue(HexDigit(d)) == Some(d)
  {}

  // An escaped unit reads back as that unit, whatever follows.
  lemma ReadEscapedUnit(u: CodeUnit, rest: JsText)
    ensures ReadString(EscapeUnit(u) + rest) == Prepend(u, ReadString(rest))
  {
    var e := EscapeUnit(u);
    assert (e + rest)[|e|..] == rest;
    if |e| == 6 {
      assert (e + rest)[2..6] == UnicodeEscape(u)[2..6];
      HexRoundTrip(u);
    }
  }

  lemma ReadRawUnit(u: CodeUnit, rest: JsText)
    requires u >= 32 && u != QUOTE && u != BACKSLASH
    ensures ReadString([u] + rest) == Prepend(u, ReadString(rest))
  {
    assert ([u] + rest)[1..] == rest;
  }

  // Reading undoes escaping, whatever text follows the closing quotation mark.
  lemma {:induction false} StringRoundTrip(s: JsText, rest: JsText)
    ensures ReadString(Escape(s) + [QUOTE] + rest) == Some((s, rest))
  {
    Regroup3(Escape(s), [QUOTE], rest);
    ReadEscaped(s, rest);
  }

  lemma {:induction false} ReadEscaped(s: JsText, rest: JsText)
    ensures ReadString(Escape(s) + ([QUOTE] + rest)) == Some((s, rest))
  {
    var tail := [QUOTE] + rest;
    if s == [] {
      HeadAndTail(QUOTE, rest);
      assert Escape(s) + tail == tail;
    } else if IsHigh(s[0]) && |s| >= 2 && IsLow(s[1]) {
      ReadEscaped(s[2..], rest);
      Regroup3(s[..2], Escape(s[2..]), tail);
      ReadPair(s[..2], Escape(s[2..]) + tail, s[2..], rest);
      assert s == s[..2] + s[2..];
    } else {
      ReadEscaped(s[1..], rest);
      Regroup3(EscapeUnit(s[0]), Escape(s[1..]), tail);
      ReadEscapedUnit(s[0], Escape(s[1..]) + tail);
      assert s == [s[0]] + s[1..];
    }
  }

  lemma ReadPair(pair: JsText, after: JsText, body: JsText, rest: JsText)
    requires |pair| == 2 && IsHigh(pair[0]) && IsLow(pair[1])
    requires ReadString(after) == Some((body, rest))
    ensures ReadString(pair + after) == Some((pair + body, rest))
  {
    assert pair == [pair[0]] + [pair[1]];
    Regroup3([pair[0]], [pair[1]], after);
    Regroup3([pair[0]], [pair[1]], body);
    ReadRawUnit(pair[1], after);
    ReadRawUnit(pair[0], [pair[1]] + after);
  }

  // The quoted form never contains a lone surrogate, even when the string does.
  lemma {:induction false} EscapeWellFormed(s: JsText)
    ensures WellFormed(Escape(s))
  {
    if s == [] {
    } else if IsHigh(s[0]) && |s| >= 2 && IsLow(s[1]) {
      EscapeWellFormed(s[2..]);
      assert s[..2][2..] == [];
      WellFormedConcat(s[..2], Escape(s[2..]));
    } else {
      EscapeWellFormed(s[1..]);
      PlainOrAsIs(s[0]);
      WellFormedConcat(EscapeUnit(s[0]), Escape(s[1..]));
    }
  }

  lemma PlainOrAsIs(u: CodeUnit)
    ensures WellFormed(EscapeUnit(u))
  {
    if EscapeUnit(u) == [u] {
      assert [u][1..] == [];
    } else {
      PlainIsWellFormed(EscapeUnit(u));
    }
  }

  lemma QuotedWellFormed(s: JsText)
    ensures WellFormed(Quoted(s))
  {
    EscapeWellFormed(s);
    PlainIsWellFormed([QUOTE]);
    WellFormedConcat([QUOTE], Escape(s));
    WellFormedConcat([QUOTE] + Escape(s), [QUOTE]);
  }
}
