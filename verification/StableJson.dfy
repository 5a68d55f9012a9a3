// The canonical JSON text behind a plan digest: object keys sorted at every
// depth. It is read back by an independent JSON parser, which shows that the
// text determines the value up to key order and nothing less.
module StableJson {
  import opened Sequences
  import opened Utf16
  import opened JsonStrings
  import opened JsonNumbers
  import opened Wrappers

  // A JavaScript value built from literals: what JSON.parse returns, together
  // with undefined and the numbers JSON has no notation for. The fields of an
  // object are in insertion order.
  datatype Value =
    | Undefined
    | Null
    | Bool(b: bool)
    | Number(n: Num)
    | Str(text: JsText)
    | Array(items: seq<Value>)
    | Object(fields: seq<Field>)

  datatype Field = Field(key: JsText, value: Value)

  // Own keys of an object are distinct; digits of a number are the shortest.
  ghost predicate IsValue(v: Value) {
    match v
    case Number(n) => Valid(n)
    case Array(items) => forall i :: 0 <= i < |items| ==> IsValue(items[i])
    case Object(fields) =>
      && DistinctKeys(fields)
      && forall i :: 0 <= i < |fields| ==> IsValue(fields[i].value)
    case _ => true
  }

  ghost predicate DistinctKeys(fields: seq<Field>) {
    forall i, j :: 0 <= i < j < |fields| ==> fields[i].key != fields[j].key
  }

  // --- writing -------------------------------------------------------------

  const COMMA: CodeUnit := 44
  const COLON: CodeUnit := 58
  const LBRACKET: CodeUnit := 91
  const RBRACKET: CodeUnit := 93
  const LBRACE: CodeUnit := 123
  const RBRACE: CodeUnit := 125
  const TRUE_TEXT: JsText := [116, 114, 117, 101]
  const FALSE_TEXT: JsText := [102, 97, 108, 115, 101]

  // An object member whose value is already written.
  datatype Member = Member(key: JsText, text: JsText)

  function StableJson(v: Value): JsText
    requires IsValue(v)
    decreases v, 1
  {
    match v
    case Undefined => NULL_TEXT
    case Null => NULL_TEXT
    case Bool(b) => if b then TRUE_TEXT else FALSE_TEXT
    case Number(n) => NumberText(n)
    case Str(text) => Quoted(text)
    case Array(items) => [LBRACKET] + Commas(ItemTexts(items)) + [RBRACKET]
    case Object(fields) => [LBRACE] + Commas(MemberTexts(SortMembers(Members(fields)))) + [RBRACE]
  }

  function ItemTexts(items: seq<Value>): (texts: seq<JsText>)
    requires forall i :: 0 <= i < |items| ==> IsValue(items[i])
    ensures |texts| == |items|
    decreases items, 0
  {
    if items == [] then [] else [StableJson(items[0])] + ItemTexts(items[1..])
  }

  function Members(fields: seq<Field>): (ms: seq<Member>)
    requires forall i :: 0 <= i < |fields| ==> IsValue(fields[i].value)
    ensures |ms| == |fields|
    ensures forall i :: 0 <= i < |ms| ==> ms[i].key == fields[i].key
    decreases fields, 0
  {
    if fields == [] then []
    else [Member(fields[0].key, StableJson(fields[0].value))] + Members(fields[1..])
  }

  function MemberText(m: Member): JsText {
    Quoted(m.key) + [COLON] + m.text
  }

  function MemberTexts(ms: seq<Member>): (texts: seq<JsText>)
    ensures |texts| == |ms|
  {
    if ms == [] then [] else [MemberText(ms[0])] + MemberTexts(ms[1..])
  }

  // Array.prototype.join(',').
  function Commas(texts: seq<JsText>): JsText {
    if texts == [] then []
    else if |texts| == 1 then texts[0]
    else texts[0] + [COMMA] + Commas(texts[1..])
  }

  // --- sorting by key ------------------------------------------------------

  ghost predicate SortedByKey(ms: seq<Member>) {
    forall i, j :: 0 <= i < j < |ms| ==> Before(ms[i].key, ms[j].key)
  }

  function Insert(m: Member, ms: seq<Member>): (r: seq<Member>)
    ensures multiset(r) == multiset{m} + multiset(ms)
    ensures |r| == |ms| + 1
  {
    if ms == [] then [m]
    else if Before(m.key, ms[0].key) then [m] + ms
    else
      assert ms == [ms[0]] + ms[1..];
      [ms[0]] + Insert(m, ms[1..])
  }

  function SortMembers(ms: seq<Member>): (r: seq<Member>)
    ensures multiset(r) == multiset(ms)
    ensures |r| == |ms|
  {
    if ms == [] then []
    else
      assert ms == [ms[0]] + ms[1..];
      Insert(ms[0], SortMembers(ms[1..]))
  }

  lemma SameElements(ms: seq<Member>, m: Member)
    ensures m in SortMembers(ms) <==> m in ms
  {
    assert m in multiset(ms) <==> m in ms;
    assert m in multiset(SortMembers(ms)) <==> m in SortMembers(ms);
  }

  lemma {:induction false} InsertSorted(m: Member, ms: seq<Member>)
    requires SortedByKey(ms)
    requires forall x :: x in ms ==> x.key != m.key
    ensures SortedByKey(Insert(m, ms))
  {
    if ms == [] {
    } else if Before(m.key, ms[0].key) {
      forall j | 0 < j < |ms| ensures Before(m.key, ms[j].key) {
        BeforeTransitive(m.key, ms[0].key, ms[j].key);
      }
    } else {
      InsertSorted(m, ms[1..]);
      var r := Insert(m, ms[1..]);
      forall j | 0 <= j < |r| ensures Before(ms[0].key, r[j].key) {
        assert r[j] in multiset(r);
        if r[j] == m {
          assert ms[0] in ms;
          BeforeTotal(m.key, ms[0].key);
        } else {
          assert r[j] in ms[1..];
        }
      }
    }
  }

  lemma {:induction false} SortSorts(ms: seq<Member>)
    requires forall i, j :: 0 <= i < j < |ms| ==> ms[i].key != ms[j].key
    ensures SortedByKey(SortMembers(ms))
  {
    if ms != [] {
      SortSorts(ms[1..]);
      forall x | x in SortMembers(ms[1..]) ensures x.key != ms[0].key {
        SameElements(ms[1..], x);
      }
      InsertSorted(ms[0], SortMembers(ms[1..]));
    }
  }

  // Sorted sequences with the same elements are equal.
  lemma {:induction false} SortedUnique(p: seq<Member>, q: seq<Member>)
    requires SortedByKey(p) && SortedByKey(q)
    requires forall m :: m in p <==> m in q
    ensures p == q
  {
    HeadIn(p);
    HeadIn(q);
    if p != [] && q != [] {
      SameHead(p, q);
      NotInTail(p);
      NotInTail(q);
      forall m ensures m in p[1..] <==> m in q[1..] {
        assert m in p <==> m == p[0] || m in p[1..];
        assert m in q <==> m == q[0] || m in q[1..];
      }
      SortedUnique(p[1..], q[1..]);
      assert p == [p[0]] + p[1..] && q == [q[0]] + q[1..];
    }
  }

  lemma HeadIn(ms: seq<Member>)
    ensures ms == [] || ms[0] in ms
  {}

  lemma SameHead(p: seq<Member>, q: seq<Member>)
    requires SortedByKey(p) && SortedByKey(q) && p != [] && q != []
    requires p[0] in q && q[0] in p
    ensures p[0] == q[0]
  {
    if p[0] != q[0] {
      var i :| 0 <= i < |q| && q[i] == p[0];
      var j :| 0 <= j < |p| && p[j] == q[0];
      BeforeTotal(p[0].key, q[0].key);
      assert false;
    }
  }

  lemma NotInTail(p: seq<Member>)
    requires SortedByKey(p) && p != []
    ensures p[0] !in p[1..]
  {
    BeforeTotal(p[0].key, p[0].key);
  }

  // --- meaning -------------------------------------------------------------

  // A JSON value without the accidents of notation: an object is a map.
  datatype Meaning =
    | MNull
    | MBool(b: bool)
    | MNumber(n: Num)
    | MString(text: JsText)
    | MArray(items: seq<Meaning>)
    | MObject(fields: map<JsText, Meaning>)

  // What a value means once written: undefined and the numbers JSON cannot
  // express become null, and zero has no sign.
  function MeaningOf(v: Value): Meaning
    decreases v, 1
  {
    match v
    case Undefined => MNull
    case Null => MNull
    case Bool(b) => MBool(b)
    case Number(n) => (match Written(n) case None => MNull case Some(w) => MNumber(w))
    case Str(text) => MString(text)
    case Array(items) => MArray(ItemMeanings(items))
    case Object(fields) => MObject(FieldMeanings(fields))
  }

  function ItemMeanings(items: seq<Value>): (ms: seq<Meaning>)
    ensures |ms| == |items|
    decreases items, 0
  {
    if items == [] then [] else [MeaningOf(items[0])] + ItemMeanings(items[1..])
  }

  function FieldMeanings(fields: seq<Field>): map<JsText, Meaning>
    decreases fields, 0
  {
    if fields == [] then map[]
    else map[fields[0].key := MeaningOf(fields[0].value)] + FieldMeanings(fields[1..])
  }

  // --- reading -------------------------------------------------------------

  function ParseValue(s: JsText): (r: Option<(Meaning, JsText)>)
    ensures r.Some? ==> |r.value.1| < |s|
    decreases |s|, 0
  {
    if s == [] then None
    else if s[0] == QUOTE then
      match ReadString(s[1..])
      case None => None
      case Some((text, rest)) => Some((MString(text), rest))
    else if s[0] == LBRACKET then
      if |s| > 1 && s[1] == RBRACKET then Some((MArray([]), s[2..])) else
      match ParseItems(s[1..])
      case None => None
      case Some((items, rest)) => Some((MArray(items), rest))
    else if s[0] == LBRACE then
      if |s| > 1 && s[1] == RBRACE then Some((MObject(map[]), s[2..])) else
      match ParseMembers(s[1..])
      case None => None
      case Some((fields, rest)) => Some((MObject(fields), rest))
    else if NULL_TEXT <= s then Some((MNull, s[4..]))
    else if TRUE_TEXT <= s then Some((MBool(true), s[4..]))
    else if FALSE_TEXT <= s then Some((MBool(false), s[5..]))
    else
      match ReadNumber(s)
      case None => None
      case Some((n, rest)) => Some((MNumber(n), rest))
  }

  function ParseItems(s: JsText): (r: Option<(seq<Meaning>, JsText)>)
    ensures r.Some? ==> |r.value.1| < |s|
    decreases |s|, 1
  {
    match ParseValue(s)
    case None => None
    case Some((item, rest)) =>
      if rest == [] then None
      else if rest[0] == RBRACKET then Some(([item], rest[1..]))
      else if rest[0] != COMMA then None
      else
        match ParseItems(rest[1..])
        case None => None
        case Some((items, after)) => Some(([item] + items, after))
  }

  // Of two members with one key the later wins.
  function ParseMembers(s: JsText): (r: Option<(map<JsText, Meaning>, JsText)>)
    ensures r.Some? ==> |r.value.1| < |s|
    decreases |s|, 1
  {
    if s == [] || s[0] != QUOTE then None else
    match ReadString(s[1..])
    case None => None
    case Some((key, afterKey)) =>
      if afterKey == [] || afterKey[0] != COLON then None else
      match ParseValue(afterKey[1..])
      case None => None
      case Some((item, rest)) =>
        if rest == [] then None
        else if rest[0] == RBRACE then Some((map[key := item], rest[1..]))
        else if rest[0] != COMMA then None
        else
          match ParseMembers(rest[1..])
          case None => None
          case Some((fields, after)) => Some((map[key := item] + fields, after))
  }

  // --- the text determines the meaning ----------------------------------------

  // Parsing what was written gives back the meaning and exactly the text that
  // follows, as long as that text cannot prolong a numeral.
  lemma {:induction false} RoundTrip(v: Value, rest: JsText)
    requires IsValue(v) && Delimited(rest)
    ensures ParseValue(StableJson(v) + rest) == Some((MeaningOf(v), rest))
    decreases v, 1, 0
  {
    match v
    case Array(items) =>
      if items != [] {
        ItemsRoundTrip(items, rest);
      }
      ArrayRoundTrip(items, rest);
    case Object(fields) =>
      var ms := SortMembers(Members(fields));
      if fields != [] {
        forall m | m in ms ensures IsMemberOf(m, fields) {
          SameElements(Members(fields), m);
          MembersAreFields(fields, m);
        }
        MembersRoundTrip(ms, fields, rest);
        AllKeys(fields);
        assert Restricted(FieldMeanings(fields), ms) == FieldMeanings(fields);
      }
      ObjectRoundTrip(fields, rest);
    case _ =>
      ScalarRoundTrip(v, rest);
  }

  lemma ScalarRoundTrip(v: Value, rest: JsText)
    requires IsValue(v) && Delimited(rest) && !v.Array? && !v.Object?
    ensures ParseValue(StableJson(v) + rest) == Some((MeaningOf(v), rest))
  {
    match v
    case Number(n) =>
      if Written(n).None? {
        LiteralRoundTrip(rest);
      } else {
        NumberTextStart(n);
        NumberRoundTrip(n, rest);
        ReadsAsNumber(NumberText(n), rest);
      }
    case Str(text) =>
      assert (Quoted(text) + rest)[1..] == Escape(text) + [QUOTE] + rest;
      StringRoundTrip(text, rest);
    case _ =>
      LiteralRoundTrip(rest);
  }

  lemma LiteralRoundTrip(rest: JsText)
    ensures ParseValue(NULL_TEXT + rest) == Some((MNull, rest))
    ensures ParseValue(TRUE_TEXT + rest) == Some((MBool(true), rest))
    ensures ParseValue(FALSE_TEXT + rest) == Some((MBool(false), rest))
  {
    AfterPrefix(NULL_TEXT, rest);
    AfterPrefix(TRUE_TEXT, rest);
    AfterPrefix(FALSE_TEXT, rest);
    assert (NULL_TEXT + rest)[0] == 110 && (TRUE_TEXT + rest)[0] == 116 && (FALSE_TEXT + rest)[0] == 102;
  }

  lemma AfterPrefix(literal: JsText, rest: JsText)
    ensures literal <= literal + rest && (literal + rest)[|literal|..] == rest
  {}

  lemma ReadsAsNumber(text: JsText, rest: JsText)
    requires text != [] && (text[0] == MINUS || IsDigitUnit(text[0]))
    requires ReadNumber(text + rest).Some?
    ensures ParseValue(text + rest)
         == Some((MNumber(ReadNumber(text + rest).value.0), ReadNumber(text + rest).value.1))
  {
    assert (text + rest)[0] == text[0];
  }

  lemma ArrayRoundTrip(items: seq<Value>, rest: JsText)
    requires IsValue(Array(items))
    requires items != [] ==>
      ParseItems(Commas(ItemTexts(items)) + ([RBRACKET] + rest)) == Some((ItemMeanings(items), rest))
    ensures ParseValue(StableJson(Array(items)) + rest) == Some((MArray(ItemMeanings(items)), rest))
  {
    var tail := [RBRACKET] + rest;
    var body := Commas(ItemTexts(items)) + tail;
    Regroup4([LBRACKET], Commas(ItemTexts(items)), [RBRACKET], rest);
    HeadAndTail(LBRACKET, body);
    if items == [] {
      assert body == tail;
      HeadAndTail(RBRACKET, rest);
      assert ([LBRACKET] + body)[2..] == tail[1..];
    } else {
      ItemsStart(items, tail);
      assert ([LBRACKET] + body)[1] == body[0];
    }
  }

  lemma ObjectRoundTrip(fields: seq<Field>, rest: JsText)
    requires IsValue(Object(fields))
    requires fields != [] ==>
      ParseMembers(Commas(MemberTexts(SortMembers(Members(fields)))) + ([RBRACE] + rest))
        == Some((FieldMeanings(fields), rest))
    ensures ParseValue(StableJson(Object(fields)) + rest) == Some((MObject(FieldMeanings(fields)), rest))
  {
    var ms := SortMembers(Members(fields));
    var tail := [RBRACE] + rest;
    var body := Commas(MemberTexts(ms)) + tail;
    Regroup4([LBRACE], Commas(MemberTexts(ms)), [RBRACE], rest);
    HeadAndTail(LBRACE, body);
    if fields == [] {
      assert body == tail;
      HeadAndTail(RBRACE, rest);
      assert ([LBRACE] + body)[2..] == tail[1..];
    } else {
      MembersStart(ms, tail);
      assert ([LBRACE] + body)[1] == body[0];
    }
  }

  // A written value never starts with a closing bracket.
  lemma ValueStart(v: Value)
    requires IsValue(v)
    ensures |StableJson(v)| > 0
    ensures StableJson(v)[0] != RBRACKET && StableJson(v)[0] != RBRACE
  {
    if v.Number? && Written(v.n).Some? {
      NumberTextStart(v.n);
    }
  }

  lemma ItemsStart(items: seq<Value>, rest: JsText)
    requires items != [] && forall i :: 0 <= i < |items| ==> IsValue(items[i])
    ensures var s := Commas(ItemTexts(items)) + rest; |s| > 0 && s[0] != RBRACKET
  {
    ValueStart(items[0]);
    assert Commas(ItemTexts(items))[0] == StableJson(items[0])[0];
  }

  lemma MembersStart(ms: seq<Member>, rest: JsText)
    requires ms != []
    ensures var s := Commas(MemberTexts(ms)) + rest; |s| > 0 && s[0] == QUOTE
  {
    assert Commas(MemberTexts(ms))[0] == MemberText(ms[0])[0];
  }

  lemma LastItem(head: JsText, rest: JsText, meaning: Meaning)
    requires ParseValue(head + ([RBRACKET] + rest)) == Some((meaning, [RBRACKET] + rest))
    ensures ParseItems(head + ([RBRACKET] + rest)) == Some(([meaning], rest))
  {
    HeadAndTail(RBRACKET, rest);
  }

  lemma NextItem(head: JsText, more: JsText, meaning: Meaning, meanings: seq<Meaning>, rest: JsText)
    requires ParseValue(head + ([COMMA] + more)) == Some((meaning, [COMMA] + more))
    requires ParseItems(more) == Some((meanings, rest))
    ensures ParseItems(head + ([COMMA] + more)) == Some(([meaning] + meanings, rest))
  {
    HeadAndTail(COMMA, more);
  }

  lemma ItemsSplit(items: seq<Value>, tail: JsText)
    requires |items| > 1 && forall i :: 0 <= i < |items| ==> IsValue(items[i])
    ensures Commas(ItemTexts(items)) + tail
         == StableJson(items[0]) + ([COMMA] + (Commas(ItemTexts(items[1..])) + tail))
  {
    var texts := ItemTexts(items[1..]);
    HeadAndTail(StableJson(items[0]), texts);
    assert Commas(ItemTexts(items)) == StableJson(items[0]) + [COMMA] + Commas(texts);
    Regroup3(StableJson(items[0]) + [COMMA], Commas(texts), tail);
    Regroup3(StableJson(items[0]), [COMMA], Commas(texts) + tail);
  }

  lemma {:induction false} ItemsRoundTrip(items: seq<Value>, rest: JsText)
    requires items != [] && forall i :: 0 <= i < |items| ==> IsValue(items[i])
    ensures ParseItems(Commas(ItemTexts(items)) + ([RBRACKET] + rest)) == Some((ItemMeanings(items), rest))
    decreases items, 0, 0
  {
    var head := StableJson(items[0]);
    var tail := [RBRACKET] + rest;
    if |items| == 1 {
      assert Commas(ItemTexts(items)) == head;
      RoundTrip(items[0], tail);
      LastItem(head, rest, MeaningOf(items[0]));
      assert items[1..] == [];
      assert ItemMeanings(items) == [MeaningOf(items[0])];
    } else {
      var more := Commas(ItemTexts(items[1..])) + tail;
      ItemsSplit(items, tail);
      RoundTrip(items[0], [COMMA] + more);
      ItemsRoundTrip(items[1..], rest);
      NextItem(head, more, MeaningOf(items[0]), ItemMeanings(items[1..]), rest);
    }
  }

  ghost predicate IsMemberOf(m: Member, fields: seq<Field>)
    requires forall i :: 0 <= i < |fields| ==> IsValue(fields[i].value)
  {
    exists i :: 0 <= i < |fields| && m == Member(fields[i].key, StableJson(fields[i].value))
  }

  lemma {:induction false} MemberAt(fields: seq<Field>, i: nat)
    requires forall i :: 0 <= i < |fields| ==> IsValue(fields[i].value)
    requires i < |fields|
    ensures Members(fields)[i] == Member(fields[i].key, StableJson(fields[i].value))
  {
    if i > 0 {
      MemberAt(fields[1..], i - 1);
    }
  }

  lemma {:induction false} MembersAreFields(fields: seq<Field>, m: Member)
    requires forall i :: 0 <= i < |fields| ==> IsValue(fields[i].value)
    ensures m in Members(fields) <==> IsMemberOf(m, fields)
  {
    if m in Members(fields) {
      var i :| 0 <= i < |fields| && Members(fields)[i] == m;
      MemberAt(fields, i);
    }
    if IsMemberOf(m, fields) {
      var i :| 0 <= i < |fields| && m == Member(fields[i].key, StableJson(fields[i].value));
      MemberAt(fields, i);
    }
  }

  lemma {:induction false} FieldMeaningAt(fields: seq<Field>, i: nat)
    requires DistinctKeys(fields) && i < |fields|
    ensures fields[i].key in FieldMeanings(fields)
    ensures FieldMeanings(fields)[fields[i].key] == MeaningOf(fields[i].value)
  {
    if i > 0 {
      FieldMeaningAt(fields[1..], i - 1);
    } else {
      NoSuchKey(fields[1..], fields[0].key);
    }
  }

  lemma {:induction false} NoSuchKey(fields: seq<Field>, key: JsText)
    requires forall i :: 0 <= i < |fields| ==> fields[i].key != key
    ensures key !in FieldMeanings(fields)
  {
    if fields != [] {
      NoSuchKey(fields[1..], key);
    }
  }

  lemma {:induction false} KeyHasField(fields: seq<Field>, key: JsText) returns (i: nat)
    requires key in FieldMeanings(fields)
    ensures i < |fields| && fields[i].key == key
  {
    if key == fields[0].key {
      i := 0;
    } else {
      i := KeyHasField(fields[1..], key);
      i := i + 1;
    }
  }

  ghost function KeysOf(ms: seq<Member>): set<JsText> {
    set m | m in ms :: m.key
  }

  // The part of an object that some of its members make up.
  ghost function Restricted(meanings: map<JsText, Meaning>, ms: seq<Member>): map<JsText, Meaning> {
    map key | key in KeysOf(ms) && key in meanings :: meanings[key]
  }

  lemma RestrictedToOne(meanings: map<JsText, Meaning>, ms: seq<Member>)
    requires |ms| == 1 && ms[0].key in meanings
    ensures Restricted(meanings, ms) == map[ms[0].key := meanings[ms[0].key]]
  {
    assert ms == [ms[0]];
    assert KeysOf(ms) == {ms[0].key};
  }

  lemma RestrictedToMore(meanings: map<JsText, Meaning>, ms: seq<Member>)
    requires |ms| > 1 && ms[0].key in meanings
    ensures Restricted(meanings, ms)
         == map[ms[0].key := meanings[ms[0].key]] + Restricted(meanings, ms[1..])
  {
    assert KeysOf(ms) == {ms[0].key} + KeysOf(ms[1..]) by {
      assert ms == [ms[0]] + ms[1..];
    }
  }

  lemma AllKeys(fields: seq<Field>)
    requires IsValue(Object(fields))
    ensures KeysOf(SortMembers(Members(fields))) == FieldMeanings(fields).Keys
  {
    var ms := SortMembers(Members(fields));
    forall key | key in KeysOf(ms) ensures key in FieldMeanings(fields) {
      var m :| m in ms && m.key == key;
      SameElements(Members(fields), m);
      var i :| 0 <= i < |fields| && Members(fields)[i] == m;
      FieldMeaningAt(fields, i);
    }
    forall key | key in FieldMeanings(fields) ensures key in KeysOf(ms) {
      var i := KeyHasField(fields, key);
      SameElements(Members(fields), Members(fields)[i]);
      assert Members(fields)[i] in ms;
    }
  }

  lemma {:induction false} MembersRoundTrip(ms: seq<Member>, fields: seq<Field>, rest: JsText)
    requires IsValue(Object(fields))
    requires ms != [] && forall m :: m in ms ==> IsMemberOf(m, fields)
    ensures ParseMembers(Commas(MemberTexts(ms)) + ([RBRACE] + rest))
         == Some((Restricted(FieldMeanings(fields), ms), rest))
    decreases fields, 0, |ms|
  {
    var m := ms[0];
    assert m in ms;
    var i :| 0 <= i < |fields| && m == Member(fields[i].key, StableJson(fields[i].value));
    FieldMeaningAt(fields, i);
    var tail := [RBRACE] + rest;
    if |ms| == 1 {
      MemberRoundTrip(m, fields, i, tail);
      OneMember(ms, FieldMeanings(fields), rest);
    } else {
      var more := Commas(MemberTexts(ms[1..])) + tail;
      MemberRoundTrip(m, fields, i, [COMMA] + more);
      MembersRoundTrip(ms[1..], fields, rest);
      MoreMembers(ms, FieldMeanings(fields), rest);
    }
  }

  lemma OneMember(ms: seq<Member>, meanings: map<JsText, Meaning>, rest: JsText)
    requires |ms| == 1 && ms[0].key in meanings
    requires MemberReads(ms[0], meanings[ms[0].key], [RBRACE] + rest)
    ensures ParseMembers(Commas(MemberTexts(ms)) + ([RBRACE] + rest)) == Some((Restricted(meanings, ms), rest))
  {
    LastMember(ms[0], meanings[ms[0].key], rest);
    RestrictedToOne(meanings, ms);
    assert Commas(MemberTexts(ms)) == MemberText(ms[0]);
  }

  lemma MoreMembers(ms: seq<Member>, meanings: map<JsText, Meaning>, rest: JsText)
    requires |ms| > 1 && ms[0].key in meanings
    requires var more := Commas(MemberTexts(ms[1..])) + ([RBRACE] + rest);
             && MemberReads(ms[0], meanings[ms[0].key], [COMMA] + more)
             && ParseMembers(more) == Some((Restricted(meanings, ms[1..]), rest))
    ensures ParseMembers(Commas(MemberTexts(ms)) + ([RBRACE] + rest)) == Some((Restricted(meanings, ms), rest))
  {
    var more := Commas(MemberTexts(ms[1..])) + ([RBRACE] + rest);
    NextMember(ms[0], meanings[ms[0].key], more);
    RestrictedToMore(meanings, ms);
    FirstMember(ms, [RBRACE] + rest);
  }

  lemma FirstMember(ms: seq<Member>, tail: JsText)
    requires |ms| > 1
    ensures Commas(MemberTexts(ms)) + tail
         == MemberText(ms[0]) + ([COMMA] + (Commas(MemberTexts(ms[1..])) + tail))
  {
    assert MemberTexts(ms)[1..] == MemberTexts(ms[1..]);
    Regroup4(MemberText(ms[0]), [COMMA], Commas(MemberTexts(ms[1..])), tail);
  }

  // How the member parser goes on after one member.
  ghost predicate MemberReads(m: Member, meaning: Meaning, rest: JsText) {
    var s := MemberText(m) + rest;
    && s[0] == QUOTE
    && ReadString(s[1..]) == Some((m.key, [COLON] + (m.text + rest)))
    && ParseValue(m.text + rest) == Some((meaning, rest))
  }

  lemma LastMember(m: Member, meaning: Meaning, rest: JsText)
    requires MemberReads(m, meaning, [RBRACE] + rest)
    ensures ParseMembers(MemberText(m) + ([RBRACE] + rest)) == Some((map[m.key := meaning], rest))
  {
    var tail := [RBRACE] + rest;
    assert tail[1..] == rest;
    assert ([COLON] + (m.text + tail))[1..] == m.text + tail;
  }

  lemma NextMember(m: Member, meaning: Meaning, more: JsText)
    requires MemberReads(m, meaning, [COMMA] + more)
    requires ParseMembers(more).Some?
    ensures ParseMembers(MemberText(m) + ([COMMA] + more))
         == Some((map[m.key := meaning] + ParseMembers(more).value.0, ParseMembers(more).value.1))
  {
    var tail := [COMMA] + more;
    assert tail[1..] == more;
    assert ([COLON] + (m.text + tail))[1..] == m.text + tail;
  }

  // One member, up to the comma or brace after it.
  lemma MemberRoundTrip(m: Member, fields: seq<Field>, i: nat, rest: JsText)
    requires IsValue(Object(fields))
    requires i < |fields| && m == Member(fields[i].key, StableJson(fields[i].value))
    requires Delimited(rest)
    ensures MemberReads(m, MeaningOf(fields[i].value), rest)
    decreases fields, 0, 0
  {
    RoundTrip(fields[i].value, rest);
    MemberKeyReads(m, rest);
  }

  lemma MemberKeyReads(m: Member, rest: JsText)
    ensures (MemberText(m) + rest)[0] == QUOTE
    ensures ReadString((MemberText(m) + rest)[1..]) == Some((m.key, [COLON] + (m.text + rest)))
  {
    var after := [COLON] + (m.text + rest);
    assert MemberText(m) + rest == [QUOTE] + (Escape(m.key) + [QUOTE] + after);
    assert (MemberText(m) + rest)[1..] == Escape(m.key) + [QUOTE] + after;
    StringRoundTrip(m.key, after);
  }

  // --- the meaning determines the text ----------------------------------------

  lemma {:induction false} SameMeaningSameText(a: Value, b: Value)
    requires IsValue(a) && IsValue(b)
    requires MeaningOf(a) == MeaningOf(b)
    ensures StableJson(a) == StableJson(b)
    decreases a, 1
  {
    match a
    case Array(items) =>
      SameItems(items, b.items);
    case Object(fields) =>
      SameMembers(fields, b.fields);
      SortSorts(Members(fields));
      SortSorts(Members(b.fields));
      forall m ensures m in SortMembers(Members(fields)) <==> m in SortMembers(Members(b.fields)) {
        SameElements(Members(fields), m);
        SameElements(Members(b.fields), m);
      }
      SortedUnique(SortMembers(Members(fields)), SortMembers(Members(b.fields)));
    case Number(n) =>
      if b.Number? {
        assert Written(n) == Written(b.n);
      }
    case _ =>
  }

  lemma {:induction false} SameItems(p: seq<Value>, q: seq<Value>)
    requires IsValue(Array(p)) && IsValue(Array(q))
    requires ItemMeanings(p) == ItemMeanings(q)
    ensures ItemTexts(p) == ItemTexts(q)
    decreases p, 0
  {
    if p != [] {
      assert ItemMeanings(p)[0] == ItemMeanings(q)[0];
      assert ItemMeanings(p)[1..] == ItemMeanings(q)[1..];
      SameMeaningSameText(p[0], q[0]);
      SameItems(p[1..], q[1..]);
    }
  }

  lemma SameMembers(p: seq<Field>, q: seq<Field>)
    requires IsValue(Object(p)) && IsValue(Object(q))
    requires FieldMeanings(p) == FieldMeanings(q)
    ensures forall m :: m in Members(p) <==> m in Members(q)
    decreases p, 0
  {
    forall m ensures m in Members(p) <==> m in Members(q) {
      if m in Members(p) {
        var i :| 0 <= i < |p| && Members(p)[i] == m;
        FieldMeaningAt(p, i);
        var j := KeyHasField(q, p[i].key);
        FieldMeaningAt(q, j);
        SameMeaningSameText(p[i].value, q[j].value);
        MemberAt(p, i);
        MemberAt(q, j);
      }
      if m in Members(q) {
        var j :| 0 <= j < |q| && Members(q)[j] == m;
        FieldMeaningAt(q, j);
        var i := KeyHasField(p, q[j].key);
        FieldMeaningAt(p, i);
        SameMeaningSameText(p[i].value, q[j].value);
        MemberAt(p, i);
        MemberAt(q, j);
      }
    }
  }

  // Two values have one text exactly when they are equal up to key order, at
  // every depth.
  lemma CanonicalText(a: Value, b: Value)
    requires IsValue(a) && IsValue(b)
    ensures StableJson(a) == StableJson(b) <==> MeaningOf(a) == MeaningOf(b)
  {
    if StableJson(a) == StableJson(b) {
      RoundTrip(a, []);
      RoundTrip(b, []);
    }
    if MeaningOf(a) == MeaningOf(b) {
      SameMeaningSameText(a, b);
    }
  }

  // The text alone marks where it ends.
  lemma SelfDelimiting(a: Value, b: Value, afterA: JsText, afterB: JsText)
    requires IsValue(a) && IsValue(b) && Delimited(afterA) && Delimited(afterB)
    requires StableJson(a) + afterA == StableJson(b) + afterB
    ensures MeaningOf(a) == MeaningOf(b) && afterA == afterB
  {
    RoundTrip(a, afterA);
    RoundTrip(b, afterB);
  }

  // The text has a faithful UTF-8 encoding, whatever strings the value holds,
  // so hashing its bytes hashes the text.
  lemma {:induction false} TextWellFormed(v: Value)
    requires IsValue(v)
    ensures WellFormed(StableJson(v))
    decreases v, 1
  {
    match v
    case Array(items) =>
      ItemTextsWellFormed(items);
      CommasWellFormed(ItemTexts(items));
      Bracketed(LBRACKET, Commas(ItemTexts(items)), RBRACKET);
    case Object(fields) =>
      FieldsWellFormed(fields);
    case _ =>
      ScalarWellFormed(v);
  }

  lemma ScalarWellFormed(v: Value)
    requires IsValue(v) && !v.Array? && !v.Object?
    ensures WellFormed(StableJson(v))
  {
    match v
    case Number(n) =>
      NumberWellFormed(n);
    case Str(text) =>
      QuotedWellFormed(text);
    case _ =>
      LiteralsWellFormed();
  }

  lemma NumberWellFormed(n: Num)
    requires Valid(n)
    ensures WellFormed(NumberText(n))
  {
    NumberTextPlain(n);
    assert forall i :: 0 <= i < |NumberText(n)| ==> NumberText(n)[i] in NumberText(n);
    PlainIsWellFormed(NumberText(n));
  }

  lemma LiteralsWellFormed()
    ensures WellFormed(NULL_TEXT) && WellFormed(TRUE_TEXT) && WellFormed(FALSE_TEXT)
  {
    PlainIsWellFormed(NULL_TEXT);
    PlainIsWellFormed(TRUE_TEXT);
    PlainIsWellFormed(FALSE_TEXT);
  }

  lemma FieldsWellFormed(fields: seq<Field>)
    requires IsValue(Object(fields))
    ensures WellFormed(StableJson(Object(fields)))
    decreases fields, 0
  {
    var ms := SortMembers(Members(fields));
    forall m | m in ms ensures WellFormed(m.text) {
      SameElements(Members(fields), m);
      var i :| 0 <= i < |fields| && Members(fields)[i] == m;
      MemberAt(fields, i);
      TextWellFormed(fields[i].value);
    }
    MemberTextsWellFormed(ms);
    CommasWellFormed(MemberTexts(ms));
    Bracketed(LBRACE, Commas(MemberTexts(ms)), RBRACE);
  }

  lemma Bracketed(open: CodeUnit, s: JsText, close: CodeUnit)
    requires open < 0xD800 && close < 0xD800 && WellFormed(s)
    ensures WellFormed([open] + s + [close])
  {
    PlainIsWellFormed([open]);
    PlainIsWellFormed([close]);
    WellFormedConcat([open], s);
    WellFormedConcat([open] + s, [close]);
  }

  lemma {:induction false} ItemTextsWellFormed(items: seq<Value>)
    requires IsValue(Array(items))
    ensures forall i :: 0 <= i < |items| ==> WellFormed(ItemTexts(items)[i])
    decreases items, 0
  {
    if items != [] {
      TextWellFormed(items[0]);
      ItemTextsWellFormed(items[1..]);
    }
  }

  lemma {:induction false} MemberTextsWellFormed(ms: seq<Member>)
    requires forall m :: m in ms ==> WellFormed(m.text)
    ensures forall i :: 0 <= i < |ms| ==> WellFormed(MemberTexts(ms)[i])
  {
    if ms != [] {
      QuotedWellFormed(ms[0].key);
      PlainIsWellFormed([COLON]);
      WellFormedConcat(Quoted(ms[0].key), [COLON]);
      assert ms[0] in ms;
      WellFormedConcat(Quoted(ms[0].key) + [COLON], ms[0].text);
      MemberTextsWellFormed(ms[1..]);
    }
  }

  lemma {:induction false} CommasWellFormed(texts: seq<JsText>)
    requires forall i :: 0 <= i < |texts| ==> WellFormed(texts[i])
    ensures WellFormed(Commas(texts))
  {
    if |texts| > 1 {
      CommasWellFormed(texts[1..]);
      PlainIsWellFormed([COMMA]);
      WellFormedConcat(texts[0], [COMMA]);
      WellFormedConcat(texts[0] + [COMMA], Commas(texts[1..]));
    }
  }

  // A digest by any hash that does not collide on the two texts identifies the
  // value up to key order.
  lemma DigestIdentifies<D>(hash: JsText -> D, a: Value, b: Value)
    requires IsValue(a) && IsValue(b)
    requires hash(StableJson(a)) == hash(StableJson(b)) ==> StableJson(a) == StableJson(b)
    ensures hash(StableJson(a)) == hash(StableJson(b)) <==> MeaningOf(a) == MeaningOf(b)
  {
    CanonicalText(a, b);
  }

  // What the text does not tell apart.
  lemma LostDistinctions(negative: bool)
    ensures StableJson(Undefined) == StableJson(Number(NaN)) == StableJson(Number(Infinity(negative)))
         == StableJson(Null)
    ensures StableJson(Number(Zero(true))) == StableJson(Number(Zero(false)))
  {}
}
