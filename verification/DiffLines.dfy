// The unified-diff reader that finds which lines a change added, and the
// zero-context diffs it is given. The reader splits the text the way Python
// does, which is not the way git ends lines.
module DiffLines {
  import opened Wrappers
  import opened Decimal
  import opened PyText
  import opened Sequences

  // --- the reader ----------------------------------------------------------------

  const FILE_MARK := "+++ b/"

  // \d+(?:,\d+)? and the text after it; the count is 1 when it is left out.
  function ReadRange(s: string): Option<(nat, nat, string)> {
    var k := DigitRun(s);
    if k == 0 then None
    else
      var start := ReadNumeral(s[..k]);
      if k < |s| && s[k] == ',' && DigitRun(s[k + 1..]) > 0 then
        var n := DigitRun(s[k + 1..]);
        Some((start, ReadNumeral(s[k + 1..][..n]), s[k + 1..][n..]))
      else Some((start, 1, s[k..]))
  }

  // @@ -\d+(?:,\d+)? \+(\d+)(?:,(\d+))? @@ at the start of a line.
  function ReadHunk(line: string): Option<(nat, nat)> {
    if !("@@ -" <= line) then None else
    match ReadRange(line[4..])
    case None => None
    case Some((_, _, afterOld)) =>
      if !(" +" <= afterOld) then None else
      match ReadRange(afterOld[2..])
      case None => None
      case Some((start, count, afterNew)) => if " @@" <= afterNew then Some((start, count)) else None
  }

  lemma HunkStart(line: string)
    ensures ReadHunk(line).Some? ==> "@@" <= line
  {
    assert "@@ -"[..2] == "@@";
  }

  type Changed = map<string, set<nat>>

  datatype Reader = Reader(path: Option<string>, changed: Changed)

  predicate InRange(n: nat, start: nat, count: nat) {
    start <= n < start + count
  }

  function Lines(start: nat, count: nat): (r: set<nat>)
    ensures forall n: nat :: n in r <==> InRange(n, start, count)
  {
    set n: nat | n < start + count && InRange(n, start, count)
  }

  function ReadLine(r: Reader, line: string): Reader {
    if FILE_MARK <= line then
      var path := line[6..];
      Reader(Some(path), if path in r.changed then r.changed else r.changed[path := {}])
    else
      match (r.path, ReadHunk(line))
      case (Some(path), Some((start, count))) =>
        if count == 0 then r
        else
          var before := if path in r.changed then r.changed[path] else {};
          r.(changed := r.changed[path := before + Lines(start, count)])
      case _ => r
  }

  function ReadAll(r: Reader, lines: seq<string>): Reader {
    if lines == [] then r else ReadLine(ReadAll(r, lines[..|lines| - 1]), lines[|lines| - 1])
  }

  lemma ReadNext(r: Reader, lines: seq<string>, i: nat)
    requires i < |lines|
    ensures ReadAll(r, lines[..i + 1]) == ReadLine(ReadAll(r, lines[..i]), lines[i])
  {
    assert lines[..i + 1][..i] == lines[..i];
  }

  method ParseAddedLines(text: string) returns (changed: Changed)
    ensures changed == ReadAll(Reader(None, map[]), SplitLines(text)).changed
  {
    changed := map[];
    var current: Option<string> := None;
    var lines := SplitLines(text);
    for i := 0 to |lines|
      invariant ReadAll(Reader(None, map[]), lines[..i]) == Reader(current, changed)
      invariant current.Some? ==> current.value in changed
    {
      var line := lines[i];
      ReadNext(Reader(None, map[]), lines, i);
      ghost var before := Reader(current, changed);
      HunkStart(line);
      if FILE_MARK <= line {
        current := Some(line[6..]);
        if line[6..] !in changed {
          changed := changed[line[6..] := {}];
        }
      } else if "@@" <= line && current.Some? {
        var hunk := ReadHunk(line);
        if hunk.Some? && hunk.value.1 != 0 {
          var (start, count) := hunk.value;
          changed := changed[current.value := changed[current.value] + Lines(start, count)];
        }
      }
      assert Reader(current, changed) == ReadLine(before, line);
    }
    assert lines[..|lines|] == lines;
  }

  // --- what the reader acts on -------------------------------------------------------

  datatype Event = File(path: string) | Range(start: nat, count: nat)

  function EventOf(line: string): seq<Event> {
    if FILE_MARK <= line then [File(line[6..])]
    else match ReadHunk(line)
         case None => []
         case Some((start, count)) => [Range(start, count)]
  }

  function Events(lines: seq<string>): seq<Event> {
    if lines == [] then [] else EventOf(lines[0]) + Events(lines[1..])
  }

  function Handle(r: Reader, e: Event): Reader {
    match e
    case File(path) => Reader(Some(path), if path in r.changed then r.changed else r.changed[path := {}])
    case Range(start, count) =>
      match r.path
      case None => r
      case Some(path) =>
        if count == 0 then r
        else
          var before := if path in r.changed then r.changed[path] else {};
          r.(changed := r.changed[path := before + Lines(start, count)])
  }

  function HandleAll(r: Reader, events: seq<Event>): Reader
    decreases |events|
  {
    if events == [] then r else HandleAll(Handle(r, events[0]), events[1..])
  }

  lemma {:induction false} HandleConcat(r: Reader, a: seq<Event>, b: seq<Event>)
    ensures HandleAll(r, a + b) == HandleAll(HandleAll(r, a), b)
    decreases |a|
  {
    if a == [] {
      assert a + b == b;
    } else {
      assert (a + b)[1..] == a[1..] + b;
      HandleConcat(Handle(r, a[0]), a[1..], b);
    }
  }

  lemma {:induction false} EventsConcat(a: seq<string>, b: seq<string>)
    ensures Events(a + b) == Events(a) + Events(b)
  {
    if a == [] {
      assert a + b == b;
    } else {
      assert (a + b)[1..] == a[1..] + b;
      EventsConcat(a[1..], b);
    }
  }

  // Reading lines is handling their events.
  lemma {:induction false} ReadsEvents(r: Reader, lines: seq<string>)
    ensures ReadAll(r, lines) == HandleAll(r, Events(lines))
  {
    if lines != [] {
      var n := |lines| - 1;
      var before := HandleAll(r, Events(lines[..n]));
      ReadsEvents(r, lines[..n]);
      LastEvents(lines);
      HandleConcat(r, Events(lines[..n]), EventOf(lines[n]));
      OneLine(before, lines[n]);
    }
  }

  lemma LastEvents(lines: seq<string>)
    requires lines != []
    ensures Events(lines) == Events(lines[..|lines| - 1]) + EventOf(lines[|lines| - 1])
  {
    var n := |lines| - 1;
    var last := [lines[n]];
    assert lines == lines[..n] + last;
    EventsConcat(lines[..n], last);
    SingleLine(lines[n]);
  }

  lemma SingleLine(line: string)
    ensures Events([line]) == EventOf(line)
  {
    assert [line][1..] == [];
    assert Events([line]) == EventOf(line) + [];
  }

  lemma OneLine(r: Reader, line: string)
    ensures ReadLine(r, line) == HandleAll(r, EventOf(line))
  {
    if EventOf(line) != [] {
      assert EventOf(line)[1..] == [];
    }
  }

  // --- printing a diff --------------------------------------------------------------

  // One change of a zero-context diff: removed lines, then added lines. start is
  // the number of the first added line, or of the line before when none is.
  // The count of a single line may be left out.
  datatype Hunk = Hunk(
    oldStart: nat,
    removed: seq<string>,
    start: nat,
    added: seq<string>,
    shortCounts: bool,
    heading: string)

  // preamble: the lines before the +++ line (diff --git, index, ---).
  datatype FileDiff = FileDiff(preamble: seq<string>, path: string, hunks: seq<Hunk>)

  datatype DiffLine = FileLine(path: string) | HunkLine(hunk: Hunk) | BodyLine(text: string)

  function RangeText(start: nat, count: nat, short: bool): string {
    if count == 1 && short then Numeral(start) else Numeral(start) + "," + Numeral(count)
  }

  function Marker(h: Hunk): string {
    "@@ -" + (RangeText(h.oldStart, |h.removed|, h.shortCounts)
              + (" +" + (RangeText(h.start, |h.added|, h.shortCounts) + " @@")))
  }

  function Render(line: DiffLine): string {
    match line
    case FileLine(path) => FILE_MARK + path
    case HunkLine(h) => Marker(h) + h.heading
    case BodyLine(text) => text
  }

  function Bodies(texts: seq<string>, prefix: string): seq<DiffLine> {
    if texts == [] then [] else [BodyLine(prefix + texts[0])] + Bodies(texts[1..], prefix)
  }

  function HunkLines(hunks: seq<Hunk>): seq<DiffLine> {
    if hunks == [] then []
    else [HunkLine(hunks[0])] + Bodies(hunks[0].removed, "-") + Bodies(hunks[0].added, "+") + HunkLines(hunks[1..])
  }

  function DiffOf(diffs: seq<FileDiff>): seq<DiffLine> {
    if diffs == [] then []
    else Bodies(diffs[0].preamble, "") + [FileLine(diffs[0].path)] + HunkLines(diffs[0].hunks) + DiffOf(diffs[1..])
  }

  // git ends every line with a line feed.
  function Print(lines: seq<DiffLine>): string {
    if lines == [] then "" else Render(lines[0]) + ("\n" + Print(lines[1..]))
  }

  // --- how a printed line is split ------------------------------------------------------

  predicate NoBreak(s: string) {
    forall i :: 0 <= i < |s| ==> !IsBreak(s[i])
  }

  // The lines the reader sees where git printed one.
  function Pieces(line: string): (pieces: seq<string>)
    ensures |pieces| > 0
  {
    SplitLines(line + "\n")
  }

  lemma EmptyLine(b: string)
    ensures SplitLines("\n" + b) == [""] + SplitLines(b)
  {
    assert ("\n" + b)[1..] == b;
    assert TakeLine("\n" + b) == ("", b);
  }

  lemma {:induction false} SplitAtLineFeed(a: string, b: string)
    ensures SplitLines(a + ("\n" + b)) == SplitLines(a + "\n") + SplitLines(b)
    decreases |a|, 1
  {
    if a == "" {
      EmptyLine(b);
      EmptyLine("");
      assert "" + ("\n" + b) == "\n" + b && "" + "\n" == "\n" + "";
      assert SplitLines("\n" + "") == [""];
    } else {
      TakeLineThenMore(a, b);
      SplitRest(a, b, TakeLine(a + "\n").1);
    }
  }

  lemma {:induction false} SplitRest(a: string, b: string, rest: string)
    requires a != "" && |rest| <= |a| && TakeLine(a + "\n").1 == rest
    requires TakeLine(a + ("\n" + b)) == (TakeLine(a + "\n").0, rest + b)
    requires rest != "" ==> rest[|rest| - 1] == '\n'
    ensures SplitLines(a + ("\n" + b)) == SplitLines(a + "\n") + SplitLines(b)
    decreases |a|, 0
  {
    if rest == "" {
      assert rest + b == b;
    } else {
      var c := rest[..|rest| - 1];
      assert rest == c + "\n";
      assert rest + b == c + ("\n" + b);
      SplitAtLineFeed(c, b);
    }
  }

  lemma {:induction false} TakeLineThenMore(a: string, b: string)
    ensures var (line, rest) := TakeLine(a + "\n");
            && TakeLine(a + ("\n" + b)) == (line, rest + b)
            && (rest != "" ==> rest[|rest| - 1] == '\n')
            && |rest| <= |a|
  {
    var s := a + "\n";
    var t := a + ("\n" + b);
    if a == "" {
      assert s == "\n" && t == "\n" + b;
      assert s[0] == '\n' && t[0] == '\n';
      assert s[1..] == "" && t[1..] == b;
      assert "" + b == b;
    } else if s[0] == '\r' && s[1] == '\n' {
      assert t[0] == '\r' && t[1] == '\n';
      assert t[2..] == s[2..] + b;
    } else if IsBreak(s[0]) {
      assert t[0] == s[0] && t[1] == s[1];
      assert t[1..] == s[1..] + b;
    } else {
      TakeLineThenMore(a[1..], b);
      assert s[1..] == a[1..] + "\n";
      assert t[1..] == a[1..] + ("\n" + b);
    }
  }

  // A prefix without breaks stays on the first piece.
  lemma {:induction false} PrefixStays(prefix: string, s: string)
    requires NoBreak(prefix)
    ensures Pieces(prefix + s) == [prefix + Pieces(s)[0]] + Pieces(s)[1..]
  {
    if prefix == "" {
      assert prefix + s == s;
      assert prefix + Pieces(s)[0] == Pieces(s)[0];
    } else {
      PrefixStays(prefix[1..], s);
      var whole := prefix + s + "\n";
      assert prefix + s == [prefix[0]] + (prefix[1..] + s);
      assert whole[1..] == prefix[1..] + s + "\n";
      assert whole[0] == prefix[0];
      assert prefix == [prefix[0]] + prefix[1..];
      assert prefix + Pieces(s)[0] == [prefix[0]] + (prefix[1..] + Pieces(s)[0]);
      PieceCons(prefix[0], prefix[1..] + s);
    }
  }

  lemma PieceCons(c: char, s: string)
    requires !IsBreak(c)
    ensures Pieces([c] + s) == [[c] + Pieces(s)[0]] + Pieces(s)[1..]
  {
    var whole := [c] + s + "\n";
    assert whole[1..] == s + "\n";
    assert whole[0] == c;
  }

  lemma NoBreakIsOnePiece(s: string)
    requires NoBreak(s)
    ensures Pieces(s) == [s]
  {
    PrefixStays(s, "");
    assert s + "" == s;
    assert "" + "\n" == "\n";
    assert TakeLine("\n") == ("", "");
    assert SplitLines("\n") == [""];
    assert Pieces("") == [""];
  }

  // --- a printed hunk header reads back -------------------------------------------------

  lemma ReadRangeText(start: nat, count: nat, short: bool, rest: string)
    requires rest != "" && !IsDigit(rest[0]) && rest[0] != ','
    ensures ReadRange(RangeText(start, count, short) + rest) == Some((start, count, rest))
  {
    if count == 1 && short {
      ReadShortRange(start, rest);
    } else {
      ReadLongRange(start, count, rest);
    }
  }

  lemma ReadShortRange(start: nat, rest: string)
    requires rest != "" && !IsDigit(rest[0]) && rest[0] != ','
    ensures ReadRange(Numeral(start) + rest) == Some((start, 1, rest))
  {
    DigitRunOfNumeral(Numeral(start), rest);
    NumeralRoundTrip(start);
    Cut(Numeral(start), rest);
    assert (Numeral(start) + rest)[|Numeral(start)|] == rest[0];
  }

  lemma ReadLongRange(start: nat, count: nat, rest: string)
    requires rest != "" && !IsDigit(rest[0])
    ensures ReadRange(Numeral(start) + "," + Numeral(count) + rest) == Some((start, count, rest))
  {
    var digits := Numeral(count) + rest;
    var tail := "," + digits;
    Associate(Numeral(start), ",", Numeral(count), rest);
    DigitRunOfNumeral(Numeral(start), tail);
    NumeralRoundTrip(start);
    Cut(Numeral(start), tail);
    Cut(",", digits);
    var s := Numeral(start) + tail;
    var k := |Numeral(start)|;
    assert s[k..] == tail;
    assert s[k] == tail[0];
    assert s[k + 1..] == tail[1..];
    DigitRunOfNumeral(Numeral(count), rest);
    NumeralRoundTrip(count);
    Cut(Numeral(count), rest);
  }

  lemma Associate(a: string, b: string, c: string, d: string)
    ensures a + b + c + d == a + (b + (c + d))
  {}

  lemma ReadMarker(h: Hunk, rest: string)
    ensures ReadHunk(Marker(h) + rest) == Some((h.start, |h.added|))
    ensures !(FILE_MARK <= Marker(h) + rest)
  {
    var oldText := RangeText(h.oldStart, |h.removed|, h.shortCounts);
    var newText := RangeText(h.start, |h.added|, h.shortCounts);
    var afterNew := " @@" + rest;
    var afterOld := " +" + (newText + afterNew);
    var line := Marker(h) + rest;
    Regroup3("@@ -", oldText + (" +" + (newText + " @@")), rest);
    Regroup3(oldText, " +" + (newText + " @@"), rest);
    Regroup3(" +", newText + " @@", rest);
    Regroup3(newText, " @@", rest);
    Cut("@@ -", oldText + afterOld);
    Cut(" +", newText + afterNew);
    ReadRangeText(h.oldStart, |h.removed|, h.shortCounts, afterOld);
    ReadRangeText(h.start, |h.added|, h.shortCounts, afterNew);
    assert line[0] == '@';
  }

  lemma NumeralNoBreak(n: nat)
    ensures NoBreak(Numeral(n))
  {
    forall i | 0 <= i < |Numeral(n)| ensures !IsBreak(Numeral(n)[i]) {
      assert Numeral(n)[i] in Numeral(n);
    }
  }

  lemma NoBreakConcat(a: string, b: string)
    requires NoBreak(a) && NoBreak(b)
    ensures NoBreak(a + b)
  {}

  lemma RangeNoBreak(start: nat, count: nat, short: bool)
    ensures NoBreak(RangeText(start, count, short))
  {
    NumeralNoBreak(start);
    NumeralNoBreak(count);
    NoBreakConcat(Numeral(start), ",");
    NoBreakConcat(Numeral(start) + ",", Numeral(count));
  }

  lemma MarkerNoBreak(h: Hunk)
    ensures NoBreak(Marker(h))
  {
    var oldText := RangeText(h.oldStart, |h.removed|, h.shortCounts);
    var newText := RangeText(h.start, |h.added|, h.shortCounts);
    RangeNoBreak(h.oldStart, |h.removed|, h.shortCounts);
    RangeNoBreak(h.start, |h.added|, h.shortCounts);
    NoBreakConcat(newText, " @@");
    NoBreakConcat(" +", newText + " @@");
    NoBreakConcat(oldText, " +" + (newText + " @@"));
    NoBreakConcat("@@ -", oldText + (" +" + (newText + " @@")));
  }

  // --- meant and stray events ----------------------------------------------------------

  function Meant(line: DiffLine): seq<Event> {
    match line
    case FileLine(path) => [File(path)]
    case HunkLine(h) => [Range(h.start, |h.added|)]
    case BodyLine(_) => []
  }

  // Events the reader finds in a printed line beside the one that is meant.
  function Stray(line: DiffLine): seq<Event> {
    match line
    case FileLine(path) => []
    case HunkLine(h) => Events(Pieces(h.heading)[1..])
    case BodyLine(text) => Events(Pieces(text))
  }

  function AllMeant(lines: seq<DiffLine>): seq<Event> {
    if lines == [] then [] else Meant(lines[0]) + AllMeant(lines[1..])
  }

  // git prints a path with control characters or line separators quoted, not
  // after a bare b/.
  predicate PathsPrintable(lines: seq<DiffLine>) {
    forall i :: 0 <= i < |lines| ==> lines[i].FileLine? ==> NoBreak(lines[i].path)
  }

  // Nothing in the bodies and headings looks like a marker to the reader.
  predicate Quiet(lines: seq<DiffLine>) {
    forall i :: 0 <= i < |lines| ==> Stray(lines[i]) == []
  }

  lemma LineEvents(line: DiffLine)
    requires line.FileLine? ==> NoBreak(line.path)
    ensures Events(Pieces(Render(line))) == Meant(line) + Stray(line)
  {
    match line
    case FileLine(path) =>
      NoBreakConcat(FILE_MARK, path);
      NoBreakIsOnePiece(FILE_MARK + path);
      Cut(FILE_MARK, path);
      assert Events([FILE_MARK + path]) == EventOf(FILE_MARK + path) + Events([]);
    case HunkLine(h) =>
      MarkerNoBreak(h);
      PrefixStays(Marker(h), h.heading);
      ReadMarker(h, Pieces(h.heading)[0]);
      var first := Marker(h) + Pieces(h.heading)[0];
      assert Pieces(Render(line))[1..] == Pieces(h.heading)[1..];
      assert EventOf(first) == [Range(h.start, |h.added|)];
    case BodyLine(text) =>
      assert Meant(line) + Stray(line) == Stray(line);
  }

  lemma {:induction false} PrintedEvents(lines: seq<DiffLine>)
    requires PathsPrintable(lines)
    ensures lines != [] ==>
              Events(SplitLines(Print(lines)))
              == Meant(lines[0]) + Stray(lines[0]) + Events(SplitLines(Print(lines[1..])))
    ensures lines == [] ==> Events(SplitLines(Print(lines))) == []
  {
    if lines != [] {
      SplitAtLineFeed(Render(lines[0]), Print(lines[1..]));
      EventsConcat(Pieces(Render(lines[0])), SplitLines(Print(lines[1..])));
      LineEvents(lines[0]);
    }
  }

  lemma {:induction false} AtLeastMeant(lines: seq<DiffLine>)
    requires PathsPrintable(lines)
    ensures |Events(SplitLines(Print(lines)))| >= |AllMeant(lines)|
    ensures |Events(SplitLines(Print(lines)))| == |AllMeant(lines)| <==> Quiet(lines)
    ensures Quiet(lines) ==> Events(SplitLines(Print(lines))) == AllMeant(lines)
  {
    PrintedEvents(lines);
    if lines != [] {
      AtLeastMeant(lines[1..]);
      QuietCons(lines);
      if Stray(lines[0]) == [] {
        assert Meant(lines[0]) + [] == Meant(lines[0]);
      }
    }
  }

  lemma QuietCons(lines: seq<DiffLine>)
    requires lines != []
    ensures Quiet(lines) <==> Stray(lines[0]) == [] && Quiet(lines[1..])
  {
    assert forall i :: 1 <= i < |lines| ==> lines[i] == lines[1..][i - 1];
  }

  // The reader finds exactly the printed files and ranges, in order, if and
  // only if nothing else in the diff looks like a marker to it.
  lemma ReadsWhatWasPrinted(diffs: seq<FileDiff>)
    requires PathsPrintable(DiffOf(diffs))
    ensures Events(SplitLines(Print(DiffOf(diffs)))) == AllMeant(DiffOf(diffs)) <==> Quiet(DiffOf(diffs))
  {
    AtLeastMeant(DiffOf(diffs));
  }

  // --- the result --------------------------------------------------------------------

  // What a reader has recorded for a path.
  function Recorded(r: Reader, path: string): set<nat> {
    if path in r.changed then r.changed[path] else {}
  }

  lemma {:induction false} BodiesMeanNothing(texts: seq<string>, prefix: string)
    ensures AllMeant(Bodies(texts, prefix)) == []
  {
    if texts != [] {
      BodiesMeanNothing(texts[1..], prefix);
      assert Bodies(texts, prefix)[1..] == Bodies(texts[1..], prefix);
    }
  }

  lemma {:induction false} MeantConcat(a: seq<DiffLine>, b: seq<DiffLine>)
    ensures AllMeant(a + b) == AllMeant(a) + AllMeant(b)
  {
    if a == [] {
      assert a + b == b;
    } else {
      assert (a + b)[1..] == a[1..] + b;
      MeantConcat(a[1..], b);
    }
  }

  function HunkEvents(hunks: seq<Hunk>): seq<Event> {
    if hunks == [] then [] else [Range(hunks[0].start, |hunks[0].added|)] + HunkEvents(hunks[1..])
  }

  lemma {:induction false} HunksMean(hunks: seq<Hunk>)
    ensures AllMeant(HunkLines(hunks)) == HunkEvents(hunks)
  {
    if hunks != [] {
      var h := hunks[0];
      var header := [HunkLine(h)];
      BodiesMeanNothing(h.removed, "-");
      BodiesMeanNothing(h.added, "+");
      HunksMean(hunks[1..]);
      MeantConcat(header + Bodies(h.removed, "-") + Bodies(h.added, "+"), HunkLines(hunks[1..]));
      MeantConcat(header + Bodies(h.removed, "-"), Bodies(h.added, "+"));
      MeantConcat(header, Bodies(h.removed, "-"));
      assert header[1..] == [];
      assert AllMeant(header) == [Range(h.start, |h.added|)];
    }
  }

  lemma DiffMeans(diffs: seq<FileDiff>)
    requires diffs != []
    ensures AllMeant(DiffOf(diffs))
         == [File(diffs[0].path)] + HunkEvents(diffs[0].hunks) + AllMeant(DiffOf(diffs[1..]))
  {
    var d := diffs[0];
    var file := Bodies(d.preamble, "") + [FileLine(d.path)];
    FileMeans(d);
    HunksMean(d.hunks);
    MeantConcat(file + HunkLines(d.hunks), DiffOf(diffs[1..]));
    MeantConcat(file, HunkLines(d.hunks));
  }

  lemma FileMeans(d: FileDiff)
    ensures AllMeant(Bodies(d.preamble, "") + [FileLine(d.path)]) == [File(d.path)]
  {
    var file := [FileLine(d.path)];
    BodiesMeanNothing(d.preamble, "");
    MeantConcat(Bodies(d.preamble, ""), file);
    assert file[1..] == [];
    assert AllMeant(file) == [File(d.path)] + [];
  }

  ghost predicate HunkAdds(hunks: seq<Hunk>, n: nat) {
    exists h :: 0 <= h < |hunks| && InRange(n, hunks[h].start, |hunks[h].added|)
  }

  // Handling the ranges of one file adds exactly its lines to that file.
  lemma {:induction false} HandleHunks(r: Reader, path: string, hunks: seq<Hunk>)
    requires r.path == Some(path) && path in r.changed
    ensures var t := HandleAll(r, HunkEvents(hunks));
            && t.path == Some(path)
            && t.changed.Keys == r.changed.Keys
            && (forall p :: p != path ==> Recorded(t, p) == Recorded(r, p))
            && (forall n: nat :: n in Recorded(t, path) <==> n in Recorded(r, path) || HunkAdds(hunks, n))
    decreases |hunks|
  {
    if hunks != [] {
      var r1 := Handle(r, Range(hunks[0].start, |hunks[0].added|));
      assert HunkEvents(hunks)[1..] == HunkEvents(hunks[1..]);
      HandleHunks(r1, path, hunks[1..]);
      forall n: nat ensures n in Recorded(r1, path) || HunkAdds(hunks[1..], n)
                       <==> n in Recorded(r, path) || HunkAdds(hunks, n)
      {
        assert n in Recorded(r1, path) <==>
          n in Recorded(r, path) || InRange(n, hunks[0].start, |hunks[0].added|);
        FirstHunkAdds(hunks, n);
      }
    }
  }

  lemma FirstHunkAdds(hunks: seq<Hunk>, n: nat)
    requires hunks != []
    ensures HunkAdds(hunks, n) <==>
              InRange(n, hunks[0].start, |hunks[0].added|) || HunkAdds(hunks[1..], n)
  {
    if h :| 1 <= h < |hunks| && InRange(n, hunks[h].start, |hunks[h].added|) {
      assert hunks[1..][h - 1] == hunks[h];
    }
  }

  // The map the reader should return: every path mentioned, with exactly the
  // lines its changes added.
  ghost predicate Records(changed: Changed, diffs: seq<FileDiff>) {
    && (forall path :: path in changed <==> Mentions(diffs, path))
    && (forall path :: path in changed ==> forall n: nat :: n in changed[path] <==> Adds(diffs, path, n))
  }

  ghost predicate Mentions(diffs: seq<FileDiff>, path: string) {
    exists f :: 0 <= f < |diffs| && diffs[f].path == path
  }

  ghost predicate Adds(diffs: seq<FileDiff>, path: string, n: nat) {
    exists f :: 0 <= f < |diffs| && diffs[f].path == path && HunkAdds(diffs[f].hunks, n)
  }

  lemma FirstFile(diffs: seq<FileDiff>, path: string, n: nat)
    requires diffs != []
    ensures Mentions(diffs, path) <==> diffs[0].path == path || Mentions(diffs[1..], path)
    ensures Adds(diffs, path, n) <==>
              (diffs[0].path == path && HunkAdds(diffs[0].hunks, n)) || Adds(diffs[1..], path, n)
  {
    if f :| 1 <= f < |diffs| && diffs[f].path == path {
      assert diffs[1..][f - 1] == diffs[f];
    }
    if f :| 1 <= f < |diffs| && diffs[f].path == path && HunkAdds(diffs[f].hunks, n) {
      assert diffs[1..][f - 1] == diffs[f];
    }
  }

  lemma {:induction false} HandleDiffs(r: Reader, diffs: seq<FileDiff>)
    ensures var t := HandleAll(r, AllMeant(DiffOf(diffs)));
            && (forall path :: path in t.changed <==> path in r.changed || Mentions(diffs, path))
            && (forall path, n: nat :: n in Recorded(t, path) <==> n in Recorded(r, path) || Adds(diffs, path, n))
    decreases |diffs|
  {
    if diffs != [] {
      var path := diffs[0].path;
      var r1 := Handle(r, File(path));
      var r2 := HandleAll(r1, HunkEvents(diffs[0].hunks));
      var rest := AllMeant(DiffOf(diffs[1..]));
      DiffMeans(diffs);
      HandleFile(r, path, HunkEvents(diffs[0].hunks), rest);
      HandleHunks(r1, path, diffs[0].hunks);
      HandleDiffs(r2, diffs[1..]);
      forall p, n: nat
        ensures Mentions(diffs, p) <==> path == p || Mentions(diffs[1..], p)
        ensures Adds(diffs, p, n) <==> (path == p && HunkAdds(diffs[0].hunks, n)) || Adds(diffs[1..], p, n)
      {
        FirstFile(diffs, p, n);
      }
      forall p, n: nat
        ensures n in Recorded(r2, p) <==> n in Recorded(r, p) || (path == p && HunkAdds(diffs[0].hunks, n))
      {
        assert Recorded(r1, p) == Recorded(r, p);
      }
      forall p ensures p in r2.changed <==> p in r.changed || p == path {
        assert p in r2.changed.Keys <==> p in r1.changed.Keys;
      }
    }
  }

  lemma HandleFile(r: Reader, path: string, hunkEvents: seq<Event>, rest: seq<Event>)
    ensures HandleAll(r, [File(path)] + hunkEvents + rest)
         == HandleAll(HandleAll(Handle(r, File(path)), hunkEvents), rest)
  {
    var events := [File(path)] + hunkEvents + rest;
    assert events[1..] == hunkEvents + rest;
    HandleConcat(Handle(r, File(path)), hunkEvents, rest);
  }

  // The reader's result on a printed diff.
  function ReadBack(diffs: seq<FileDiff>): Changed {
    ReadAll(Reader(None, map[]), SplitLines(Print(DiffOf(diffs)))).changed
  }

  // Printing a diff and reading it gives back exactly each path's set of added
  // line numbers, when nothing in it is taken for a marker.
  lemma RoundTrip(diffs: seq<FileDiff>)
    requires PathsPrintable(DiffOf(diffs)) && Quiet(DiffOf(diffs))
    ensures Records(ReadBack(diffs), diffs)
  {
    var r := Reader(None, map[]);
    AtLeastMeant(DiffOf(diffs));
    ReadsEvents(r, SplitLines(Print(DiffOf(diffs))));
    HandleDiffs(r, diffs);
    var t := HandleAll(r, AllMeant(DiffOf(diffs)));
    forall path | path in t.changed
      ensures forall n: nat :: n in t.changed[path] <==> Adds(diffs, path, n)
    {
      assert Recorded(t, path) == t.changed[path];
    }
  }

  // --- which stray markers do harm ---------------------------------------------------------

  // Everything the reader finds in a printed line, and in all of them.
  function Found(line: DiffLine): seq<Event> {
    Meant(line) + Stray(line)
  }

  function AllFound(lines: seq<DiffLine>): seq<Event> {
    if lines == [] then [] else Found(lines[0]) + AllFound(lines[1..])
  }

  lemma {:induction false} FoundConcat(a: seq<DiffLine>, b: seq<DiffLine>)
    ensures AllFound(a + b) == AllFound(a) + AllFound(b)
  {
    if a == [] {
      assert a + b == b;
    } else {
      assert (a + b)[1..] == a[1..] + b;
      FoundConcat(a[1..], b);
    }
  }

  lemma {:induction false} PrintedFinds(lines: seq<DiffLine>)
    requires PathsPrintable(lines)
    ensures Events(SplitLines(Print(lines))) == AllFound(lines)
  {
    PrintedEvents(lines);
    if lines != [] {
      PrintedFinds(lines[1..]);
    }
  }

  // The file the reader is in after some events.
  function PathAfter(path: Option<string>, events: seq<Event>): Option<string>
    decreases |events|
  {
    if events == [] then path
    else PathAfter(if events[0].File? then Some(events[0].path) else path, events[1..])
  }

  // The events say that line n was added to file p.
  predicate Says(path: Option<string>, events: seq<Event>, p: string, n: nat)
    decreases |events|
  {
    events != [] &&
    match events[0]
    case File(q) => Says(Some(q), events[1..], p, n)
    case Range(start, count) =>
      (path == Some(p) && InRange(n, start, count)) || Says(path, events[1..], p, n)
  }

  lemma {:induction false} SaysConcat(path: Option<string>, a: seq<Event>, b: seq<Event>, p: string, n: nat)
    ensures PathAfter(path, a + b) == PathAfter(PathAfter(path, a), b)
    ensures Says(path, a + b, p, n) <==> Says(path, a, p, n) || Says(PathAfter(path, a), b, p, n)
    decreases |a|
  {
    if a == [] {
      assert a + b == b;
    } else {
      assert (a + b)[1..] == a[1..] + b;
      SaysConcat(if a[0].File? then Some(a[0].path) else path, a[1..], b, p, n);
    }
  }

  // The reader records exactly what the events say, and every file they name.
  lemma {:induction false} HandleSays(r: Reader, events: seq<Event>)
    requires r.path.Some? ==> r.path.value in r.changed
    ensures var t := HandleAll(r, events);
            && (forall p :: p in t.changed <==> p in r.changed || File(p) in events)
            && (forall p, n: nat :: n in Recorded(t, p) <==> n in Recorded(r, p) || Says(r.path, events, p, n))
    decreases |events|
  {
    if events != [] {
      var r1 := Handle(r, events[0]);
      HandleSays(r1, events[1..]);
      assert events == [events[0]] + events[1..];
      forall p, n: nat ensures n in Recorded(HandleAll(r, events), p) <==>
                                 n in Recorded(r, p) || Says(r.path, events, p, n)
      {
        HandleOneSays(r, events[0], p, n);
      }
    }
  }

  lemma HandleOneSays(r: Reader, e: Event, p: string, n: nat)
    ensures n in Recorded(Handle(r, e), p) <==>
              n in Recorded(r, p) || (e.Range? && r.path == Some(p) && InRange(n, e.start, e.count))
  {}

  lemma {:induction false} FileLineIsPrinted(diffs: seq<FileDiff>, p: string)
    requires Mentions(diffs, p)
    ensures FileLine(p) in DiffOf(diffs)
  {
    FirstFile(diffs, p, 0);
    if diffs[0].path != p {
      FileLineIsPrinted(diffs[1..], p);
    }
  }

  lemma {:induction false} FileLineIsFound(lines: seq<DiffLine>, p: string)
    requires FileLine(p) in lines
    ensures File(p) in AllFound(lines)
  {
    if lines[0] == FileLine(p) {
      assert File(p) in Found(lines[0]);
    } else {
      FileLineIsFound(lines[1..], p);
    }
  }

  // What is recorded, path by path and line by line.
  lemma RecordsByLine(t: Reader, diffs: seq<FileDiff>)
    ensures Records(t.changed, diffs) <==>
              && (forall p :: p in t.changed <==> Mentions(diffs, p))
              && (forall p, n: nat :: n in Recorded(t, p) <==> Adds(diffs, p, n))
  {
    if Records(t.changed, diffs) {
      forall p, n: nat ensures n in Recorded(t, p) <==> Adds(diffs, p, n) {
        if Adds(diffs, p, n) {
          AddsMentions(diffs, p, n);
        }
      }
    }
    if forall p, n: nat :: n in Recorded(t, p) <==> Adds(diffs, p, n) {
      forall p | p in t.changed ensures forall n: nat :: n in t.changed[p] <==> Adds(diffs, p, n) {
        assert Recorded(t, p) == t.changed[p];
      }
    }
  }

  lemma AddsMentions(diffs: seq<FileDiff>, p: string, n: nat)
    requires Adds(diffs, p, n)
    ensures Mentions(diffs, p)
  {}

  lemma ReadBackSays(diffs: seq<FileDiff>) returns (t: Reader)
    requires PathsPrintable(DiffOf(diffs))
    ensures t.changed == ReadBack(diffs)
    ensures forall p :: p in t.changed <==> File(p) in AllFound(DiffOf(diffs))
    ensures forall p, n: nat :: n in Recorded(t, p) <==> Says(None, AllFound(DiffOf(diffs)), p, n)
  {
    var lines, r := DiffOf(diffs), Reader(None, map[]);
    PrintedFinds(lines);
    ReadsEvents(r, SplitLines(Print(lines)));
    HandleSays(r, AllFound(lines));
    t := HandleAll(r, AllFound(lines));
  }

  ghost predicate FindsOnlyMentioned(diffs: seq<FileDiff>) {
    forall p :: File(p) in AllFound(DiffOf(diffs)) ==> Mentions(diffs, p)
  }

  // For any diffs at all: the reader is right exactly when it finds no file
  // that is not in the diff, and what it finds says what the diff adds.
  lemma RecordsIffSaid(diffs: seq<FileDiff>)
    requires PathsPrintable(DiffOf(diffs))
    ensures Records(ReadBack(diffs), diffs) <==>
              && FindsOnlyMentioned(diffs)
              && forall p, n: nat :: Says(None, AllFound(DiffOf(diffs)), p, n) <==> Adds(diffs, p, n)
  {
    var t := ReadBackSays(diffs);
    RecordsByLine(t, diffs);
    forall p | Mentions(diffs, p) ensures File(p) in AllFound(DiffOf(diffs)) {
      FileLineIsPrinted(diffs, p);
      FileLineIsFound(DiffOf(diffs), p);
    }
  }

  // The file the reader should be in after the first k lines.
  function CurrentPath(lines: seq<DiffLine>, k: nat): Option<string>
    requires k <= |lines|
  {
    if k == 0 then None
    else if lines[k - 1].FileLine? then Some(lines[k - 1].path)
    else CurrentPath(lines, k - 1)
  }

  ghost predicate NoStrayFile(lines: seq<DiffLine>) {
    forall i :: 0 <= i < |lines| ==> OnlyRanges(Stray(lines[i]))
  }

  ghost predicate OnlyRanges(events: seq<Event>) {
    forall e :: e in events ==> e.Range?
  }

  ghost predicate Covers(events: seq<Event>, n: nat) {
    exists e :: e in events && e.Range? && InRange(n, e.start, e.count)
  }

  // A stray range in the i-th line covers line n of the file p.
  ghost predicate StraySays(lines: seq<DiffLine>, i: int, p: string, n: nat) {
    0 <= i < |lines| && CurrentPath(lines, i + 1) == Some(p) && Covers(Stray(lines[i]), n)
  }

  // Stray ranges cover only lines that are added anyway. A range of count 0
  // covers none, and one before the first file is in no file.
  ghost predicate Harmless(diffs: seq<FileDiff>) {
    forall i, p, n: nat :: StraySays(DiffOf(diffs), i, p, n) ==> Adds(diffs, p, n)
  }

  lemma {:induction false} OnlyRangesSay(path: Option<string>, events: seq<Event>, p: string, n: nat)
    requires OnlyRanges(events)
    ensures PathAfter(path, events) == path
    ensures Says(path, events, p, n) <==> path == Some(p) && Covers(events, n)
    decreases |events|
  {
    if events != [] {
      assert events[0] in events && events == [events[0]] + events[1..];
      OnlyRangesSay(path, events[1..], p, n);
    }
  }

  lemma MeantMoves(path: Option<string>, line: DiffLine)
    ensures PathAfter(path, Meant(line)) == if line.FileLine? then Some(line.path) else path
  {}

  lemma LastLine(lines: seq<DiffLine>, k: nat)
    requires k < |lines|
    ensures AllFound(lines[..k + 1]) == AllFound(lines[..k]) + Found(lines[k])
    ensures AllMeant(lines[..k + 1]) == AllMeant(lines[..k]) + Meant(lines[k])
  {
    assert lines[..k + 1] == lines[..k] + [lines[k]];
    FoundConcat(lines[..k], [lines[k]]);
    MeantConcat(lines[..k], [lines[k]]);
    assert [lines[k]][1..] == [];
    assert AllFound([lines[k]]) == Found(lines[k]) + [] && AllMeant([lines[k]]) == Meant(lines[k]) + [];
  }

  lemma OneLineSays(path: Option<string>, line: DiffLine, p: string, n: nat)
    requires OnlyRanges(Stray(line))
    ensures var after := if line.FileLine? then Some(line.path) else path;
            && PathAfter(path, Found(line)) == after == PathAfter(path, Meant(line))
            && (Says(path, Found(line), p, n) <==>
                  Says(path, Meant(line), p, n) || (after == Some(p) && Covers(Stray(line), n)))
  {
    SaysConcat(path, Meant(line), Stray(line), p, n);
    MeantMoves(path, line);
    OnlyRangesSay(if line.FileLine? then Some(line.path) else path, Stray(line), p, n);
  }

  ghost predicate StraySaid(lines: seq<DiffLine>, k: nat, p: string, n: nat) {
    exists i :: 0 <= i < k && StraySays(lines, i, p, n)
  }

  lemma NextStray(lines: seq<DiffLine>, k: nat, p: string, n: nat)
    ensures StraySaid(lines, k + 1, p, n) <==> StraySaid(lines, k, p, n) || StraySays(lines, k, p, n)
  {}

  lemma AddLine(found: seq<Event>, meant: seq<Event>, path: Option<string>, line: DiffLine, p: string, n: nat,
                said: bool)
    requires OnlyRanges(Stray(line))
    requires PathAfter(None, found) == path == PathAfter(None, meant)
    requires Says(None, found, p, n) <==> Says(None, meant, p, n) || said
    ensures var after := if line.FileLine? then Some(line.path) else path;
            && PathAfter(None, found + Found(line)) == after == PathAfter(None, meant + Meant(line))
            && (Says(None, found + Found(line), p, n) <==>
                  Says(None, meant + Meant(line), p, n) || said || (after == Some(p) && Covers(Stray(line), n)))
  {
    SaysConcat(None, found, Found(line), p, n);
    SaysConcat(None, meant, Meant(line), p, n);
    OneLineSays(path, line, p, n);
  }

  // What is found says what is meant, and what the stray ranges say.
  ghost predicate StraysAddUpTo(lines: seq<DiffLine>, k: nat, p: string, n: nat, found: seq<Event>,
                                meant: seq<Event>)
    requires k <= |lines|
  {
    && PathAfter(None, found) == CurrentPath(lines, k) == PathAfter(None, meant)
    && (Says(None, found, p, n) <==> Says(None, meant, p, n) || StraySaid(lines, k, p, n))
  }

  lemma StraysAddNext(lines: seq<DiffLine>, k: nat, p: string, n: nat, found: seq<Event>, meant: seq<Event>)
    requires NoStrayFile(lines) && k < |lines|
    requires StraysAddUpTo(lines, k, p, n, found, meant)
    ensures StraysAddUpTo(lines, k + 1, p, n, found + Found(lines[k]), meant + Meant(lines[k]))
  {
    AddLine(found, meant, CurrentPath(lines, k), lines[k], p, n, StraySaid(lines, k, p, n));
    NextStray(lines, k, p, n);
  }

  lemma {:induction false} StraysAdd(lines: seq<DiffLine>, k: nat, p: string, n: nat)
    requires NoStrayFile(lines) && k <= |lines|
    ensures StraysAddUpTo(lines, k, p, n, AllFound(lines[..k]), AllMeant(lines[..k]))
  {
    if k > 0 {
      StraysAdd(lines, k - 1, p, n);
      StraysAddNext(lines, k - 1, p, n, AllFound(lines[..k - 1]), AllMeant(lines[..k - 1]));
      LastLine(lines, k - 1);
    } else {
      assert lines[..0] == [];
    }
  }

  lemma MeantSaysAdds(diffs: seq<FileDiff>, p: string, n: nat)
    ensures Says(None, AllMeant(DiffOf(diffs)), p, n) <==> Adds(diffs, p, n)
  {
    var r := Reader(None, map[]);
    HandleDiffs(r, diffs);
    HandleSays(r, AllMeant(DiffOf(diffs)));
    assert n in Recorded(HandleAll(r, AllMeant(DiffOf(diffs))), p) <==> Adds(diffs, p, n);
  }

  lemma {:induction false} NoOtherFile(lines: seq<DiffLine>, p: string)
    requires NoStrayFile(lines) && File(p) in AllFound(lines)
    ensures FileLine(p) in lines
  {
    if File(p) in Meant(lines[0]) {
    } else if File(p) in Stray(lines[0]) {
      assert false;
    } else {
      NoStrayTail(lines);
      NoOtherFile(lines[1..], p);
    }
  }

  lemma NoStrayTail(lines: seq<DiffLine>)
    requires lines != [] && NoStrayFile(lines)
    ensures NoStrayFile(lines[1..])
  {
    assert forall i :: 1 <= i < |lines| ==> lines[i] == lines[1..][i - 1];
  }

  lemma {:induction false} PrintedFileIsMentioned(diffs: seq<FileDiff>, p: string)
    requires FileLine(p) in DiffOf(diffs)
    ensures Mentions(diffs, p)
  {
    FirstFile(diffs, p, 0);
    BodiesAreBodies(diffs[0].preamble, "");
    HunkLinesAreNoFiles(diffs[0].hunks);
    if diffs[0].path != p {
      assert FileLine(p) in DiffOf(diffs[1..]);
      PrintedFileIsMentioned(diffs[1..], p);
    }
  }

  lemma {:induction false} BodiesAreBodies(texts: seq<string>, prefix: string)
    ensures forall line :: line in Bodies(texts, prefix) ==> line.BodyLine?
  {
    if texts != [] {
      BodiesAreBodies(texts[1..], prefix);
    }
  }

  lemma {:induction false} HunkLinesAreNoFiles(hunks: seq<Hunk>)
    ensures forall line :: line in HunkLines(hunks) ==> !line.FileLine?
  {
    if hunks != [] {
      BodiesAreBodies(hunks[0].removed, "-");
      BodiesAreBodies(hunks[0].added, "+");
      HunkLinesAreNoFiles(hunks[1..]);
    }
  }

  lemma FoundSaysAdds(diffs: seq<FileDiff>, p: string, n: nat)
    requires NoStrayFile(DiffOf(diffs))
    ensures Says(None, AllFound(DiffOf(diffs)), p, n) <==>
              Adds(diffs, p, n) || StraySaid(DiffOf(diffs), |DiffOf(diffs)|, p, n)
  {
    var lines := DiffOf(diffs);
    assert lines[..|lines|] == lines;
    StraysAdd(lines, |lines|, p, n);
    MeantSaysAdds(diffs, p, n);
  }

  // Where no piece of a line looks like a +++ mark, the reader gives each path
  // exactly its added lines if and only if every stray range, in the file it
  // occurs in, covers only lines that are added anyway.
  lemma RecordsIffHarmless(diffs: seq<FileDiff>)
    requires PathsPrintable(DiffOf(diffs)) && NoStrayFile(DiffOf(diffs))
    ensures Records(ReadBack(diffs), diffs) <==> Harmless(diffs)
  {
    var lines := DiffOf(diffs);
    RecordsIffSaid(diffs);
    forall p | File(p) in AllFound(lines) ensures Mentions(diffs, p) {
      NoOtherFile(lines, p);
      PrintedFileIsMentioned(diffs, p);
    }
    forall p, n: nat
      ensures Says(None, AllFound(lines), p, n) <==> Adds(diffs, p, n) || StraySaid(lines, |lines|, p, n)
    {
      FoundSaysAdds(diffs, p, n);
    }
    if Records(ReadBack(diffs), diffs) {
      forall i, p, n: nat | StraySays(lines, i, p, n) ensures Adds(diffs, p, n) {
        assert StraySaid(lines, |lines|, p, n);
        assert Says(None, AllFound(lines), p, n);
      }
    }
  }

  // A stray mark of a file the diff does not touch always does harm.
  lemma StrayFileDoesHarm(diffs: seq<FileDiff>, p: string)
    requires PathsPrintable(DiffOf(diffs)) && File(p) in AllFound(DiffOf(diffs)) && !Mentions(diffs, p)
    ensures !Records(ReadBack(diffs), diffs)
  {
    RecordsIffSaid(diffs);
  }

  // --- which diffs are quiet ------------------------------------------------------------

  predicate TextIsPlain(d: FileDiff) {
    && (forall i :: 0 <= i < |d.preamble| ==>
          NoBreak(d.preamble[i]) && !(FILE_MARK <= d.preamble[i]) && !("@@" <= d.preamble[i]))
    && (forall h :: 0 <= h < |d.hunks| ==>
          && NoBreak(d.hunks[h].heading)
          && (forall i :: 0 <= i < |d.hunks[h].removed| ==> NoBreak(d.hunks[h].removed[i]))
          && (forall i :: 0 <= i < |d.hunks[h].added| ==>
                NoBreak(d.hunks[h].added[i]) && !("++ b/" <= d.hunks[h].added[i])))
  }

  lemma NotAnEvent(line: string)
    requires NoBreak(line) && !(FILE_MARK <= line) && !("@@" <= line)
    ensures Stray(BodyLine(line)) == []
  {
    NoBreakIsOnePiece(line);
    assert "@@ -"[..2] == "@@";
    assert !("@@ -" <= line);
    SingleLine(line);
  }

  lemma {:induction false} BodiesQuiet(texts: seq<string>, prefix: string)
    requires |prefix| <= 1
    requires prefix == "-" || prefix == "+" || prefix == ""
    requires forall i :: 0 <= i < |texts| ==>
      && NoBreak(texts[i])
      && (prefix == "+" ==> !("++ b/" <= texts[i]))
      && (prefix == "" ==> !(FILE_MARK <= texts[i]) && !("@@" <= texts[i]))
    ensures Quiet(Bodies(texts, prefix))
  {
    if texts != [] {
      BodiesQuiet(texts[1..], prefix);
      var line := prefix + texts[0];
      NoBreakConcat(prefix, texts[0]);
      PrefixedIsNoMark(prefix, texts[0]);
      NotAnEvent(line);
      QuietCons(Bodies(texts, prefix));
      assert Bodies(texts, prefix)[1..] == Bodies(texts[1..], prefix);
    }
  }

  lemma PrefixedIsNoMark(prefix: string, text: string)
    requires prefix == "-" || prefix == "+" || prefix == ""
    requires prefix == "+" ==> !("++ b/" <= text)
    requires prefix == "" ==> !(FILE_MARK <= text) && !("@@" <= text)
    ensures !(FILE_MARK <= prefix + text) && !("@@" <= prefix + text)
  {
    if prefix == "" {
      assert prefix + text == text;
    } else {
      assert (prefix + text)[1..] == text;
      assert FILE_MARK == "+" + "++ b/";
    }
  }

  lemma {:induction false} QuietConcat(a: seq<DiffLine>, b: seq<DiffLine>)
    ensures Quiet(a + b) <==> Quiet(a) && Quiet(b)
  {
    assert forall i :: 0 <= i < |a| ==> (a + b)[i] == a[i];
    assert forall i :: 0 <= i < |b| ==> (a + b)[|a| + i] == b[i];
  }

  lemma {:induction false} HunksQuiet(hunks: seq<Hunk>)
    requires TextIsPlain(FileDiff([], "", hunks))
    ensures Quiet(HunkLines(hunks))
  {
    if hunks != [] {
      var h := hunks[0];
      NoBreakIsOnePiece(h.heading);
      assert Quiet([HunkLine(h)]);
      BodiesQuiet(h.removed, "-");
      BodiesQuiet(h.added, "+");
      HunksQuiet(hunks[1..]);
      QuietConcat([HunkLine(h)], Bodies(h.removed, "-"));
      QuietConcat([HunkLine(h)] + Bodies(h.removed, "-"), Bodies(h.added, "+"));
      QuietConcat([HunkLine(h)] + Bodies(h.removed, "-") + Bodies(h.added, "+"), HunkLines(hunks[1..]));
    }
  }

  // Text without odd line separators, and no added line starting with ++ b/
  // (which the workspace's own integrity check forbids), is quiet.
  lemma {:induction false} PlainIsQuiet(diffs: seq<FileDiff>)
    requires forall f :: 0 <= f < |diffs| ==> TextIsPlain(diffs[f])
    ensures Quiet(DiffOf(diffs))
  {
    if diffs != [] {
      var d := diffs[0];
      BodiesQuiet(d.preamble, "");
      assert TextIsPlain(FileDiff([], "", d.hunks));
      HunksQuiet(d.hunks);
      PlainIsQuiet(diffs[1..]);
      assert Quiet([FileLine(d.path)]);
      QuietConcat(Bodies(d.preamble, ""), [FileLine(d.path)]);
      QuietConcat(Bodies(d.preamble, "") + [FileLine(d.path)], HunkLines(d.hunks));
      QuietConcat(Bodies(d.preamble, "") + [FileLine(d.path)] + HunkLines(d.hunks), DiffOf(diffs[1..]));
    }
  }

  // What str.splitlines takes for the end of a line and git does not: vertical
  // tab, form feed, carriage return, the file, group and record separators, next
  // line, and the line and paragraph separators.
  predicate IsOddSeparator(c: char) {
    c as int in {11, 12, 13, 28, 29, 30, 133, 8232, 8233}
  }

  // Without that, the reader can be led astray: an added line that holds any of
  // these and then the marker of any hunk g is read as a change of g's lines,
  // although the line does not start with ++ b/.
  lemma SeparatorForgesHunk(g: Hunk, c: char)
    requires IsOddSeparator(c)
    ensures Stray(BodyLine("+" + ([c] + Marker(g)))) == [Range(g.start, |g.added|)]
    ensures !("++ b/" <= [c] + Marker(g))
  {
    ForgedPieces(Marker(g), g, c);
    EventsConcat(["+"], [Marker(g)]);
    SingleLine("+");
    SingleLine(Marker(g));
    MarkerEvent(g);
    assert ([c] + Marker(g))[0] == c;
  }

  lemma ForgedPieces(marker: string, g: Hunk, c: char)
    requires IsOddSeparator(c) && marker == Marker(g)
    ensures Pieces("+" + ([c] + marker)) == ["+"] + [marker]
  {
    MarkerNoBreak(g);
    NoBreakIsOnePiece(marker);
    MarkerStart(marker, g);
    SeparatorSplits(marker, c);
    PrefixStays("+", [c] + marker);
    assert "+" + "" == "+";
  }

  lemma MarkerEvent(g: Hunk)
    ensures EventOf(Marker(g)) == [Range(g.start, |g.added|)]
  {
    ReadMarker(g, "");
    assert Marker(g) + "" == Marker(g);
  }

  lemma MarkerStart(marker: string, g: Hunk)
    requires marker == Marker(g)
    ensures marker != "" && marker[0] == '@'
  {}

  lemma SeparatorSplits(s: string, c: char)
    requires IsOddSeparator(c) && s != "" && s[0] != '\n'
    ensures Pieces([c] + s) == [""] + Pieces(s)
  {
    var whole := [c] + s + "\n";
    assert whole[0] == c && whole[1] == s[0] && whole[1..] == s + "\n";
    assert TakeLine(whole) == ("", s + "\n");
  }

  // The diff of one file with one added line.
  function OneLineDiff(path: string, text: string): seq<FileDiff> {
    [FileDiff([], path, [Hunk(0, [], 1, [text], true, "")])]
  }

  lemma EventsOfOne(c: DiffLine)
    requires PathsPrintable([c])
    ensures Events(SplitLines(Print([c]))) == Found(c)
  {
    PrintedEvents([c]);
    PrintedEvents([c][1..]);
  }

  lemma EventsOfTwo(b: DiffLine, c: DiffLine)
    requires PathsPrintable([b, c]) && PathsPrintable([c])
    ensures Events(SplitLines(Print([b, c]))) == Found(b) + Found(c)
  {
    PrintedEvents([b, c]);
    assert [b, c][1..] == [c];
    EventsOfOne(c);
  }

  lemma EventsOfThree(a: DiffLine, b: DiffLine, c: DiffLine)
    requires PathsPrintable([a, b, c]) && PathsPrintable([b, c]) && PathsPrintable([c])
    ensures Events(SplitLines(Print([a, b, c]))) == Found(a) + (Found(b) + Found(c))
  {
    PrintedEvents([a, b, c]);
    assert [a, b, c][1..] == [b, c];
    EventsOfTwo(b, c);
  }

  lemma OneLineEvents(path: string, text: string)
    requires NoBreak(path)
    ensures Events(SplitLines(Print(DiffOf(OneLineDiff(path, text)))))
         == [File(path)] + ([Range(1, 1)] + Stray(BodyLine("+" + text)))
  {
    var h := Hunk(0, [], 1, [text], true, "");
    OneLineLines(path, text, h);
    OneLineFinds(path, text, h);
    EventsOfThree(FileLine(path), HunkLine(h), BodyLine("+" + text));
  }

  lemma OneLineFinds(path: string, text: string, h: Hunk)
    requires h == Hunk(0, [], 1, [text], true, "")
    ensures Found(FileLine(path)) == [File(path)] && Found(HunkLine(h)) == [Range(1, 1)]
    ensures Found(BodyLine("+" + text)) == Stray(BodyLine("+" + text))
  {
    NoBreakIsOnePiece("");
  }

  lemma OneLineLines(path: string, text: string, h: Hunk)
    requires h == Hunk(0, [], 1, [text], true, "")
    ensures DiffOf(OneLineDiff(path, text)) == [FileLine(path), HunkLine(h), BodyLine("+" + text)]
  {
    assert [text][1..] == [];
    assert Bodies([text], "+") == [BodyLine("+" + text)];
    assert [h][1..] == [];
    assert HunkLines([h]) == [HunkLine(h), BodyLine("+" + text)];
    assert OneLineDiff(path, text)[1..] == [];
  }

  // The forged lines are reported as added by a diff that adds only line 1.
  lemma ForgedLineIsReported(g: Hunk, path: string, c: char)
    requires IsOddSeparator(c) && NoBreak(path) && g.start > 1 && |g.added| > 0
    ensures var diffs := OneLineDiff(path, [c] + Marker(g));
            var changed := ReadBack(diffs);
            path in changed && g.start in changed[path] && !Adds(diffs, path, g.start)
  {
    var text := [c] + Marker(g);
    var r := Reader(None, map[]);
    SeparatorForgesHunk(g, c);
    OneLineEvents(path, text);
    ReadsEvents(r, SplitLines(Print(DiffOf(OneLineDiff(path, text)))));
    HandleConcat(r, [File(path)], [Range(1, 1)] + [Range(g.start, |g.added|)]);
    HandleConcat(Handle(r, File(path)), [Range(1, 1)], [Range(g.start, |g.added|)]);
    HandleOne(r, File(path));
    HandleOne(Handle(r, File(path)), Range(1, 1));
    HandleOne(Handle(Handle(r, File(path)), Range(1, 1)), Range(g.start, |g.added|));
    assert InRange(g.start, g.start, |g.added|);
  }

  lemma HandleOne(r: Reader, e: Event)
    ensures HandleAll(r, [e]) == Handle(r, e)
  {
    assert [e][1..] == [];
  }

  // A forged hunk without added lines is read as a marker and does no harm.
  lemma EmptyForgeryIsHarmless(g: Hunk, path: string, c: char)
    requires IsOddSeparator(c) && NoBreak(path) && |g.added| == 0
    ensures var diffs := OneLineDiff(path, [c] + Marker(g));
            !Quiet(DiffOf(diffs)) && Records(ReadBack(diffs), diffs)
  {
    var text := [c] + Marker(g);
    var h := Hunk(0, [], 1, [text], true, "");
    var diffs := OneLineDiff(path, text);
    OneLineLines(path, text, h);
    SeparatorForgesHunk(g, c);
    NoBreakIsOnePiece("");
    EmptyRangeIsHarmless(diffs, [FileLine(path), HunkLine(h)], BodyLine("+" + text), g.start);
    RecordsIffHarmless(diffs);
  }

  lemma EmptyRangeIsHarmless(diffs: seq<FileDiff>, quiet: seq<DiffLine>, body: DiffLine, start: nat)
    requires DiffOf(diffs) == quiet + [body]
    requires forall i :: 0 <= i < |quiet| ==> Stray(quiet[i]) == []
    requires Stray(body) == [Range(start, 0)]
    ensures !Quiet(DiffOf(diffs)) && NoStrayFile(DiffOf(diffs)) && Harmless(diffs)
  {
    var lines := DiffOf(diffs);
    assert lines[|quiet|] == body;
    forall i | 0 <= i < |lines| ensures OnlyRanges(Stray(lines[i])) && forall n: nat :: !Covers(Stray(lines[i]), n) {
      if i < |quiet| {
        assert lines[i] == quiet[i];
      }
    }
  }

  // The forbidden text: an added line that starts with ++ b/ and goes on with
  // another file's name makes the reader report that file.
  lemma PlusMarkNamesAnotherFile(path: string, other: string)
    requires NoBreak(path) && NoBreak(other) && other != path
    ensures var diffs := OneLineDiff(path, "++ b/" + other);
            !Records(ReadBack(diffs), diffs)
  {
    var text := "++ b/" + other;
    var h := Hunk(0, [], 1, [text], true, "");
    var diffs := OneLineDiff(path, text);
    OneLineLines(path, text, h);
    PlusMarkIsFound(other);
    FoundConcat([FileLine(path), HunkLine(h)], [BodyLine("+" + text)]);
    assert DiffOf(diffs) == [FileLine(path), HunkLine(h)] + [BodyLine("+" + text)];
    assert AllFound([BodyLine("+" + text)]) == Found(BodyLine("+" + text)) + AllFound([]);
    StrayFileDoesHarm(diffs, other);
  }

  lemma PlusMarkIsFound(other: string)
    requires NoBreak(other)
    ensures Stray(BodyLine("+" + ("++ b/" + other))) == [File(other)]
  {
    var line := "+" + ("++ b/" + other);
    assert line == FILE_MARK + other;
    NoBreakConcat(FILE_MARK, other);
    NoBreakIsOnePiece(line);
    SingleLine(line);
    Cut(FILE_MARK, other);
  }
}
