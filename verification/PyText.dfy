// Python's idea of white space and of lines.
module PyText {

  predicate IsSpace(c: char) {
    || c == ' ' || '\t' <= c <= '\r' || '\U{1C}' <= c <= '\U{1F}' || c == '\U{85}' || c == '\U{A0}'
    || c == '\U{1680}' || '\U{2000}' <= c <= '\U{200A}' || c == '\U{2028}' || c == '\U{2029}'
    || c == '\U{202F}' || c == '\U{205F}' || c == '\U{3000}'
  }

  function StripLeft(s: string): string {
    if s != "" && IsSpace(s[0]) then StripLeft(s[1..]) else s
  }

  function StripRight(s: string): string {
    if s != "" && IsSpace(s[|s| - 1]) then StripRight(s[..|s| - 1]) else s
  }

  // str.strip()
  function Strip(s: string): string {
    StripRight(StripLeft(s))
  }

  // --- lines as str.splitlines sees them ---------------------------------------

  predicate IsBreak(c: char) {
    || c == '\n' || c == '\r' || c == '\U{0B}' || c == '\U{0C}' || c == '\U{1C}' || c == '\U{1D}' || c == '\U{1E}'
    || c == '\U{85}' || c == '\U{2028}' || c == '\U{2029}'
  }

  // The first line of a text, and the text after its end.
  function TakeLine(s: string): (r: (string, string))
    ensures |r.1| <= |s|
    ensures s != "" ==> |r.1| < |s|
  {
    if s == "" then ("", "")
    else if |s| > 1 && s[0] == '\r' && s[1] == '\n' then ("", s[2..])
    else if IsBreak(s[0]) then ("", s[1..])
    else
      var (line, rest) := TakeLine(s[1..]);
      ([s[0]] + line, rest)
  }

  function SplitLines(s: string): seq<string>
    decreases |s|
  {
    if s == "" then []
    else
      var (line, rest) := TakeLine(s);
      [line] + SplitLines(rest)
  }

  // --- what these functions mean ---------------------------------------------------

  predicate AllSpace(s: string) {
    forall i :: 0 <= i < |s| ==> IsSpace(s[i])
  }

  predicate Bare(s: string) {
    s == "" || (!IsSpace(s[0]) && !IsSpace(s[|s| - 1]))
  }

  // The white space of str.strip by code point: 9 to 13, 28 to 32, 133, 160 and
  // the separators of the higher planes.
  lemma SpacesAre(c: char)
    ensures IsSpace(c) <==>
              || 9 <= c as int <= 13 || 28 <= c as int <= 32
              || c as int in {133, 160, 5760, 8232, 8233, 8239, 8287, 12288}
              || 8192 <= c as int <= 8202
  {}

  lemma BreaksAre(c: char)
    ensures IsBreak(c) <==> 10 <= c as int <= 13 || 28 <= c as int <= 30 || c as int in {133, 8232, 8233}
  {}

  lemma {:induction false} StripLeftIs(s: string)
    ensures |StripLeft(s)| <= |s| && s[|s| - |StripLeft(s)|..] == StripLeft(s)
    ensures AllSpace(s[..|s| - |StripLeft(s)|])
    ensures StripLeft(s) == "" || !IsSpace(StripLeft(s)[0])
  {
    if s != "" && IsSpace(s[0]) {
      StripLeftIs(s[1..]);
      var n := |s| - |StripLeft(s)|;
      assert s[1..][..n - 1] == s[1..n];
      assert s[..n] == [s[0]] + s[1..n];
    }
  }

  lemma {:induction false} StripRightIs(s: string)
    ensures |StripRight(s)| <= |s| && s[..|StripRight(s)|] == StripRight(s)
    ensures AllSpace(s[|StripRight(s)|..])
    ensures StripRight(s) == "" || !IsSpace(StripRight(s)[|StripRight(s)| - 1])
  {
    if s != "" && IsSpace(s[|s| - 1]) {
      var n := |s| - 1;
      StripRightIs(s[..n]);
      var k := |StripRight(s)|;
      assert s[..n][k..] == s[k..n];
      assert s[k..] == s[k..n] + [s[n]];
    }
  }

  // The text with white space around it.
  ghost predicate Padded(s: string, core: string) {
    exists a, b :: s == a + core + b && AllSpace(a) && AllSpace(b)
  }

  // Stripping takes white space off both ends, and nothing else.
  lemma StripIs(s: string)
    ensures Bare(Strip(s))
    ensures Padded(s, Strip(s))
  {
    StripLeftIs(s);
    var t := StripLeft(s);
    StripRightIs(t);
    var core := Strip(s);
    Parts(s, |s| - |t|, |core|);
    IsPadded(s[..|s| - |t|], core, t[|core|..]);
    if core != "" {
      assert core[0] == t[0];
    }
  }

  lemma Parts(s: string, n: nat, k: nat)
    requires n <= |s| && k <= |s[n..]|
    ensures s == s[..n] + s[n..][..k] + s[n..][k..]
  {}

  lemma IsPadded(a: string, core: string, b: string)
    requires AllSpace(a) && AllSpace(b)
    ensures Padded(a + core + b, core)
  {}

  lemma {:induction false} StripLeftOf(a: string, core: string)
    requires AllSpace(a) && (core == "" || !IsSpace(core[0]))
    ensures StripLeft(a + core) == core
  {
    if a == "" {
      assert a + core == core;
    } else {
      StripLeftOf(a[1..], core);
      assert (a + core)[1..] == a[1..] + core;
    }
  }

  lemma {:induction false} StripRightOf(core: string, b: string)
    requires AllSpace(b) && (core == "" || !IsSpace(core[|core| - 1]))
    ensures StripRight(core + b) == core
  {
    if b == "" {
      assert core + b == core;
    } else {
      StripRightOf(core, b[..|b| - 1]);
      assert (core + b)[..|core + b| - 1] == core + b[..|b| - 1];
    }
  }

  lemma {:induction false} AllSpaceVanishes(s: string)
    requires AllSpace(s)
    ensures StripLeft(s) == "" && StripRight(s) == ""
  {
    if s != "" {
      AllSpaceVanishes(s[1..]);
      AllSpaceVanishes(s[..|s| - 1]);
    }
  }

  // What is left is determined: any text between white space that has none at
  // its ends.
  lemma StripOf(a: string, core: string, b: string)
    requires AllSpace(a) && AllSpace(b) && Bare(core)
    ensures Strip(a + core + b) == core
  {
    if core == "" {
      assert a + core + b == a + b;
      AllSpaceVanishes(a + b);
    } else {
      assert a + core + b == a + (core + b);
      StripLeftOf(a, core + b);
      StripRightOf(core, b);
    }
  }

  lemma StripIff(s: string, core: string)
    requires Bare(core)
    ensures Strip(s) == core <==> Padded(s, core)
  {
    StripIs(s);
    if a, b :| s == a + core + b && AllSpace(a) && AllSpace(b) {
      StripOf(a, core, b);
    }
  }

  lemma NothingToStrip(s: string)
    requires Bare(s)
    ensures Strip(s) == s
  {
    assert "" + s + "" == s;
    StripOf("", s, "");
  }

  // Without its breaks.
  function Unbroken(s: string): string {
    if s == "" then "" else (if IsBreak(s[0]) then "" else [s[0]]) + Unbroken(s[1..])
  }

  function Joined(lines: seq<string>): string {
    if lines == [] then "" else lines[0] + Joined(lines[1..])
  }

  lemma {:induction false} TakeLineIs(s: string)
    ensures var (line, rest) := TakeLine(s);
            && (forall i :: 0 <= i < |line| ==> !IsBreak(line[i]))
            && Unbroken(s) == line + Unbroken(rest)
  {
    if s == "" {
    } else if |s| > 1 && s[0] == '\r' && s[1] == '\n' {
      assert s[1..][1..] == s[2..];
      assert Unbroken(s[1..]) == Unbroken(s[2..]);
    } else if !IsBreak(s[0]) {
      TakeLineIs(s[1..]);
      var (line, rest) := TakeLine(s[1..]);
      assert [s[0]] + (line + Unbroken(rest)) == [s[0]] + line + Unbroken(rest);
    }
  }

  // Splitting into lines loses the breaks, and nothing else.
  lemma {:induction false} SplitLinesIs(s: string)
    ensures Joined(SplitLines(s)) == Unbroken(s)
    ensures forall line :: line in SplitLines(s) ==> forall i :: 0 <= i < |line| ==> !IsBreak(line[i])
    decreases |s|
  {
    if s != "" {
      TakeLineIs(s);
      SplitLinesIs(TakeLine(s).1);
    }
  }

  // As many lines as there are breaks, a carriage return and line feed counting
  // once, and one more for a text that does not end with a break.
  function Breaks(s: string): nat {
    if s == "" then 0
    else if |s| > 1 && s[0] == '\r' && s[1] == '\n' then 1 + Breaks(s[2..])
    else (if IsBreak(s[0]) then 1 else 0) + Breaks(s[1..])
  }

  lemma {:induction false} TakeLineBreaks(s: string)
    requires s != ""
    ensures var rest := TakeLine(s).1;
            || (Breaks(s) == 1 + Breaks(rest) && (rest == "" ==> IsBreak(s[|s| - 1])))
            || (rest == "" && Breaks(s) == 0 && !IsBreak(s[|s| - 1]))
    ensures TakeLine(s).1 != "" ==> TakeLine(s).1[|TakeLine(s).1| - 1] == s[|s| - 1]
  {
    if !IsBreak(s[0]) && |s| > 1 {
      TakeLineBreaks(s[1..]);
    }
  }

  lemma {:induction false} LineCount(s: string)
    ensures |SplitLines(s)| == Breaks(s) + if s != "" && !IsBreak(s[|s| - 1]) then 1 else 0
    decreases |s|
  {
    if s != "" {
      TakeLineBreaks(s);
      LineCount(TakeLine(s).1);
    }
  }
}
