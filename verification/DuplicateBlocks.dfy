// The counter of repeated code blocks, and the advisory that compares it with
// two thresholds.
module DuplicateBlocks {
  import opened PyText
  import opened Selections

  // s[a:b] in Python, for a >= 0: a negative end counts from the back.
  function PySlice(s: seq<string>, a: nat, b: int): seq<string> {
    var end := if b >= 0 then b else if |s| + b >= 0 then |s| + b else 0;
    var stop := if end <= |s| then end else |s|;
    if a < stop then s[a..stop] else []
  }

  // len(range(n - size + 1))
  function WindowCount(n: nat, size: int): nat {
    if n - size + 1 > 0 then n - size + 1 else 0
  }

  function Window(s: seq<string>, size: int, i: nat): seq<string> {
    PySlice(s, i, i + size)
  }

  function WindowsOf(s: seq<string>, size: int): nat -> seq<string> {
    (i: nat) => Window(s, size, i)
  }

  ghost predicate SeenBefore(block: nat -> seq<string>, i: nat) {
    exists j: nat :: j < i && block(j) == block(i)
  }

  // The blocks, up to the n-th, that occurred before.
  ghost function Repeats(block: nat -> seq<string>, n: nat): set<nat> {
    set i: nat | i < n && SeenBefore(block, i)
  }

  ghost function Distinct(block: nat -> seq<string>, n: nat): set<seq<string>> {
    set i: nat | i < n :: block(i)
  }

  function Normalized(lines: seq<string>): seq<string> {
    if lines == [] then []
    else
      var rest := Normalized(lines[..|lines| - 1]);
      var line := Strip(lines[|lines| - 1]);
      if line != "" then rest + [line] else rest
  }

  ghost function Repeated(lines: seq<string>, size: int): nat {
    var s := Normalized(lines);
    |Repeats(WindowsOf(s, size), WindowCount(|s|, size))|
  }

  method RepeatedBlockCount(lines: seq<string>, blockSize: int) returns (repeated: nat)
    ensures repeated == Repeated(lines, blockSize)
  {
    var normalized: seq<string> := [];
    for k := 0 to |lines|
      invariant normalized == Normalized(lines[..k])
    {
      assert lines[..k + 1][..k] == lines[..k];
      if Strip(lines[k]) != "" {
        normalized := normalized + [Strip(lines[k])];
      }
    }
    assert lines[..|lines|] == lines;
    ghost var blocks := WindowsOf(normalized, blockSize);
    var seen: set<seq<string>> := {};
    repeated := 0;
    for index := 0 to WindowCount(|normalized|, blockSize)
      invariant seen == Distinct(blocks, index)
      invariant repeated == |Repeats(blocks, index)|
    {
      var block := Window(normalized, blockSize, index);
      NextRepeat(blocks, index);
      if block in seen {
        repeated := repeated + 1;
      }
      seen := seen + {block};
    }
  }

  lemma NextRepeat(block: nat -> seq<string>, n: nat)
    ensures block(n) in Distinct(block, n) <==> SeenBefore(block, n)
    ensures Distinct(block, n + 1) == Distinct(block, n) + {block(n)}
    ensures |Repeats(block, n + 1)| == |Repeats(block, n)| + if SeenBefore(block, n) then 1 else 0
  {
    if SeenBefore(block, n) {
      assert Repeats(block, n + 1) == Repeats(block, n) + {n};
    } else {
      assert Repeats(block, n + 1) == Repeats(block, n);
    }
  }

  lemma {:induction false} RepeatsAreExcess(block: nat -> seq<string>, n: nat)
    ensures |Repeats(block, n)| + |Distinct(block, n)| == n
  {
    if n > 0 {
      RepeatsAreExcess(block, n - 1);
      NextRepeat(block, n - 1);
    }
  }

  // The count is the number of windows less the number of distinct ones.
  lemma CountIsWindowsLessDistinct(lines: seq<string>, size: int)
    ensures var s := Normalized(lines);
            var n := WindowCount(|s|, size);
            Repeated(lines, size) == n - |Distinct(WindowsOf(s, size), n)|
  {
    var s := Normalized(lines);
    RepeatsAreExcess(WindowsOf(s, size), WindowCount(|s|, size));
  }

  // Equal long windows have equal short windows at their start.
  lemma ShorterWindows(s: seq<string>, a: nat, b: nat, i: nat, j: nat)
    requires a <= b && i + b <= |s| && j + b <= |s| && Window(s, b, i) == Window(s, b, j)
    ensures Window(s, a, i) == Window(s, a, j)
  {
    assert s[i..i + b][..a] == s[i..i + a] && s[j..j + b][..a] == s[j..j + a];
    assert Window(s, b, i) == s[i..i + b] && Window(s, b, j) == s[j..j + b];
    assert Window(s, a, i) == s[i..i + a] && Window(s, a, j) == s[j..j + a];
  }

  // With a negative size every window from -size on is empty, so all but the
  // first of those are repeats.
  lemma {:induction false} NegativeSizes(s: seq<string>, size: int)
    requires size < 0
    ensures |Repeats(WindowsOf(s, size), WindowCount(|s|, size))| >= |s|
  {
    var first := -size;
    var n := WindowCount(|s|, size);
    IntervalIs(first, |s|);
    var blocks := WindowsOf(s, size);
    forall i | i in Interval(first, |s|) ensures i in Repeats(blocks, n) {
      assert blocks(first) == blocks(i) == [];
    }
    SubsetCount(Interval(first, |s|), Repeats(blocks, n));
  }

  // The n numbers after first.
  ghost function Interval(first: nat, n: nat): set<nat> {
    if n == 0 then {} else Interval(first, n - 1) + {first + n}
  }

  lemma {:induction false} IntervalIs(first: nat, n: nat)
    ensures forall i: nat :: i in Interval(first, n) <==> first < i <= first + n
    ensures |Interval(first, n)| == n
  {
    if n > 0 {
      IntervalIs(first, n - 1);
    }
  }

  lemma MoreWindowsRepeatMore(block: nat -> seq<string>, k: nat, l: nat)
    requires k <= l
    ensures |Repeats(block, k)| <= |Repeats(block, l)|
  {
    SubsetCount(Repeats(block, k), Repeats(block, l));
  }

  lemma {:induction false} AllSeenRepeat(block: nat -> seq<string>, k: nat, l: nat)
    requires k <= l && forall i: nat :: k <= i < l ==> SeenBefore(block, i)
    ensures |Repeats(block, l)| == |Repeats(block, k)| + (l - k)
    decreases l - k
  {
    if k < l {
      AllSeenRepeat(block, k, l - 1);
      NextRepeat(block, l - 1);
    }
  }

  // Windows of size -m: the first m reach from the front to as far from the
  // back, the others are empty.
  lemma NegativeWindow(s: seq<string>, m: int, i: nat)
    requires m > 0
    ensures i >= m || |s| <= m ==> Window(s, -m, i) == []
    ensures i < m < |s| ==> Window(s, -m, i) == s[i..|s| - m + i] != []
  {}

  // The empty windows of size -m after the first of them are repeats.
  lemma EmptyTail(s: seq<string>, m: int)
    requires m > 0
    ensures var block := WindowsOf(s, -m);
            |Repeats(block, |s| + m + 1)| == |Repeats(block, m + 1)| + |s|
  {
    var block := WindowsOf(s, -m);
    forall i: nat | m + 1 <= i < |s| + m + 1 ensures SeenBefore(block, i) {
      NegativeWindow(s, m, m);
      NegativeWindow(s, m, i);
      assert block(m) == block(i);
    }
    AllSeenRepeat(block, m + 1, |s| + m + 1);
  }

  lemma FirstEmptyIsNew(s: seq<string>, m: int)
    requires 0 < m < |s|
    ensures |Repeats(WindowsOf(s, -m), m + 1)| == |Repeats(WindowsOf(s, -m), m)|
  {
    var block := WindowsOf(s, -m);
    NegativeWindow(s, m, m);
    forall j: nat | j < m ensures block(j) != block(m) {
      NegativeWindow(s, m, j);
    }
    NextRepeat(block, m);
  }

  lemma AllEmptyRepeat(s: seq<string>, m: int, n: nat)
    requires m > 0 && |s| <= m && n > 0
    ensures |Repeats(WindowsOf(s, -m), n)| == n - 1
  {
    var block := WindowsOf(s, -m);
    forall i: nat | 1 <= i < n ensures SeenBefore(block, i) {
      NegativeWindow(s, m, 0);
      NegativeWindow(s, m, i);
      assert block(0) == block(i);
    }
    AllSeenRepeat(block, 1, n);
    assert Repeats(block, 1) == {};
  }

  // Among the first m windows those of a more negative size repeat as often.
  lemma FirstWindows(s: seq<string>, m: int, k: int)
    requires 0 < m <= k && m < |s|
    ensures |Repeats(WindowsOf(s, -m), m)| <= |Repeats(WindowsOf(s, -k), m)|
  {
    var long, short := WindowsOf(s, -m), WindowsOf(s, -k);
    forall i | i in Repeats(long, m) ensures i in Repeats(short, m) {
      var j: nat :| j < i && long(j) == long(i);
      SameStartSameWindow(s, m, k, i, j);
      assert short(j) == short(i);
    }
    SubsetCount(Repeats(long, m), Repeats(short, m));
  }

  lemma FewNegativeRepeats(s: seq<string>, m: int)
    requires 0 < m < |s|
    ensures |Repeats(WindowsOf(s, -m), |s| + m + 1)| == |Repeats(WindowsOf(s, -m), m)| + |s|
  {
    EmptyTail(s, m);
    FirstEmptyIsNew(s, m);
  }

  lemma ManyNegativeRepeats(s: seq<string>, m: int, k: int)
    requires 0 < m <= k
    ensures |Repeats(WindowsOf(s, -k), |s| + k + 1)| >= |Repeats(WindowsOf(s, -k), m)| + |s|
  {
    EmptyTail(s, k);
    MoreWindowsRepeatMore(WindowsOf(s, -k), m, k + 1);
  }

  // Of two negative sizes the one further from zero repeats at least as often.
  lemma MoreNegativeRepeatsMore(s: seq<string>, m: int, k: int)
    requires 0 < m <= k
    ensures |Repeats(WindowsOf(s, -m), |s| + m + 1)| <= |Repeats(WindowsOf(s, -k), |s| + k + 1)|
  {
    if |s| <= m {
      AllEmptyRepeat(s, m, |s| + m + 1);
      AllEmptyRepeat(s, k, |s| + k + 1);
    } else {
      FewNegativeRepeats(s, m);
      FirstWindows(s, m, k);
      ManyNegativeRepeats(s, m, k);
    }
  }

  lemma SameStartSameWindow(s: seq<string>, m: int, k: int, i: nat, j: nat)
    requires 0 < m <= k && m < |s| && j < i < m && Window(s, -m, i) == Window(s, -m, j)
    ensures Window(s, -k, i) == Window(s, -k, j)
  {
    NegativeWindow(s, m, i);
    NegativeWindow(s, m, j);
    NegativeWindow(s, k, i);
    NegativeWindow(s, k, j);
    if k < |s| {
      assert s[i..|s| - m + i][..|s| - k] == s[i..|s| - k + i];
      assert s[j..|s| - m + j][..|s| - k] == s[j..|s| - k + j];
    }
  }

  lemma ZeroRepeatsEach(s: seq<string>)
    ensures |Repeats(WindowsOf(s, 0), |s| + 1)| == |s|
  {
    var block := WindowsOf(s, 0);
    forall i: nat | 1 <= i < |s| + 1 ensures SeenBefore(block, i) {
      assert block(0) == block(i) == [];
    }
    AllSeenRepeat(block, 1, |s| + 1);
    assert Repeats(block, 1) == {};
  }

  // A larger block is never repeated more often, for any two sizes at all.
  lemma LargerRepeatsLess(lines: seq<string>, a: int, b: int)
    requires a <= b
    ensures Repeated(lines, b) <= Repeated(lines, a)
  {
    var s := Normalized(lines);
    if b > 0 {
      LargerPositiveRepeatsLess(lines, a, b);
    } else if b == 0 {
      ZeroRepeatsEach(s);
      if a < 0 {
        NegativeSizes(s, a);
      }
    } else {
      MoreNegativeRepeatsMore(s, -b, -a);
    }
  }

  lemma LargerPositiveRepeatsLess(lines: seq<string>, a: int, b: int)
    requires a <= b && b > 0
    ensures Repeated(lines, b) <= Repeated(lines, a)
  {
    var s := Normalized(lines);
    var m, n := WindowCount(|s|, b), WindowCount(|s|, a);
    var long, short := WindowsOf(s, b), WindowsOf(s, a);
    RepeatsAreExcess(long, m);
    if a < 0 {
      NegativeSizes(s, a);
    } else {
      forall i | i in Repeats(long, m) ensures i in Repeats(short, n) {
        var j: nat :| j < i && long(j) == long(i);
        ShorterWindows(s, a, b, i, j);
        assert short(j) == short(i);
      }
      SubsetCount(Repeats(long, m), Repeats(short, n));
    }
  }

  // --- which lines count --------------------------------------------------------------

  lemma {:induction false} NormalizedConcat(a: seq<string>, b: seq<string>)
    ensures Normalized(a + b) == Normalized(a) + Normalized(b)
  {
    if b == [] {
      assert a + b == a;
    } else {
      NormalizedConcat(a, b[..|b| - 1]);
      assert (a + b)[..|a + b| - 1] == a + b[..|b| - 1];
    }
  }

  lemma NormalizedOne(line: string)
    ensures Normalized([line]) == if Strip(line) != "" then [Strip(line)] else []
  {
    assert [line][..0] == [];
    assert Normalized([]) == [];
  }

  // Blank lines do not count, wherever they are.
  lemma BlankLinesIgnored(a: seq<string>, blank: string, b: seq<string>, size: int)
    requires AllSpace(blank)
    ensures Repeated(a + [blank] + b, size) == Repeated(a + b, size)
  {
    StripOf(blank, "", "");
    assert blank + "" + "" == blank;
    NormalizedOne(blank);
    NormalizedConcat(a + [blank], b);
    NormalizedConcat(a, [blank]);
    NormalizedConcat(a, b);
  }

  // Nor does the white space around a line.
  lemma IndentationIgnored(a: seq<string>, left: string, line: string, right: string, b: seq<string>, size: int)
    requires AllSpace(left) && AllSpace(right) && line != "" && Bare(line)
    ensures Repeated(a + [left + line + right] + b, size) == Repeated(a + [line] + b, size)
  {
    StripOf(left, line, right);
    NothingToStrip(line);
    NormalizedOne(left + line + right);
    NormalizedOne(line);
    NormalizedConcat(a + [left + line + right], b);
    NormalizedConcat(a, [left + line + right]);
    NormalizedConcat(a + [line], b);
    NormalizedConcat(a, [line]);
  }

  predicate SameBlock(lines: seq<string>, size: nat, i: nat, j: nat) {
    i + size <= |lines| && j + size <= |lines| && lines[i..i + size] == lines[j..j + size]
  }

  ghost predicate Copied(lines: seq<string>, size: nat, i: nat) {
    i + size <= |lines| && exists j: nat :: j < i && SameBlock(lines, size, i, j)
  }

  // Of lines without blanks and indentation, a block is counted exactly when
  // the same lines stand at an earlier place.
  lemma CountsRepeats(lines: seq<string>, size: nat)
    requires forall i :: 0 <= i < |lines| ==> lines[i] != "" && Bare(lines[i])
    ensures Repeated(lines, size) == |set i: nat | i <= |lines| && Copied(lines, size, i)|
  {
    AlreadyNormal(lines);
    var counted := set i: nat | i <= |lines| && Copied(lines, size, i);
    var repeats := Repeats(WindowsOf(lines, size), WindowCount(|lines|, size));
    forall i: nat ensures i in counted <==> i in repeats {
      CopiedMeansSeen(lines, size, i);
    }
    assert counted == repeats;
  }

  lemma CopiedMeansSeen(lines: seq<string>, size: nat, i: nat)
    ensures Copied(lines, size, i) <==> i + size <= |lines| && SeenBefore(WindowsOf(lines, size), i)
  {
    var blocks := WindowsOf(lines, size);
    if i + size <= |lines| {
      forall j: nat | j < i ensures blocks(j) == blocks(i) <==> SameBlock(lines, size, i, j) {
        assert Window(lines, size, j) == lines[j..j + size];
        assert Window(lines, size, i) == lines[i..i + size];
      }
    }
  }

  lemma {:induction false} AlreadyNormal(lines: seq<string>)
    requires forall i :: 0 <= i < |lines| ==> lines[i] != "" && Bare(lines[i])
    ensures Normalized(lines) == lines
  {
    if lines != [] {
      var n := |lines| - 1;
      AlreadyNormal(lines[..n]);
      NothingToStrip(lines[n]);
      assert lines == lines[..n] + [lines[n]];
    }
  }

  // --- the advisory ----------------------------------------------------------------

  ghost predicate Warns(lines: seq<string>, warningLines: int) {
    Repeated(lines, warningLines) != 0
  }

  ghost predicate Fails(lines: seq<string>, hardFailLines: int) {
    hardFailLines > 0 && Repeated(lines, hardFailLines) != 0
  }

  // n equal lines.
  function Copies(line: string, n: nat): (lines: seq<string>)
    ensures |lines| == n && forall i :: 0 <= i < n ==> lines[i] == line
  {
    if n == 0 then [] else Copies(line, n - 1) + [line]
  }

  lemma {:induction false} CopiesNormalized(line: string, n: nat)
    requires Strip(line) != ""
    ensures Normalized(Copies(line, n)) == Copies(Strip(line), n)
  {
    if n > 0 {
      CopiesNormalized(line, n - 1);
      assert Copies(line, n)[..n - 1] == Copies(line, n - 1);
    }
  }

  // One line more than the hard limit, all equal, fail without a warning when
  // the warning limit is larger.
  lemma CopiesFailUnwarned(line: string, warningLines: int, hardFailLines: int)
    requires Strip(line) != "" && 0 < hardFailLines < warningLines
    ensures Fails(Copies(line, hardFailLines + 1), hardFailLines)
    ensures !Warns(Copies(line, hardFailLines + 1), warningLines)
  {
    var n := hardFailLines + 1;
    var s := Copies(Strip(line), n);
    CopiesNormalized(line, n);
    var block := WindowsOf(s, hardFailLines);
    assert block(0) == s[0..hardFailLines] == s[1..n] == block(1);
    assert 1 in Repeats(block, WindowCount(n, hardFailLines));
    assert WindowCount(n, warningLines) <= 1;
    assert Repeats(WindowsOf(s, warningLines), WindowCount(n, warningLines)) == {};
  }

  lemma SomeLine()
    ensures Strip("x") != ""
  {
    assert StripLeft("x") == "x";
    assert StripRight("x") == "x";
  }

  // A duplication failure always comes with a duplication warning exactly when
  // the hard limit is not below the warning limit, or there is no hard limit.
  lemma FailureImpliesWarning(warningLines: int, hardFailLines: int)
    ensures (forall lines :: Fails(lines, hardFailLines) ==> Warns(lines, warningLines)) <==>
              warningLines <= hardFailLines || hardFailLines <= 0
  {
    if hardFailLines <= 0 {
    } else if warningLines <= hardFailLines {
      forall lines ensures Fails(lines, hardFailLines) ==> Warns(lines, warningLines) {
        LargerRepeatsLess(lines, warningLines, hardFailLines);
      }
    } else {
      SomeLine();
      CopiesFailUnwarned("x", warningLines, hardFailLines);
    }
  }
}
