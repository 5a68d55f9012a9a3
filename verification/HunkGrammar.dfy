// Which lines the diff reader takes for hunk headers: exactly those of the
// grammar, and no other.
module HunkGrammar {
  import opened Wrappers
  import opened Decimal
  import opened Sequences
  import opened DiffLines

  predicate IsNumber(text: string) {
    text != "" && forall c :: c in text ==> IsDigit(c)
  }

  // A number, or two with a comma between them; the second is the count.
  ghost predicate IsRange(text: string, start: nat, count: nat) {
    || (IsNumber(text) && start == ReadNumeral(text) && count == 1)
    || exists a, b :: IsPair(text, a, b) && start == ReadNumeral(a) && count == ReadNumeral(b)
  }

  predicate IsPair(text: string, a: string, b: string) {
    text == a + ("," + b) && IsNumber(a) && IsNumber(b)
  }

  predicate IsHeader(line: string, oldRange: string, newRange: string, rest: string) {
    line == "@@ -" + (oldRange + (" +" + (newRange + (" @@" + rest))))
  }

  lemma RunIsNumber(s: string)
    ensures DigitRun(s) > 0 ==> IsNumber(s[..DigitRun(s)])
  {}

  // What is read as a range is one.
  lemma ReadRangeIs(s: string) returns (text: string)
    requires ReadRange(s).Some?
    ensures var (start, count, rest) := ReadRange(s).value;
            IsRange(text, start, count) && s == text + rest
  {
    var k := DigitRun(s);
    RunIsNumber(s);
    text := s[..k];
    if k < |s| && s[k] == ',' {
      var t := s[k + 1..];
      var n := DigitRun(t);
      RunIsNumber(t);
      if n > 0 {
        PairPrefix(s, k, n);
        text := s[..k + 1 + n];
      }
    }
  }

  lemma PairPrefix(s: string, k: nat, n: nat)
    requires k < |s| && s[k] == ',' && n <= |s[k + 1..]|
    requires IsNumber(s[..k]) && IsNumber(s[k + 1..][..n])
    ensures IsRange(s[..k + 1 + n], ReadNumeral(s[..k]), ReadNumeral(s[k + 1..][..n]))
    ensures s == s[..k + 1 + n] + s[k + 1..][n..]
  {
    assert s[..k + 1 + n] == s[..k] + ("," + s[k + 1..][..n]);
    assert IsPair(s[..k + 1 + n], s[..k], s[k + 1..][..n]);
  }

  // And a range that ends where it must is read as such.
  lemma ReadRangeOf(text: string, rest: string, start: nat, count: nat)
    requires IsRange(text, start, count)
    requires rest != "" && !IsDigit(rest[0]) && rest[0] != ','
    ensures ReadRange(text + rest) == Some((start, count, rest))
  {
    if IsNumber(text) && start == ReadNumeral(text) && count == 1 {
      DigitRunOfNumeral(text, rest);
      Cut(text, rest);
      assert (text + rest)[|text|] == rest[0];
    } else {
      var a, b :| IsPair(text, a, b) && start == ReadNumeral(a) && count == ReadNumeral(b);
      ReadPair(a, b, rest);
      Regroup3(a, "," + b, rest);
      Regroup3(",", b, rest);
    }
  }

  lemma ReadPair(a: string, b: string, rest: string)
    requires IsNumber(a) && IsNumber(b)
    requires rest != "" && !IsDigit(rest[0])
    ensures ReadRange(a + ("," + (b + rest))) == Some((ReadNumeral(a), ReadNumeral(b), rest))
  {
    var tail := "," + (b + rest);
    DigitRunOfNumeral(a, tail);
    Cut(a, tail);
    Cut(",", b + rest);
    DigitRunOfNumeral(b, rest);
    Cut(b, rest);
    var s := a + tail;
    assert s[|a|] == ',' && s[|a| + 1..] == tail[1..] == b + rest;
  }

  ghost predicate Headed(line: string, start: nat, count: nat) {
    exists oldRange, newRange, rest, oldStart: nat, oldCount: nat ::
      && IsHeader(line, oldRange, newRange, rest)
      && IsRange(oldRange, oldStart, oldCount) && IsRange(newRange, start, count)
  }

  // A line is read as the header of a hunk at start with count lines exactly
  // when it is one: "@@ -", a range, " +", the range of start and count, " @@"
  // and anything after it.
  lemma HunkIs(line: string, start: nat, count: nat)
    ensures ReadHunk(line) == Some((start, count)) <==> Headed(line, start, count)
  {
    if ReadHunk(line) == Some((start, count)) {
      HunkIsHeaded(line, start, count);
    }
    if oldRange, newRange, rest, oldStart: nat, oldCount: nat :|
         && IsHeader(line, oldRange, newRange, rest)
         && IsRange(oldRange, oldStart, oldCount) && IsRange(newRange, start, count)
    {
      HeadedIsHunk(line, oldRange, newRange, rest, oldStart, oldCount, start, count);
    }
  }

  lemma HeadedIsHunk(line: string, oldRange: string, newRange: string, rest: string, oldStart: nat, oldCount: nat,
                     start: nat, count: nat)
    requires IsHeader(line, oldRange, newRange, rest)
    requires IsRange(oldRange, oldStart, oldCount) && IsRange(newRange, start, count)
    ensures ReadHunk(line) == Some((start, count))
  {
    var afterNew := " @@" + rest;
    var afterOld := " +" + (newRange + afterNew);
    Cut("@@ -", oldRange + afterOld);
    ReadRangeOf(oldRange, afterOld, oldStart, oldCount);
    Cut(" +", newRange + afterNew);
    ReadRangeOf(newRange, afterNew, start, count);
    Cut(" @@", rest);
  }

  lemma HunkIsHeaded(line: string, start: nat, count: nat)
    requires ReadHunk(line) == Some((start, count))
    ensures Headed(line, start, count)
  {
    var oldRange := ReadRangeIs(line[4..]);
    var (oldStart, oldCount, afterOld) := ReadRange(line[4..]).value;
    var newRange := ReadRangeIs(afterOld[2..]);
    var (_, _, afterNew) := ReadRange(afterOld[2..]).value;
    Pasted(line, oldRange, afterOld, newRange, afterNew);
  }

  lemma Pasted(line: string, oldRange: string, afterOld: string, newRange: string, afterNew: string)
    requires "@@ -" <= line && line[4..] == oldRange + afterOld
    requires " +" <= afterOld && afterOld[2..] == newRange + afterNew
    requires " @@" <= afterNew
    ensures IsHeader(line, oldRange, newRange, afterNew[3..])
  {
    assert afterNew == " @@" + afterNew[3..];
    assert afterOld == " +" + (newRange + afterNew);
    assert line == "@@ -" + (oldRange + afterOld);
  }
}
