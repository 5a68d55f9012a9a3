// Which lines of a design document are material: those of its front matter
// and of some of its sections. The line index is built as ranges; the meaning
// is given line by line.
module MaterialRanges {
  import opened Wrappers
  import opened PyText

  const FENCE := "---"
  const MATERIAL_SECTIONS := {
    "Accessibility", "Agent Usage", "Do's and Don'ts", "Generated Outputs", "Generated Token Outputs"
  }

  // Lines are numbered from 1.
  type Range = (nat, nat)
  type Heading = (nat, string)

  predicate IsFence(line: string) {
    Strip(line) == FENCE
  }

  predicate IsHeading(line: string) {
    "## " <= line
  }

  function Title(line: string): string
    requires IsHeading(line)
  {
    Strip(line[3..])
  }

  predicate InRange(n: int, r: Range) {
    r.0 <= n <= r.1
  }

  predicate InSome(n: int, ranges: seq<Range>) {
    exists r :: r in ranges && InRange(n, r)
  }

  // --- line by line -------------------------------------------------------------

  // No line after the a-th, up to the b-th, is a heading.
  ghost predicate NoHeading(lines: seq<string>, a: nat, b: int) {
    forall k :: a <= k < b && k < |lines| ==> !IsHeading(lines[k])
  }

  ghost predicate NoFence(lines: seq<string>, a: nat, b: int) {
    forall k :: a <= k < b && k < |lines| ==> !IsFence(lines[k])
  }

  // The document opens with a fence that is not closed before the n-th line.
  ghost predicate InFrontMatter(lines: seq<string>, n: int) {
    1 <= n <= |lines| && IsFence(lines[0]) && NoFence(lines, 1, n - 1)
  }

  // The h-th line is the nearest heading at or above the n-th.
  ghost predicate IsNearest(lines: seq<string>, h: int, n: int) {
    1 <= h <= n <= |lines| && IsHeading(lines[h - 1]) && NoHeading(lines, h, n)
  }

  ghost predicate InMaterialSection(lines: seq<string>, n: int) {
    exists h :: IsNearest(lines, h, n) && Title(lines[h - 1]) in MATERIAL_SECTIONS
  }

  ghost predicate IsMaterial(lines: seq<string>, n: int) {
    InFrontMatter(lines, n) || InMaterialSection(lines, n)
  }

  // --- the index of ranges --------------------------------------------------------

  method FrontMatterEndLine(lines: seq<string>) returns (end: Option<nat>)
    ensures end.Some? <==> lines != [] && IsFence(lines[0])
    ensures end.Some? ==> 1 <= end.value <= |lines|
    ensures forall n :: InFrontMatter(lines, n) <==> end.Some? && 1 <= n <= end.value
  {
    if lines == [] || !IsFence(lines[0]) {
      return None;
    }
    for k := 1 to |lines|
      invariant NoFence(lines, 1, k)
    {
      if IsFence(lines[k]) {
        return Some(k + 1);
      }
    }
    return Some(|lines|);
  }

  // Where a section ends: before the next heading, or with the first n lines.
  function EndOf(headings: seq<Heading>, i: nat, n: nat): int
    requires i < |headings|
  {
    if i + 1 < |headings| then headings[i + 1].0 - 1 else n
  }

  // The last line before the first section.
  function FirstOf(headings: seq<Heading>, n: nat): int {
    if headings != [] then headings[0].0 - 1 else n
  }

  // The headings of the first n lines, in order.
  ghost predicate AreHeadings(headings: seq<Heading>, lines: seq<string>, n: nat) {
    && n <= |lines|
    && (forall i :: 0 <= i < |headings| ==> IsSection(headings, lines, i, n))
    && NoHeading(lines, 0, FirstOf(headings, n))
  }

  ghost predicate IsSection(headings: seq<Heading>, lines: seq<string>, i: nat, n: nat)
    requires i < |headings| && n <= |lines|
  {
    && 1 <= headings[i].0 <= EndOf(headings, i, n) <= n
    && IsHeading(lines[headings[i].0 - 1])
    && headings[i].1 == Title(lines[headings[i].0 - 1])
    && NoHeading(lines, headings[i].0, EndOf(headings, i, n))
  }

  lemma NextLine(headings: seq<Heading>, lines: seq<string>, n: nat)
    requires n < |lines| && AreHeadings(headings, lines, n)
    ensures AreHeadings(if IsHeading(lines[n]) then headings + [(n + 1, Title(lines[n]))] else headings,
                        lines, n + 1)
  {
    var longer := if IsHeading(lines[n]) then headings + [(n + 1, Title(lines[n]))] else headings;
    var next := n + 1;
    forall i | 0 <= i < |longer| ensures IsSection(longer, lines, i, next) {
      if i < |headings| {
        assert IsSection(headings, lines, i, n);
      }
    }
  }

  method FindHeadings(lines: seq<string>) returns (headings: seq<Heading>)
    ensures AreHeadings(headings, lines, |lines|)
  {
    headings := [];
    for k := 0 to |lines|
      invariant AreHeadings(headings, lines, k)
    {
      NextLine(headings, lines, k);
      if IsHeading(lines[k]) {
        headings := headings + [(k + 1, Title(lines[k]))];
      }
    }
  }

  ghost predicate InMaterialOf(headings: seq<Heading>, m: nat, n: int, total: nat)
    requires m <= |headings|
  {
    exists i :: 0 <= i < m && headings[i].1 in MATERIAL_SECTIONS && InSectionOf(headings, i, n, total)
  }

  ghost predicate InSectionOf(headings: seq<Heading>, i: nat, n: int, total: nat)
    requires i < |headings|
  {
    headings[i].0 <= n <= EndOf(headings, i, total)
  }

  // A line of a section has that section's heading as its nearest.
  lemma SectionHasNearest(headings: seq<Heading>, lines: seq<string>, i: nat, n: int)
    requires AreHeadings(headings, lines, |lines|) && i < |headings|
    requires InSectionOf(headings, i, n, |lines|)
    ensures IsNearest(lines, headings[i].0, n)
  {
    assert IsSection(headings, lines, i, |lines|);
  }

  lemma OneNearest(lines: seq<string>, g: int, h: int, n: int)
    requires IsNearest(lines, g, n) && IsNearest(lines, h, n)
    ensures g == h
  {
  }

  // A line at or below the first heading is in some section.
  lemma {:induction false} FindSection(headings: seq<Heading>, n: int, m: nat, total: nat) returns (i: nat)
    requires m < |headings| && headings[0].0 <= n <= EndOf(headings, m, total)
    ensures i <= m && InSectionOf(headings, i, n, total)
    decreases m
  {
    if headings[m].0 <= n {
      i := m;
    } else {
      i := FindSection(headings, n, m - 1, total);
    }
  }

  // The sections by the list are those by the nearest heading.
  lemma SectionsAgree(headings: seq<Heading>, lines: seq<string>, n: int)
    requires AreHeadings(headings, lines, |lines|)
    ensures InMaterialOf(headings, |headings|, n, |lines|) <==> InMaterialSection(lines, n)
  {
    if InMaterialOf(headings, |headings|, n, |lines|) {
      var i :| 0 <= i < |headings| && headings[i].1 in MATERIAL_SECTIONS
               && InSectionOf(headings, i, n, |lines|);
      SectionHasNearest(headings, lines, i, n);
      assert IsSection(headings, lines, i, |lines|);
    }
    if InMaterialSection(lines, n) {
      var h :| IsNearest(lines, h, n) && Title(lines[h - 1]) in MATERIAL_SECTIONS;
      NearestIsListed(headings, lines, h, n);
    }
  }

  lemma NearestIsListed(headings: seq<Heading>, lines: seq<string>, h: int, n: int)
    requires AreHeadings(headings, lines, |lines|)
    requires IsNearest(lines, h, n) && Title(lines[h - 1]) in MATERIAL_SECTIONS
    ensures InMaterialOf(headings, |headings|, n, |lines|)
  {
    assert headings != [] && headings[0].0 <= h;
    var i := FindSection(headings, n, |headings| - 1, |lines|);
    SectionHasNearest(headings, lines, i, n);
    OneNearest(lines, h, headings[i].0, n);
    assert IsSection(headings, lines, i, |lines|);
  }

  // The ranges after the first f lie within n lines, in order, one after the other.
  ghost predicate Apart(ranges: seq<Range>, f: nat, n: int) {
    && (forall i :: f <= i < |ranges| ==> 1 <= ranges[i].0 <= ranges[i].1 <= n)
    && (forall i, j :: f <= i < j < |ranges| ==> ranges[i].1 < ranges[j].0)
  }

  lemma NextRange(ranges: seq<Range>, r: Range, n: int)
    ensures InSome(n, ranges + [r]) <==> InSome(n, ranges) || InRange(n, r)
  {
    if InRange(n, r) {
      assert r in ranges + [r];
    }
    if InSome(n, ranges) {
      var q :| q in ranges && InRange(n, q);
      assert q in ranges + [r];
    }
  }

  lemma NextSection(headings: seq<Heading>, m: nat, n: int, total: nat)
    requires m < |headings|
    ensures InMaterialOf(headings, m + 1, n, total) <==>
              || InMaterialOf(headings, m, n, total)
              || (headings[m].1 in MATERIAL_SECTIONS && InSectionOf(headings, m, n, total))
  {
    if InMaterialOf(headings, m, n, total) {
      var i :| 0 <= i < m && headings[i].1 in MATERIAL_SECTIONS && InSectionOf(headings, i, n, total);
      assert i < m + 1;
    }
  }

  // Where the first m sections end.
  function EndOfFirst(headings: seq<Heading>, m: nat, total: nat): int
    requires m <= |headings|
  {
    if m > 0 then EndOf(headings, m - 1, total) else 0
  }

  // A line is in some range exactly when it is material; the ranges of
  // sections are disjoint and inside the file.
  method MaterialLineRanges(text: string) returns (ranges: seq<Range>)
    ensures forall n :: InSome(n, ranges) <==> IsMaterial(SplitLines(text), n)
    ensures var lines := SplitLines(text);
            var f := if lines != [] && IsFence(lines[0]) then 1 else 0;
            && f <= |ranges| && Apart(ranges, f, |lines|)
            && (f == 1 ==> ranges[0].0 == 1 <= ranges[0].1 <= |lines|)
  {
    var lines := SplitLines(text);
    ranges := [];
    var frontMatterEnd := FrontMatterEndLine(lines);
    if frontMatterEnd.Some? {
      ranges := [(1, frontMatterEnd.value)];
    }
    ghost var front := ranges;
    forall n ensures InSome(n, front) <==> InFrontMatter(lines, n) {
      assert front != [] ==> front[0] in front;
    }
    var headings := FindHeadings(lines);
    for m := 0 to |headings|
      invariant front <= ranges && Apart(ranges, |front|, EndOfFirst(headings, m, |lines|))
      invariant forall n :: InSome(n, ranges) <==>
                  InSome(n, front) || InMaterialOf(headings, m, n, |lines|)
    {
      var (start, title) := headings[m];
      ghost var before := ranges;
      assert IsSection(headings, lines, m, |lines|);
      assert m > 0 ==> IsSection(headings, lines, m - 1, |lines|);
      if title in MATERIAL_SECTIONS {
        var end := if m + 1 < |headings| then headings[m + 1].0 - 1 else |lines|;
        ranges := ranges + [(start, end)];
      }
      forall n ensures InSome(n, ranges) <==>
                         InSome(n, front) || InMaterialOf(headings, m + 1, n, |lines|)
      {
        NextSection(headings, m, n, |lines|);
        NextRange(before, (start, EndOf(headings, m, |lines|)), n);
      }
    }
    forall n ensures InSome(n, ranges) <==> IsMaterial(lines, n) {
      SectionsAgree(headings, lines, n);
    }
  }

  // --- the decision ---------------------------------------------------------------

  // A touched design document changes materially when a material line is
  // added to it; without added lines, when lines were removed or its size is
  // not known.
  ghost predicate ChangesMaterially(designFile: string, text: string, touched: seq<string>,
                                    addedLines: map<string, set<nat>>, stats: map<string, int>) {
    && designFile in touched
    && if AddedTo(addedLines, designFile) == {}
       then designFile in stats ==> stats[designFile] > 0
       else exists n :: n in AddedTo(addedLines, designFile) && IsMaterial(SplitLines(text), n)
  }

  function AddedTo(addedLines: map<string, set<nat>>, path: string): set<nat> {
    if path in addedLines then addedLines[path] else {}
  }

  method IsMaterialDesignChange(designFile: string, text: string, touched: seq<string>,
                                addedLines: map<string, set<nat>>, stats: map<string, int>)
    returns (material: bool)
    ensures material <==> ChangesMaterially(designFile, text, touched, addedLines, stats)
  {
    if designFile !in touched {
      return false;
    }
    var added := AddedTo(addedLines, designFile);
    if added == {} {
      return (if designFile in stats then stats[designFile] else 0) > 0 || designFile !in stats;
    }
    var ranges := MaterialLineRanges(text);
    material := exists n | n in added :: exists r | r in ranges :: InRange(n, r);
    assert material <==> exists n :: n in added && InSome(n, ranges);
  }

  // Outside the front matter one heading, the nearest, decides: a material
  // one further up does not count.
  lemma HeadingDecides(lines: seq<string>, h: int, n: int)
    requires IsNearest(lines, h, n) && !InFrontMatter(lines, n)
    ensures IsMaterial(lines, n) <==> Title(lines[h - 1]) in MATERIAL_SECTIONS
  {
    if InMaterialSection(lines, n) {
      var g :| IsNearest(lines, g, n) && Title(lines[g - 1]) in MATERIAL_SECTIONS;
      OneNearest(lines, g, h, n);
    }
  }

  // --- which lines are headings and fences -------------------------------------------

  lemma FenceIs(line: string)
    ensures IsFence(line) <==> Padded(line, "---")
  {
    StripIff(line, "---");
  }

  // The five titles.
  predicate IsMaterialTitle(title: string) {
    || title == "Accessibility" || title == "Agent Usage" || title == "Do's and Don'ts"
    || title == "Generated Outputs" || title == "Generated Token Outputs"
  }

  // Two hash marks, a space and one of the five titles, with any white space
  // around the title.
  ghost predicate MarksMaterial(line: string) {
    "## " <= line && exists title :: IsMaterialTitle(title) && Padded(line[3..], title)
  }

  lemma TitleIs(line: string)
    requires "## " <= line
    ensures IsHeading(line)
    ensures Title(line) in MATERIAL_SECTIONS <==> MarksMaterial(line)
  {
    StripIs(line[3..]);
    assert Title(line) in MATERIAL_SECTIONS <==> IsMaterialTitle(Title(line));
    if title :| IsMaterialTitle(title) && Padded(line[3..], title) {
      StripIff(line[3..], title);
    }
  }

  // What the nearest heading decides, letter by letter.
  lemma MaterialHeading(lines: seq<string>, h: int, n: int)
    requires 1 <= h <= n <= |lines| && "## " <= lines[h - 1]
    requires forall k :: h <= k < n ==> !("## " <= lines[k])
    requires !InFrontMatter(lines, n)
    ensures IsMaterial(lines, n) <==> MarksMaterial(lines[h - 1])
  {
    assert IsNearest(lines, h, n);
    HeadingDecides(lines, h, n);
    TitleIs(lines[h - 1]);
  }

  // Above the first heading only the front matter is material.
  lemma NoHeadingAbove(lines: seq<string>, n: int)
    requires forall k :: 0 <= k < n && k < |lines| ==> !("## " <= lines[k])
    ensures IsMaterial(lines, n) <==> InFrontMatter(lines, n)
  {
    forall h ensures !IsNearest(lines, h, n) {
      assert 1 <= h <= n <= |lines| ==> !("## " <= lines[h - 1]);
    }
  }
}
