// What the allowlist's texts mean, and which failure a lint run reports for
// what, read off the entries of the payload themselves.
module AllowlistRules {
  import opened LintAllowlist
  import opened PathSegments
  import opened Selections
  import opened Sequences
  import opened Wrappers

  // --- paths -------------------------------------------------------------------

  // name stands between slashes, or at an end.
  ghost predicate HasSegment(s: string, name: string) {
    exists a, b :: IsSegmentOf(s, a, name, b)
  }

  predicate IsSegmentOf(s: string, a: string, name: string, b: string) {
    s == a + (name + b) && (a == "" || a[|a| - 1] == '/') && (b == "" || b[0] == '/')
  }

  lemma {:induction false} FindSlash(s: string, i: nat) returns (k: nat)
    requires i <= |s| && '/' in s && forall j :: 0 <= j < i ==> s[j] != '/'
    ensures k < |s| && s[k] == '/' && forall j :: 0 <= j < k ==> s[j] != '/'
    decreases |s| - i
  {
    if s[i] == '/' {
      k := i;
    } else {
      k := FindSlash(s, i + 1);
    }
  }

  lemma CutAtSlash(s: string, k: nat)
    requires k < |s| && s[k] == '/'
    ensures s == s[..k] + ("/" + s[k + 1..])
  {}

  // Cutting a text at its slashes gives its segments.
  lemma {:induction false} SegmentsAre(s: string, name: string)
    requires '/' !in name
    ensures name in Segments(s) <==> HasSegment(s, name)
    decreases |s|
  {
    if '/' !in s {
      OneSegment(s);
      NoSlashOneSegment(s, name);
    } else {
      var k := FindSlash(s, 0);
      CutAtSlash(s, k);
      var first, rest := s[..k], s[k + 1..];
      FirstSegment(first, rest);
      Regroup3(first, "/", rest);
      SegmentsAre(rest, name);
      FirstOrRest(first, rest, name);
    }
  }

  lemma NoSlashOneSegment(s: string, name: string)
    requires '/' !in s
    ensures HasSegment(s, name) <==> name == s
  {
    if name == s {
      assert s == "" + (name + "");
      assert IsSegmentOf(s, "", name, "");
    }
    if a, b :| IsSegmentOf(s, a, name, b) {
      if a != "" || b != "" {
        SlashBeside(s, a, name, b);
      }
      assert name + "" == name && "" + (name + "") == name;
    }
  }

  lemma SlashBeside(s: string, a: string, name: string, b: string)
    requires IsSegmentOf(s, a, name, b) && (a != "" || b != "")
    ensures '/' in s
  {
    if a != "" {
      assert s[|a| - 1] == '/';
    } else {
      assert s[|a| + |name|] == '/';
    }
  }

  lemma FirstOrRest(first: string, rest: string, name: string)
    requires '/' !in first && '/' !in name
    ensures HasSegment(first + ("/" + rest), name) <==> name == first || HasSegment(rest, name)
  {
    var s := first + ("/" + rest);
    if name == first {
      assert IsSegmentOf(s, "", name, "/" + rest) by {
        assert "" + (name + ("/" + rest)) == s;
      }
    }
    if a, b :| IsSegmentOf(rest, a, name, b) {
      Longer(first, rest, a, name, b);
    }
    if a, b :| IsSegmentOf(s, a, name, b) {
      if a == "" {
        StartsWith(first, rest, name, b);
      } else {
        Shorter(first, rest, a, name, b);
      }
    }
  }

  lemma Longer(first: string, rest: string, a: string, name: string, b: string)
    requires IsSegmentOf(rest, a, name, b)
    ensures IsSegmentOf(first + ("/" + rest), first + "/" + a, name, b)
  {
    Regroup3(first + "/", a, name + b);
    Regroup3(first, "/", rest);
  }

  lemma SlashNotInside(s: string, start: string, k: nat)
    requires |start| <= |s| && s[..|start|] == start && '/' !in start
    requires k < |s| && s[k] == '/'
    ensures k >= |start|
  {
    assert forall i :: 0 <= i < |start| ==> s[i] == start[i];
  }

  lemma StartsWith(first: string, rest: string, name: string, b: string)
    requires '/' !in first && '/' !in name && (b == "" || b[0] == '/')
    requires first + ("/" + rest) == "" + (name + b)
    ensures name == first
  {
    var s := first + ("/" + rest);
    assert s == name + b;
    SlashNotInside(s, name, |first|);
    if b != "" {
      SlashNotInside(s, first, |name|);
    }
    assert s[..|name|] == name && s[..|first|] == first;
  }

  lemma Shorter(first: string, rest: string, a: string, name: string, b: string)
    requires '/' !in first && a != "" && IsSegmentOf(first + ("/" + rest), a, name, b)
    ensures HasSegment(rest, name)
  {
    var s := first + ("/" + rest);
    var k := |first|;
    assert s[|a| - 1] == '/';
    SlashNotInside(s, first, |a| - 1);
    var a' := a[k + 1..];
    assert s[k + 1..] == rest;
    assert s[k + 1..] == a' + (name + b);
    assert a' != "" ==> a'[|a'| - 1] == a[|a| - 1];
    assert IsSegmentOf(rest, a', name, b);
  }

  // A path is safe exactly when it is not empty, does not start with a slash
  // and, but for a leading ./, has no segment that is two dots.
  lemma SafePathIs(p: string)
    ensures IsSafeRelativePath(p) <==>
              p != "" && p[0] != '/' && !HasSegment(if |p| >= 2 && p[..2] == "./" then p[2..] else p, "..")
  {
    assert "./" <= p <==> |p| >= 2 && p[..2] == "./";
    SegmentsAre(NormalizePath(p), "..");
  }

  // --- texts ---------------------------------------------------------------------

  predicate AllSpace(s: string) {
    forall i :: 0 <= i < |s| ==> IsSpace(s[i])
  }

  predicate Bare(s: string) {
    s == "" || (!IsSpace(s[0]) && !IsSpace(s[|s| - 1]))
  }

  ghost predicate Padded(s: string, core: string) {
    exists a, b :: s == a + (core + b) && AllSpace(a) && AllSpace(b)
  }

  // The white space of trim by code point.
  lemma SpacesAre(c: char)
    ensures IsSpace(c) <==>
              || 9 <= c as int <= 13 || 8192 <= c as int <= 8202
              || c as int in {32, 160, 5760, 8232, 8233, 8239, 8287, 12288, 65279}
  {}

  lemma PaddedLeft(c: char, s: string, core: string)
    requires IsSpace(c) && Padded(s, core)
    ensures Padded([c] + s, core)
  {
    var a, b :| s == a + (core + b) && AllSpace(a) && AllSpace(b);
    Regroup3([c], a, core + b);
    assert AllSpace([c] + a);
  }

  lemma PaddedRight(s: string, c: char, core: string)
    requires IsSpace(c) && Padded(s, core)
    ensures Padded(s + [c], core)
  {
    var a, b :| s == a + (core + b) && AllSpace(a) && AllSpace(b);
    Regroup3(a, core + b, [c]);
    Regroup3(core, b, [c]);
    assert AllSpace(b + [c]);
  }

  lemma PaddedByNothing(s: string)
    ensures Padded(s, s)
  {
    assert s == "" + (s + "");
    assert AllSpace("");
  }

  lemma {:induction false} TrimIs(s: string)
    ensures Bare(Trim(s)) && Padded(s, Trim(s))
    decreases |s|
  {
    if s != "" && IsSpace(s[0]) {
      TrimIs(s[1..]);
      PaddedLeft(s[0], s[1..], Trim(s));
      assert s == [s[0]] + s[1..];
    } else if s != "" && IsSpace(s[|s| - 1]) {
      var n := |s| - 1;
      TrimIs(s[..n]);
      PaddedRight(s[..n], s[n], Trim(s));
      assert s == s[..n] + [s[n]];
    } else {
      PaddedByNothing(s);
    }
  }

  lemma {:induction false} TrimOf(a: string, core: string, b: string)
    requires AllSpace(a) && AllSpace(b) && Bare(core)
    ensures Trim(a + (core + b)) == core
    decreases |a| + |b|
  {
    var s := a + (core + b);
    if a != "" {
      assert s[0] == a[0] && s[1..] == a[1..] + (core + b);
      TrimOf(a[1..], core, b);
    } else if b != "" {
      var n := |b| - 1;
      if core == "" {
        assert s == b && IsSpace(s[0]);
        assert s[1..] == "" + ("" + b[1..]);
        TrimOf("", core, b[1..]);
      } else {
        assert s[0] == core[0] && s[|s| - 1] == b[n];
        assert s[..|s| - 1] == "" + (core + b[..n]);
        TrimOf("", core, b[..n]);
      }
    } else {
      assert s == core;
    }
  }

  // The same letters, whatever their case.
  predicate SameLetters(s: string, word: string) {
    && |s| == |word|
    && forall i :: 0 <= i < |s| ==>
         if 65 <= s[i] as int <= 90 then s[i] as int + 32 == word[i] as int else s[i] == word[i]
  }

  lemma {:induction false} LowerIs(s: string)
    ensures SameLetters(s, Lower(s))
  {
    if s != "" {
      LowerIs(s[1..]);
      var t := Lower(s);
      assert t[1..] == Lower(s[1..]);
      forall i | 1 <= i < |s| ensures s[i] == s[1..][i - 1] && t[i] == t[1..][i - 1] {}
    }
  }

  lemma SameLettersOnce(s: string, v: string, w: string)
    requires SameLetters(s, v) && SameLetters(s, w)
    ensures v == w
  {}

  predicate IsFiller(s: string) {
    || SameLetters(s, "tbd") || SameLetters(s, "todo") || SameLetters(s, "n/a")
    || SameLetters(s, "none") || SameLetters(s, "unknown")
  }

  lemma FillersAre(s: string)
    ensures IsPlaceholder(s) <==> IsFiller(s)
  {
    LowerIs(s);
    forall word | SameLetters(s, word) ensures Lower(s) == word {
      SameLettersOnce(s, Lower(s), word);
    }
  }

  // A text is informative exactly when it is a string that says something
  // between its white space, and not one of five fillers.
  ghost predicate SaysSomething(t: Text) {
    t.Str? && exists core :: Padded(t.s, core) && core != "" && Bare(core) && !IsFiller(core)
  }

  lemma InformativeIs(t: Text)
    ensures IsInformative(t) <==> SaysSomething(t)
  {
    if t.Str? {
      TrimIs(t.s);
      FillersAre(Trim(t.s));
      if core :| Padded(t.s, core) && core != "" && Bare(core) && !IsFiller(core) {
        var a, b :| t.s == a + (core + b) && AllSpace(a) && AllSpace(b);
        TrimOf(a, core, b);
      }
    }
  }

  // --- entries ---------------------------------------------------------------------

  function PathTexts(raw: RawEntry): seq<Text> {
    match raw.paths
    case Some(texts) => texts
    case None => [raw.path]
  }

  function RuleTexts(raw: RawEntry): seq<Text> {
    match raw.rules
    case Some(texts) => texts
    case None => []
  }

  function WithoutDot(p: string): string {
    if |p| >= 2 && p[0] == '.' && p[1] == '/' then p[2..] else p
  }

  lemma WithoutDotIs(p: string)
    ensures NormalizePath(p) == WithoutDot(p)
  {
    assert "./" <= p <==> |p| >= 2 && p[0] == '.' && p[1] == '/';
  }

  // The entry made of a raw entry for one of its paths.
  ghost predicate MadeOf(e: Entry, raw: RawEntry) {
    && (exists t :: t in PathTexts(raw) && t.Str? && e.path == WithoutDot(t.s))
    && e.rules == RuleTexts(raw) && e.owner == raw.owner && e.reason == raw.reason && e.followUp == raw.followUp
  }

  ghost predicate NamesStrings(raw: RawEntry) {
    PathTexts(raw) != [] && forall t :: t in PathTexts(raw) ==> t.Str?
  }

  lemma {:induction false} CleanEntriesAre(raw: RawEntry, paths: seq<Text>, e: Entry)
    requires forall t :: t in paths ==> t.Str?
    ensures e in CleanEntries(raw, paths) <==> exists t :: t in paths && e == CleanEntry(raw, t)
  {
    if paths != [] {
      var n := |paths| - 1;
      assert paths == paths[..n] + [paths[n]];
      CleanEntriesAre(raw, paths[..n], e);
    }
  }

  lemma ExpandedIs(raw: RawEntry, e: Entry)
    ensures NamesPaths(raw) <==> NamesStrings(raw)
    ensures e in Expanded(raw) <==> NamesStrings(raw) && MadeOf(e, raw)
  {
    assert PathsOf(raw) == PathTexts(raw);
    if NamesStrings(raw) {
      CleanEntriesAre(raw, PathTexts(raw), e);
      forall t | t in PathTexts(raw)
        ensures e == CleanEntry(raw, t) <==>
                  && e.path == WithoutDot(t.s) && e.rules == RuleTexts(raw)
                  && e.owner == raw.owner && e.reason == raw.reason && e.followUp == raw.followUp
      {
        WithoutDotIs(t.s);
      }
    }
  }

  ghost predicate Listed(raws: seq<RawEntry>, e: Entry) {
    exists raw :: raw in raws && NamesStrings(raw) && MadeOf(e, raw)
  }

  // The entries of an allowlist: one for each path of each raw entry that names
  // its paths by strings.
  lemma {:induction false} AllExpandedAre(raws: seq<RawEntry>, e: Entry)
    ensures e in AllExpanded(raws) <==> Listed(raws, e)
  {
    if raws != [] {
      var n := |raws| - 1;
      assert raws == raws[..n] + [raws[n]];
      AllExpandedAre(raws[..n], e);
      ExpandedIs(raws[n], e);
    }
  }

  lemma {:induction false} RulePairsAre(path: string, rules: seq<Text>, p: string, r: string)
    ensures (p, r) in RulePairs(path, rules) <==> p == path && exists t :: t in rules && Shown(t) == r
  {
    if rules != [] {
      var n := |rules| - 1;
      assert rules == rules[..n] + [rules[n]];
      RulePairsAre(path, rules[..n], p, r);
    }
  }

  ghost predicate EntryLists(e: Entry, p: string, r: string) {
    e.path == p && exists t :: t in e.rules && Shown(t) == r
  }

  lemma {:induction false} PairsAre(es: seq<Entry>, p: string, r: string)
    ensures (p, r) in Pairs(es) <==> exists e :: e in es && EntryLists(e, p, r)
  {
    if es != [] {
      var n := |es| - 1;
      assert es == es[..n] + [es[n]];
      PairsAre(es[..n], p, r);
      RulePairsAre(es[n].path, es[n].rules, p, r);
      assert (p, r) in Pairs(es) <==>
             (p, r) in Pairs(es[..n]) || (p, r) in RulePairs(es[n].path, es[n].rules);
      assert (p, r) in RulePairs(es[n].path, es[n].rules) <==> EntryLists(es[n], p, r);
    }
  }

  predicate IsSourceRule(t: Text) {
    t.Str? && (t.s == "readability:bundled-source" || t.s == "readability:generated-source"
               || t.s == "readability:minified-source")
  }

  // A raw entry that names scanned files by safe paths, lists some of the three
  // rules and says who, why and what next.
  ghost predicate IsProper(raw: RawEntry, files: seq<string>) {
    && NamesStrings(raw)
    && (forall t :: t in PathTexts(raw) ==> IsSafeRelativePath(WithoutDot(t.s)) && WithoutDot(t.s) in files)
    && RuleTexts(raw) != [] && (forall t :: t in RuleTexts(raw) ==> IsSourceRule(t))
    && SaysSomething(raw.owner) && SaysSomething(raw.reason) && SaysSomething(raw.followUp)
  }

  ghost predicate ListsPair(raws: seq<RawEntry>, p: string, r: string) {
    exists raw, t, rule ::
      raw in raws && t in PathTexts(raw) && t.Str? && WithoutDot(t.s) == p
      && rule in RuleTexts(raw) && Shown(rule) == r
  }

  ghost predicate Finds(findings: seq<Finding>, p: string, r: string) {
    exists f :: f in findings && f.path == p && f.rule == r
  }

  lemma WellFormedIs(e: Entry, raw: RawEntry, files: seq<string>)
    requires MadeOf(e, raw)
    ensures IsWellFormed(e, files) <==>
              && IsSafeRelativePath(e.path) && e.path in files
              && RuleTexts(raw) != [] && (forall t :: t in RuleTexts(raw) ==> IsSourceRule(t))
              && SaysSomething(raw.owner) && SaysSomething(raw.reason) && SaysSomething(raw.followUp)
  {
    InformativeIs(raw.owner);
    InformativeIs(raw.reason);
    InformativeIs(raw.followUp);
    assert forall t :: IsAllowlistable(t) <==> IsSourceRule(t);
  }

  lemma ProperIs(raw: RawEntry, files: seq<string>)
    requires NamesStrings(raw)
    ensures (forall e :: MadeOf(e, raw) ==> IsWellFormed(e, files)) <==> IsProper(raw, files)
  {
    if forall e :: MadeOf(e, raw) ==> IsWellFormed(e, files) {
      forall t | t in PathTexts(raw)
        ensures IsSafeRelativePath(WithoutDot(t.s)) && WithoutDot(t.s) in files
      {
        var e := Entry(WithoutDot(t.s), RuleTexts(raw), raw.owner, raw.reason, raw.followUp);
        assert MadeOf(e, raw);
      }
      var t := PathTexts(raw)[0];
      var e := Entry(WithoutDot(t.s), RuleTexts(raw), raw.owner, raw.reason, raw.followUp);
      assert MadeOf(e, raw);
      WellFormedIs(e, raw, files);
    }
    if IsProper(raw, files) {
      forall e | MadeOf(e, raw) ensures IsWellFormed(e, files) {
        WellFormedIs(e, raw, files);
      }
    }
  }

  lemma SoundIs(payload: Payload, files: seq<string>)
    requires SchemaOk(payload)
    ensures IsSound(payload, files) <==>
              && (forall raw :: raw in payload.entries.value ==> IsProper(raw, files))
              && NoRepeat(Pairs(AllExpanded(payload.entries.value)))
  {
    var raws := payload.entries.value;
    forall raw | raw in raws ensures NamesPaths(raw) <==> NamesStrings(raw) {
      assert PathsOf(raw) == PathTexts(raw);
    }
    forall e ensures e in AllExpanded(raws) <==> Listed(raws, e) {
      AllExpandedAre(raws, e);
    }
    if All(raws, NamesPaths) && All(AllExpanded(raws), WellFormedIn(files)) {
      forall raw | raw in raws ensures IsProper(raw, files) {
        forall e | MadeOf(e, raw) ensures IsWellFormed(e, files) {
          assert Listed(raws, e);
          assert WellFormedIn(files)(e);
        }
        ProperIs(raw, files);
      }
    }
    if forall raw :: raw in raws ==> IsProper(raw, files) {
      forall e | e in AllExpanded(raws) ensures WellFormedIn(files)(e) {
        var raw :| raw in raws && NamesStrings(raw) && MadeOf(e, raw);
        ProperIs(raw, files);
      }
    }
  }

  lemma ListedPairsAre(raws: seq<RawEntry>, p: string, r: string)
    requires forall raw :: raw in raws ==> NamesStrings(raw)
    ensures (p, r) in Pairs(AllExpanded(raws)) <==> ListsPair(raws, p, r)
  {
    PairsAre(AllExpanded(raws), p, r);
    if e :| e in AllExpanded(raws) && EntryLists(e, p, r) {
      AllExpandedAre(raws, e);
      var raw :| raw in raws && NamesStrings(raw) && MadeOf(e, raw);
      var t :| t in PathTexts(raw) && t.Str? && e.path == WithoutDot(t.s);
    }
    if raw, t, rule :| raw in raws && t in PathTexts(raw) && t.Str? && WithoutDot(t.s) == p
                       && rule in RuleTexts(raw) && Shown(rule) == r {
      var e := Entry(p, RuleTexts(raw), raw.owner, raw.reason, raw.followUp);
      assert MadeOf(e, raw);
      assert Listed(raws, e);
      AllExpandedAre(raws, e);
      assert EntryLists(e, p, r);
    }
  }

  // A lint run passes exactly when the payload has version 1 and a list, every
  // entry of the list is proper, no path and rule come twice, and a path and a
  // rule are listed exactly when the scan finds them.
  lemma PassesIff(payload: Payload, files: seq<string>, findings: seq<Finding>)
    requires FromScan(findings)
    ensures Failures(payload, files, findings) == [] <==>
              && payload.versionIsOne && payload.entries.Some?
              && (forall raw :: raw in payload.entries.value ==> IsProper(raw, files))
              && NoRepeat(Pairs(AllExpanded(payload.entries.value)))
              && forall p, r :: ListsPair(payload.entries.value, p, r) <==> Finds(findings, p, r)
  {
    PassMeansSameSet(payload, files, findings);
    if SchemaOk(payload) {
      var raws := payload.entries.value;
      SoundIs(payload, files);
      if IsSound(payload, files) {
        forall p, r
          ensures (p, r) in Elements(Pairs(AllExpanded(raws))) <==> ListsPair(raws, p, r)
          ensures (p, r) in FoundPairs(findings) <==> Finds(findings, p, r)
        {
          ListedPairsAre(raws, p, r);
          FoundIs(findings, p, r);
        }
        SamePairs(Elements(Pairs(AllExpanded(raws))), FoundPairs(findings), raws, findings);
      }
    }
  }

  lemma FoundIs(findings: seq<Finding>, p: string, r: string)
    ensures (p, r) in FoundPairs(findings) <==> Finds(findings, p, r)
  {}

  lemma SamePairs(a: set<(string, string)>, b: set<(string, string)>, raws: seq<RawEntry>, findings: seq<Finding>)
    requires forall p, r :: (p, r) in a <==> ListsPair(raws, p, r)
    requires forall p, r :: (p, r) in b <==> Finds(findings, p, r)
    ensures a == b <==> forall p, r :: ListsPair(raws, p, r) <==> Finds(findings, p, r)
  {
    if forall p, r :: ListsPair(raws, p, r) <==> Finds(findings, p, r) {
      forall pair: (string, string) ensures pair in a <==> pair in b {
        assert pair == (pair.0, pair.1);
        assert ListsPair(raws, pair.0, pair.1) <==> Finds(findings, pair.0, pair.1);
      }
    }
    if a == b {
      forall p, r ensures ListsPair(raws, p, r) <==> Finds(findings, p, r) {
        assert (p, r) in a <==> (p, r) in b;
      }
    }
  }

  // --- which failure is reported for what --------------------------------------------

  // The failures of one entry, but for repeated keys.
  ghost predicate EntryFault(e: Entry, files: seq<string>, f: Failure) {
    match f
    case UnsafePath => !IsSafeRelativePath(e.path)
    case NotScanned(p) => p == e.path && IsSafeRelativePath(p) && p !in files
    case NoRules(p) => p == e.path && e.rules == []
    case UnsupportedRule(p, r) => p == e.path && exists t :: t in e.rules && !IsSourceRule(t) && Shown(t) == r
    case MissingText(p, name) =>
      && p == e.path
      && !SaysSomething(match name case Owner => e.owner case Reason => e.reason case FollowUp => e.followUp)
    case _ => false
  }

  lemma {:induction false} RuleErrorsHave(path: string, rules: seq<Text>, seen: set<string>, f: Failure)
    requires !f.Duplicate?
    ensures f in RuleErrors(path, rules, seen) <==>
              f.UnsupportedRule? && f.path == path && exists t :: t in rules && !IsSourceRule(t) && Shown(t) == f.rule
  {
    if rules != [] {
      var n := |rules| - 1;
      var now := seen + Elements(RuleKeys(path, rules[..n]));
      assert rules == rules[..n] + [rules[n]];
      RuleErrorsHave(path, rules[..n], seen, f);
      InThree(RuleErrors(path, rules[..n], seen), SupportErrors(path, rules[n]),
              DuplicateErrors(path, rules[n], now), f);
      assert IsAllowlistable(rules[n]) <==> IsSourceRule(rules[n]);
    }
  }

  lemma MetadataErrorsHave(e: Entry, files: seq<string>, f: Failure)
    ensures f in MetadataErrors(e) <==> f.MissingText? && EntryFault(e, files, f)
  {
    InformativeIs(e.owner);
    InformativeIs(e.reason);
    InformativeIs(e.followUp);
    InThree(TextErrors(e.owner, Owner, e.path), TextErrors(e.reason, Reason, e.path),
            TextErrors(e.followUp, FollowUp, e.path), f);
  }

  lemma EntryErrorsHave(e: Entry, files: seq<string>, seen: set<string>, f: Failure)
    requires !f.Duplicate?
    ensures f in EntryErrors(e, Elements(files), seen) <==> EntryFault(e, files, f)
  {
    RuleErrorsHave(e.path, e.rules, seen, f);
    MetadataErrorsHave(e, files, f);
    InThree(PathErrors(e, Elements(files)), NoRuleErrors(e), RuleErrors(e.path, e.rules, seen), f);
  }

  ghost predicate SomeFault(es: seq<Entry>, files: seq<string>, f: Failure) {
    exists e :: e in es && EntryFault(e, files, f)
  }

  lemma {:induction false} EntriesErrorsHave(es: seq<Entry>, files: seq<string>, seen: set<string>, f: Failure)
    requires !f.Duplicate?
    ensures f in EntriesErrors(es, Elements(files), seen) <==> SomeFault(es, files, f)
  {
    if es != [] {
      var n := |es| - 1;
      assert es == es[..n] + [es[n]];
      EntriesErrorsHave(es[..n], files, seen, f);
      EntryErrorsHave(es[n], files, seen + Elements(Keys(es[..n])), f);
    }
  }

  ghost predicate SomeUnnamed(raws: seq<RawEntry>) {
    exists raw :: raw in raws && !NamesStrings(raw)
  }

  // The errors of an allowlist, but for repeated keys: entries that name no
  // paths, and the faults of the entries made of the others.
  lemma {:induction false} AllErrorsHave(raws: seq<RawEntry>, files: seq<string>, f: Failure)
    requires !f.Duplicate?
    ensures f in AllErrors(raws, Elements(files)) <==>
              (f == NoPaths && SomeUnnamed(raws)) || SomeFault(AllExpanded(raws), files, f)
  {
    if raws != [] {
      var init, last := raws[..|raws| - 1], raws[|raws| - 1];
      AllErrorsHave(init, files, f);
      EntriesErrorsHave(Expanded(last), files, Elements(Keys(AllExpanded(init))), f);
      InThree(AllErrors(init, Elements(files)), ExpandErrors(last),
              EntriesErrors(Expanded(last), Elements(files), Elements(Keys(AllExpanded(init)))), f);
      OneMoreUnnamed(raws);
      FaultsConcat(AllExpanded(init), Expanded(last), files, f);
    }
  }

  lemma OneMoreUnnamed(raws: seq<RawEntry>)
    requires raws != []
    ensures SomeUnnamed(raws) <==> SomeUnnamed(raws[..|raws| - 1]) || !NamesPaths(raws[|raws| - 1])
  {
    var init, last := raws[..|raws| - 1], raws[|raws| - 1];
    assert raws == init + [last];
    assert PathsOf(last) == PathTexts(last);
    if SomeUnnamed(raws) {
      var raw :| raw in raws && !NamesStrings(raw);
      assert raw in init || raw == last;
    }
    if SomeUnnamed(init) {
      var raw :| raw in init && !NamesStrings(raw);
      assert raw in raws;
    }
    assert last in raws;
  }

  lemma FaultsConcat(a: seq<Entry>, b: seq<Entry>, files: seq<string>, f: Failure)
    ensures SomeFault(a + b, files, f) <==> SomeFault(a, files, f) || SomeFault(b, files, f)
  {
    if SomeFault(a, files, f) {
      var e :| e in a && EntryFault(e, files, f);
      assert e in a + b;
    }
    if SomeFault(b, files, f) {
      var e :| e in b && EntryFault(e, files, f);
      assert e in a + b;
    }
    if SomeFault(a + b, files, f) {
      var e :| e in a + b && EntryFault(e, files, f);
      assert e in a || e in b;
    }
  }

  // The j-th key, with the path and the rule p and r, was seen before.
  predicate RepeatsAt(pairs: seq<(string, string)>, keys: seq<string>, seen: set<string>, p: string, r: string, j: nat)
    requires |pairs| == |keys| && j < |pairs|
  {
    pairs[j] == (p, r) && (keys[j] in seen || keys[j] in keys[..j])
  }

  // A repeated key, at a place where it was seen before.
  ghost predicate Repeats(pairs: seq<(string, string)>, keys: seq<string>, seen: set<string>, p: string, r: string) {
    |pairs| == |keys| && exists j :: 0 <= j < |pairs| && RepeatsAt(pairs, keys, seen, p, r, j)
  }

  lemma FirstPart(a: seq<(string, string)>, b: seq<(string, string)>, k: seq<string>, l: seq<string>,
                  seen: set<string>, p: string, r: string, j: nat)
    requires |a| == |k| && |b| == |l| && j < |a|
    ensures RepeatsAt(a + b, k + l, seen, p, r, j) <==> RepeatsAt(a, k, seen, p, r, j)
  {
    assert (k + l)[..j] == k[..j];
  }

  lemma SecondPart(a: seq<(string, string)>, b: seq<(string, string)>, k: seq<string>, l: seq<string>,
                   seen: set<string>, p: string, r: string, j: nat)
    requires |a| == |k| && |b| == |l| && j < |b|
    ensures RepeatsAt(a + b, k + l, seen, p, r, |a| + j) <==> RepeatsAt(b, l, seen + Elements(k), p, r, j)
  {
    assert (k + l)[..|k| + j] == k + l[..j];
  }

  lemma RepeatsInParts(a: seq<(string, string)>, b: seq<(string, string)>, k: seq<string>, l: seq<string>,
                       seen: set<string>, p: string, r: string)
    requires |a| == |k| && |b| == |l|
    ensures Repeats(a + b, k + l, seen, p, r) <==>
              Repeats(a, k, seen, p, r) || Repeats(b, l, seen + Elements(k), p, r)
  {
    if Repeats(a + b, k + l, seen, p, r) {
      var j :| 0 <= j < |a + b| && RepeatsAt(a + b, k + l, seen, p, r, j);
      if j < |a| {
        FirstPart(a, b, k, l, seen, p, r, j);
      } else {
        SecondPart(a, b, k, l, seen, p, r, j - |a|);
      }
    }
    if Repeats(a, k, seen, p, r) {
      var j :| 0 <= j < |a| && RepeatsAt(a, k, seen, p, r, j);
      FirstPart(a, b, k, l, seen, p, r, j);
    }
    if Repeats(b, l, seen + Elements(k), p, r) {
      var j :| 0 <= j < |b| && RepeatsAt(b, l, seen + Elements(k), p, r, j);
      SecondPart(a, b, k, l, seen, p, r, j);
    }
  }

  lemma RepeatsOne(pair: (string, string), key: string, seen: set<string>, p: string, r: string)
    ensures Repeats([pair], [key], seen, p, r) <==> pair == (p, r) && key in seen
  {
    assert [key][..0] == [];
    assert RepeatsAt([pair], [key], seen, p, r, 0) <==> pair == (p, r) && key in seen;
  }

  lemma {:induction false} RuleDuplicates(path: string, rules: seq<Text>, seen: set<string>, p: string, r: string)
    ensures |RulePairs(path, rules)| == |RuleKeys(path, rules)|
    ensures Duplicate(p, r) in RuleErrors(path, rules, seen) <==>
              Repeats(RulePairs(path, rules), RuleKeys(path, rules), seen, p, r)
  {
    if rules != [] {
      var n := |rules| - 1;
      var now := seen + Elements(RuleKeys(path, rules[..n]));
      RuleDuplicates(path, rules[..n], seen, p, r);
      InThree(RuleErrors(path, rules[..n], seen), SupportErrors(path, rules[n]),
              DuplicateErrors(path, rules[n], now), Duplicate(p, r));
      RepeatsInParts(RulePairs(path, rules[..n]), [(path, Shown(rules[n]))],
                     RuleKeys(path, rules[..n]), [Key(path, Shown(rules[n]))], seen, p, r);
      RepeatsOne((path, Shown(rules[n])), Key(path, Shown(rules[n])), now, p, r);
    }
  }

  lemma EntryDuplicates(e: Entry, scanned: set<string>, seen: set<string>, p: string, r: string)
    ensures Duplicate(p, r) in EntryErrors(e, scanned, seen) <==> Duplicate(p, r) in RuleErrors(e.path, e.rules, seen)
  {
    MetadataErrorsHave(e, [], Duplicate(p, r));
    InThree(PathErrors(e, scanned), NoRuleErrors(e), RuleErrors(e.path, e.rules, seen), Duplicate(p, r));
  }

  lemma {:induction false} EntriesDuplicates(es: seq<Entry>, scanned: set<string>, seen: set<string>, p: string,
                                             r: string)
    ensures |Pairs(es)| == |Keys(es)|
    ensures Duplicate(p, r) in EntriesErrors(es, scanned, seen) <==> Repeats(Pairs(es), Keys(es), seen, p, r)
  {
    if es != [] {
      var init, e := es[..|es| - 1], es[|es| - 1];
      EntriesDuplicates(init, scanned, seen, p, r);
      EntryDuplicates(e, scanned, seen + Elements(Keys(init)), p, r);
      RuleDuplicates(e.path, e.rules, seen + Elements(Keys(init)), p, r);
      RepeatsInParts(Pairs(init), RulePairs(e.path, e.rules), Keys(init), RuleKeys(e.path, e.rules), seen, p, r);
    }
  }

  lemma {:induction false} PairsConcat(a: seq<Entry>, b: seq<Entry>)
    ensures Pairs(a + b) == Pairs(a) + Pairs(b)
  {
    if b == [] {
      assert a + b == a;
    } else {
      var init, last := b[..|b| - 1], b[|b| - 1];
      PairsConcat(a, init);
      assert (a + b)[..|a + b| - 1] == a + init && (a + b)[|a + b| - 1] == last;
      Regroup3(Pairs(a), Pairs(init), RulePairs(last.path, last.rules));
    }
  }

  // A repeated key is reported with the path and the rule that repeat it.
  lemma {:induction false} AllDuplicates(raws: seq<RawEntry>, scanned: set<string>, p: string, r: string)
    ensures |Pairs(AllExpanded(raws))| == |Keys(AllExpanded(raws))|
    ensures Duplicate(p, r) in AllErrors(raws, scanned) <==>
              Repeats(Pairs(AllExpanded(raws)), Keys(AllExpanded(raws)), {}, p, r)
  {
    if raws != [] {
      var init, last := raws[..|raws| - 1], raws[|raws| - 1];
      var es, more := AllExpanded(init), Expanded(last);
      AllDuplicates(init, scanned, p, r);
      EntriesDuplicates(more, scanned, Elements(Keys(es)), p, r);
      InThree(AllErrors(init, scanned), ExpandErrors(last),
              EntriesErrors(more, scanned, Elements(Keys(es))), Duplicate(p, r));
      PairsConcat(es, more);
      KeysConcat(es, more);
      RepeatsInParts(Pairs(es), Pairs(more), Keys(es), Keys(more), {}, p, r);
      assert {} + Elements(Keys(es)) == Elements(Keys(es));
    }
  }

  // --- the failures of a run -----------------------------------------------------------

  lemma {:induction false} StaleRulesHave(path: string, rules: seq<Text>, current: set<string>, f: Failure)
    ensures f in StaleRules(path, rules, current) <==>
              && f.NoLongerFound? && f.path == path && Key(path, f.rule) !in current
              && exists t :: t in rules && Shown(t) == f.rule
  {
    if rules != [] {
      var n := |rules| - 1;
      assert rules == rules[..n] + [rules[n]];
      StaleRulesHave(path, rules[..n], current, f);
    }
  }

  lemma {:induction false} StaleHas(es: seq<Entry>, current: set<string>, f: Failure)
    ensures f in Stale(es, current) <==>
              && f.NoLongerFound? && Key(f.path, f.rule) !in current
              && exists e :: e in es && EntryLists(e, f.path, f.rule)
  {
    if es != [] {
      var n := |es| - 1;
      assert es == es[..n] + [es[n]];
      StaleHas(es[..n], current, f);
      StaleRulesHave(es[n].path, es[n].rules, current, f);
      assert f in StaleRules(es[n].path, es[n].rules, current) <==>
             f.NoLongerFound? && Key(f.path, f.rule) !in current && EntryLists(es[n], f.path, f.rule);
    }
  }

  lemma {:induction false} ReportsHave(findings: seq<Finding>, f: Failure)
    ensures f in Reports(findings) <==> f.Reported? && f.finding in findings
  {
    if findings != [] {
      var n := |findings| - 1;
      assert findings == findings[..n] + [findings[n]];
      ReportsHave(findings[..n], f);
    }
  }

  lemma SelectHas<T(!new)>(s: seq<T>, p: T -> bool, x: T)
    ensures x in Select(s, p) <==> x in s && p(x)
  {
    SelectCounts(s, p, x);
    assert x in Select(s, p) <==> multiset(Select(s, p))[x] > 0;
    assert x in s <==> multiset(s)[x] > 0;
  }

  lemma FailuresHave(payload: Payload, files: seq<string>, findings: seq<Finding>, f: Failure)
    ensures var es := AcceptedEntries(payload);
            f in Failures(payload, files, findings) <==>
              || f in ValidationErrors(payload, Elements(files))
              || f in Stale(es, FindingKeys(findings))
              || f in Reports(Select(findings, IsActive(Elements(Keys(es)))))
  {
    var es := AcceptedEntries(payload);
    InThree(ValidationErrors(payload, Elements(files)), Stale(es, FindingKeys(findings)),
            Reports(Select(findings, IsActive(Elements(Keys(es))))), f);
  }

  lemma NoOtherErrors(payload: Payload, files: seq<string>, f: Failure)
    requires f.NoLongerFound? || f.Reported?
    ensures f !in ValidationErrors(payload, Elements(files))
  {
    if SchemaOk(payload) {
      AllErrorsHave(payload.entries.value, files, f);
    }
  }

  // A run reports a listed rule as no longer found exactly when its path is
  // safe and no finding has its key.
  lemma StaleReported(payload: Payload, files: seq<string>, findings: seq<Finding>, p: string, r: string)
    requires SchemaOk(payload)
    ensures NoLongerFound(p, r) in Failures(payload, files, findings) <==>
              && IsSafeRelativePath(p)
              && (exists e :: e in AllExpanded(payload.entries.value) && EntryLists(e, p, r))
              && forall g :: g in findings ==> Key(g.path, g.rule) != Key(p, r)
  {
    var es, current := AcceptedEntries(payload), FindingKeys(findings);
    FailuresHave(payload, files, findings, NoLongerFound(p, r));
    NoOtherErrors(payload, files, NoLongerFound(p, r));
    ReportsHave(Select(findings, IsActive(Elements(Keys(es)))), NoLongerFound(p, r));
    StaleHas(es, current, NoLongerFound(p, r));
    ListedSafely(AllExpanded(payload.entries.value), p, r);
    KeyFound(findings, Key(p, r));
  }

  lemma KeyFound(findings: seq<Finding>, key: string)
    ensures key !in FindingKeys(findings) <==> forall g :: g in findings ==> Key(g.path, g.rule) != key
  {}

  // And a finding exactly when it is not of one of the three rules, or no
  // accepted entry has its key.
  lemma FindingReported(payload: Payload, files: seq<string>, findings: seq<Finding>, g: Finding)
    ensures Reported(g) in Failures(payload, files, findings) <==>
              && g in findings
              && !(IsSourceRule(Str(g.rule)) && Key(g.path, g.rule) in Keys(AcceptedEntries(payload)))
  {
    var es := AcceptedEntries(payload);
    FailuresHave(payload, files, findings, Reported(g));
    NoOtherErrors(payload, files, Reported(g));
    ReportsHave(Select(findings, IsActive(Elements(Keys(es)))), Reported(g));
    StaleHas(es, FindingKeys(findings), Reported(g));
    SelectHas(findings, IsActive(Elements(Keys(es))), g);
  }

  lemma ListedSafely(es: seq<Entry>, p: string, r: string)
    ensures (exists e :: e in Select(es, HasSafePath) && EntryLists(e, p, r)) <==>
              IsSafeRelativePath(p) && exists e :: e in es && EntryLists(e, p, r)
  {
    forall e ensures e in Select(es, HasSafePath) <==> e in es && HasSafePath(e) {
      SelectHas(es, HasSafePath, e);
    }
  }
}
