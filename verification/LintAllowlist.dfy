// The lint run's allowlist: exceptions to readability findings, each of which
// must match a finding of the run. A run passes when exceptions and findings
// are the same set.
module LintAllowlist {
  import opened PathSegments
  import opened Selections
  import opened Sequences
  import opened Wrappers

  const ALLOWLISTABLE_RULES: set<string> := {
    "readability:bundled-source", "readability:generated-source", "readability:minified-source"
  }
  // The rules a file scan can report.
  const SCAN_RULES: set<string> := ALLOWLISTABLE_RULES + {"lint:trailing-whitespace", "lint:tab-character"}

  datatype Finding = Finding(path: string, line: nat, rule: string, message: string)

  // A JSON value where a string belongs. Of a value that is no string, or is
  // missing, only the text a template makes of it is kept.
  datatype Text = Str(s: string) | Other(shown: string)

  function Shown(t: Text): string {
    match t
    case Str(s) => s
    case Other(shown) => shown
  }

  // None where the JSON value is not an array.
  datatype RawEntry = RawEntry(path: Text, paths: Option<seq<Text>>, rules: Option<seq<Text>>,
                               owner: Text, reason: Text, followUp: Text)
  datatype Payload = Payload(versionIsOne: bool, entries: Option<seq<RawEntry>>)

  datatype Label = Owner | Reason | FollowUp

  // What a failed run reports; the wording of the messages is not modelled.
  datatype Failure =
    | InvalidSchema
    | NoPaths
    | UnsafePath
    | NotScanned(path: string)
    | NoRules(path: string)
    | UnsupportedRule(path: string, rule: string)
    | Duplicate(path: string, rule: string)
    | MissingText(path: string, name: Label)
    | NoLongerFound(path: string, rule: string)
    | Reported(finding: Finding)

  // An entry for one path.
  datatype Entry = Entry(path: string, rules: seq<Text>, owner: Text, reason: Text, followUp: Text)

  // --- paths, keys and texts ------------------------------------------------------

  function NormalizePath(p: string): string {
    if "./" <= p then p[2..] else p
  }

  predicate IsSafeRelativePath(p: string) {
    p != "" && p[0] != '/' && ".." !in Segments(NormalizePath(p))
  }

  function Key(path: string, rule: string): string {
    path + "|" + rule
  }

  predicate IsAllowlistable(rule: Text) {
    rule.Str? && rule.s in ALLOWLISTABLE_RULES
  }

  predicate IsSpace(c: char) {
    || c == ' ' || '\t' <= c <= '\r' || c == '\U{A0}' || c == '\U{1680}' || '\U{2000}' <= c <= '\U{200A}'
    || c == '\U{2028}' || c == '\U{2029}' || c == '\U{202F}' || c == '\U{205F}' || c == '\U{3000}'
    || c == '\U{FEFF}'
  }

  function Trim(s: string): string {
    if s != "" && IsSpace(s[0]) then Trim(s[1..])
    else if s != "" && IsSpace(s[|s| - 1]) then Trim(s[..|s| - 1])
    else s
  }

  function Lower(s: string): string {
    if s == "" then ""
    else [if 'A' <= s[0] <= 'Z' then (s[0] as int + 32) as char else s[0]] + Lower(s[1..])
  }

  predicate IsPlaceholder(s: string) {
    Lower(s) in {"tbd", "todo", "n/a", "none", "unknown"}
  }

  predicate IsInformative(t: Text) {
    t.Str? && Trim(t.s) != "" && !IsPlaceholder(Trim(t.s))
  }

  // --- what each check adds to the errors -------------------------------------------

  function PathsOf(raw: RawEntry): seq<Text> {
    if raw.paths.Some? then raw.paths.value else [raw.path]
  }

  predicate NamesPaths(raw: RawEntry) {
    PathsOf(raw) != [] && forall t :: t in PathsOf(raw) ==> t.Str?
  }

  function CleanEntry(raw: RawEntry, path: Text): Entry
    requires path.Str?
  {
    Entry(NormalizePath(path.s), if raw.rules.Some? then raw.rules.value else [],
          raw.owner, raw.reason, raw.followUp)
  }

  function CleanEntries(raw: RawEntry, paths: seq<Text>): (entries: seq<Entry>)
    requires forall t :: t in paths ==> t.Str?
    ensures |entries| == |paths|
  {
    if paths == [] then []
    else CleanEntries(raw, paths[..|paths| - 1]) + [CleanEntry(raw, paths[|paths| - 1])]
  }

  function Expanded(raw: RawEntry): seq<Entry> {
    if NamesPaths(raw) then CleanEntries(raw, PathsOf(raw)) else []
  }

  function ExpandErrors(raw: RawEntry): seq<Failure> {
    if NamesPaths(raw) then [] else [NoPaths]
  }

  function PathErrors(e: Entry, scanned: set<string>): seq<Failure> {
    if !IsSafeRelativePath(e.path) then [UnsafePath]
    else if e.path !in scanned then [NotScanned(e.path)]
    else []
  }

  function NoRuleErrors(e: Entry): seq<Failure> {
    if e.rules == [] then [NoRules(e.path)] else []
  }

  function SupportErrors(path: string, rule: Text): seq<Failure> {
    if IsAllowlistable(rule) then [] else [UnsupportedRule(path, Shown(rule))]
  }

  function DuplicateErrors(path: string, rule: Text, seen: set<string>): seq<Failure> {
    if Key(path, Shown(rule)) in seen then [Duplicate(path, Shown(rule))] else []
  }

  function RuleErrors(path: string, rules: seq<Text>, seen: set<string>): seq<Failure> {
    if rules == [] then []
    else
      var init, rule := rules[..|rules| - 1], rules[|rules| - 1];
      RuleErrors(path, init, seen) + SupportErrors(path, rule)
      + DuplicateErrors(path, rule, seen + Elements(RuleKeys(path, init)))
  }

  function TextErrors(value: Text, name: Label, path: string): seq<Failure> {
    if IsInformative(value) then [] else [MissingText(path, name)]
  }

  function EntryErrors(e: Entry, scanned: set<string>, seen: set<string>): seq<Failure> {
    PathErrors(e, scanned) + NoRuleErrors(e) + RuleErrors(e.path, e.rules, seen) + MetadataErrors(e)
  }

  function MetadataErrors(e: Entry): seq<Failure> {
    TextErrors(e.owner, Owner, e.path) + TextErrors(e.reason, Reason, e.path)
    + TextErrors(e.followUp, FollowUp, e.path)
  }

  function EntriesErrors(es: seq<Entry>, scanned: set<string>, seen: set<string>): seq<Failure> {
    if es == [] then []
    else
      var init := es[..|es| - 1];
      EntriesErrors(init, scanned, seen)
      + EntryErrors(es[|es| - 1], scanned, seen + Elements(Keys(init)))
  }

  // --- keys of entries ----------------------------------------------------------------

  function Elements<T(==)>(s: seq<T>): set<T> {
    set x | x in s
  }

  function RuleKeys(path: string, rules: seq<Text>): seq<string> {
    if rules == [] then []
    else RuleKeys(path, rules[..|rules| - 1]) + [Key(path, Shown(rules[|rules| - 1]))]
  }

  function Keys(es: seq<Entry>): seq<string> {
    if es == [] then []
    else Keys(es[..|es| - 1]) + RuleKeys(es[|es| - 1].path, es[|es| - 1].rules)
  }

  function AllExpanded(raws: seq<RawEntry>): seq<Entry> {
    if raws == [] then [] else AllExpanded(raws[..|raws| - 1]) + Expanded(raws[|raws| - 1])
  }

  function AllErrors(raws: seq<RawEntry>, scanned: set<string>): seq<Failure> {
    if raws == [] then []
    else
      var init, last := raws[..|raws| - 1], raws[|raws| - 1];
      AllErrors(init, scanned) + ExpandErrors(last)
      + EntriesErrors(Expanded(last), scanned, Elements(Keys(AllExpanded(init))))
  }

  predicate HasSafePath(e: Entry) {
    IsSafeRelativePath(e.path)
  }

  predicate SchemaOk(payload: Payload) {
    payload.versionIsOne && payload.entries.Some?
  }

  function AcceptedEntries(payload: Payload): seq<Entry> {
    if SchemaOk(payload) then Select(AllExpanded(payload.entries.value), HasSafePath) else []
  }

  function ValidationErrors(payload: Payload, scanned: set<string>): seq<Failure> {
    if SchemaOk(payload) then AllErrors(payload.entries.value, scanned) else [InvalidSchema]
  }

  // --- validation ------------------------------------------------------------------------

  lemma {:induction false} KeysConcat(a: seq<Entry>, b: seq<Entry>)
    ensures Keys(a + b) == Keys(a) + Keys(b)
  {
    if b == [] {
      assert a + b == a;
    } else {
      var init, last := b[..|b| - 1], b[|b| - 1];
      KeysConcat(a, init);
      assert (a + b)[..|a + b| - 1] == a + init && (a + b)[|a + b| - 1] == last;
      Regroup3(Keys(a), Keys(init), RuleKeys(last.path, last.rules));
    }
  }

  lemma JoinSets<T>(a: set<T>, b: seq<T>, c: seq<T>)
    ensures a + Elements(b) + Elements(c) == a + Elements(b + c)
  {
  }

  // The lists and the set that one validation fills.
  class Validation {
    const scanned: set<string>
    var errors: seq<Failure>
    var seen: set<string>
    var entries: seq<Entry>

    constructor (scanned: set<string>)
      ensures this.scanned == scanned && errors == [] && seen == {} && entries == []
    {
      this.scanned := scanned;
      errors, seen, entries := [], {}, [];
    }

    method ExpandAllowlistEntry(raw: RawEntry) returns (clean: seq<Entry>)
      modifies this`errors
      ensures clean == Expanded(raw)
      ensures errors == old(errors) + ExpandErrors(raw)
    {
      var paths := if raw.paths.Some? then raw.paths.value else [raw.path];
      if paths == [] || exists t | t in paths :: !t.Str? {
        errors := errors + [NoPaths];
        return [];
      }
      clean := [];
      for k := 0 to |paths|
        invariant clean == CleanEntries(raw, paths[..k])
      {
        assert paths[..k + 1][..k] == paths[..k];
        clean := clean + [CleanEntry(raw, paths[k])];
      }
      assert paths[..|paths|] == paths;
    }

    method ValidateString(value: Text, name: Label, path: string)
      modifies this`errors
      ensures errors == old(errors) + TextErrors(value, name, path)
    {
      if !value.Str? || Trim(value.s) == "" || IsPlaceholder(Trim(value.s)) {
        errors := errors + [MissingText(path, name)];
      }
    }

    method ValidateRule(path: string, rule: Text)
      modifies this`errors, this`seen
      ensures errors == old(errors) + SupportErrors(path, rule) + DuplicateErrors(path, rule, old(seen))
      ensures seen == old(seen) + {Key(path, Shown(rule))}
    {
      if !IsAllowlistable(rule) {
        errors := errors + [UnsupportedRule(path, Shown(rule))];
      }
      var key := Key(path, Shown(rule));
      if key in seen {
        errors := errors + [Duplicate(path, Shown(rule))];
      }
      seen := seen + {key};
    }

    method ValidateMetadata(e: Entry)
      modifies this`errors
      ensures errors == old(errors) + MetadataErrors(e)
    {
      ghost var was := errors;
      ValidateString(e.owner, Owner, e.path);
      ValidateString(e.reason, Reason, e.path);
      Regroup3(was, TextErrors(e.owner, Owner, e.path), TextErrors(e.reason, Reason, e.path));
      ValidateString(e.followUp, FollowUp, e.path);
      Regroup3(was, TextErrors(e.owner, Owner, e.path) + TextErrors(e.reason, Reason, e.path),
               TextErrors(e.followUp, FollowUp, e.path));
    }

    method ValidateRules(path: string, rules: seq<Text>)
      modifies this`errors, this`seen
      ensures errors == old(errors) + RuleErrors(path, rules, old(seen))
      ensures seen == old(seen) + Elements(RuleKeys(path, rules))
    {
      for k := 0 to |rules|
        invariant errors == old(errors) + RuleErrors(path, rules[..k], old(seen))
        invariant seen == old(seen) + Elements(RuleKeys(path, rules[..k]))
      {
        NextRule(old(errors), path, rules, k, old(seen));
        ValidateRule(path, rules[k]);
      }
      assert rules[..|rules|] == rules;
    }

    method ValidateAllowlistEntry(e: Entry)
      modifies this`errors, this`seen
      ensures errors == old(errors) + EntryErrors(e, scanned, old(seen))
      ensures seen == old(seen) + Elements(RuleKeys(e.path, e.rules))
    {
      ghost var was, before := errors, seen;
      if !IsSafeRelativePath(e.path) {
        errors := errors + [UnsafePath];
      } else if e.path !in scanned {
        errors := errors + [NotScanned(e.path)];
      }
      assert errors == was + PathErrors(e, scanned);
      if e.rules == [] {
        errors := errors + [NoRules(e.path)];
      }
      assert errors == was + PathErrors(e, scanned) + NoRuleErrors(e);
      ValidateRules(e.path, e.rules);
      ValidateMetadata(e);
      InOrder(was, PathErrors(e, scanned), NoRuleErrors(e), RuleErrors(e.path, e.rules, before), MetadataErrors(e));
    }

    method ValidateExpanded(clean: seq<Entry>)
      modifies this
      ensures errors == old(errors) + EntriesErrors(clean, scanned, old(seen))
      ensures seen == old(seen) + Elements(Keys(clean))
      ensures entries == old(entries) + Select(clean, HasSafePath)
    {
      for k := 0 to |clean|
        invariant errors == old(errors) + EntriesErrors(clean[..k], scanned, old(seen))
        invariant seen == old(seen) + Elements(Keys(clean[..k]))
        invariant entries == old(entries) + Select(clean[..k], HasSafePath)
      {
        NextEntry(old(errors), clean, k, scanned, old(seen));
        NextSelected(old(entries), clean, k);
        ValidateAllowlistEntry(clean[k]);
        if IsSafeRelativePath(clean[k].path) {
          entries := entries + [clean[k]];
        }
      }
      assert clean[..|clean|] == clean;
    }
  }

  lemma InOrder<T>(was: seq<T>, a: seq<T>, b: seq<T>, c: seq<T>, d: seq<T>)
    ensures was + a + b + c + d == was + (a + b + c + d)
  {
    Regroup3(was, a, b);
    Regroup3(was, a + b, c);
    Regroup3(was, a + b + c, d);
  }

  lemma NextRule(was: seq<Failure>, path: string, rules: seq<Text>, k: nat, seen: set<string>)
    requires k < |rules|
    ensures var now := seen + Elements(RuleKeys(path, rules[..k]));
            && was + RuleErrors(path, rules[..k + 1], seen)
               == was + RuleErrors(path, rules[..k], seen) + SupportErrors(path, rules[k])
                  + DuplicateErrors(path, rules[k], now)
            && seen + Elements(RuleKeys(path, rules[..k + 1])) == now + {Key(path, Shown(rules[k]))}
  {
    assert rules[..k + 1][..k] == rules[..k];
    var now := seen + Elements(RuleKeys(path, rules[..k]));
    var a, b := RuleErrors(path, rules[..k], seen), SupportErrors(path, rules[k]);
    Regroup3(was, a, b);
    Regroup3(was, a + b, DuplicateErrors(path, rules[k], now));
  }

  lemma NextEntry(was: seq<Failure>, clean: seq<Entry>, k: nat, scanned: set<string>, seen: set<string>)
    requires k < |clean|
    ensures var now := seen + Elements(Keys(clean[..k]));
            && was + EntriesErrors(clean[..k + 1], scanned, seen)
               == was + EntriesErrors(clean[..k], scanned, seen) + EntryErrors(clean[k], scanned, now)
            && seen + Elements(Keys(clean[..k + 1])) == now + Elements(RuleKeys(clean[k].path, clean[k].rules))
  {
    assert clean[..k + 1][..k] == clean[..k];
    var now := seen + Elements(Keys(clean[..k]));
    Regroup3(was, EntriesErrors(clean[..k], scanned, seen), EntryErrors(clean[k], scanned, now));
    JoinSets(seen, Keys(clean[..k]), RuleKeys(clean[k].path, clean[k].rules));
  }

  lemma NextSelected(was: seq<Entry>, clean: seq<Entry>, k: nat)
    requires k < |clean|
    ensures was + Select(clean[..k + 1], HasSafePath)
            == was + Select(clean[..k], HasSafePath) + if HasSafePath(clean[k]) then [clean[k]] else []
  {
    assert clean[..k + 1][..k] == clean[..k];
    Regroup3(was, Select(clean[..k], HasSafePath), if HasSafePath(clean[k]) then [clean[k]] else []);
  }

  method ValidateAllowlist(payload: Payload, scannedFiles: seq<string>)
    returns (entries: seq<Entry>, errors: seq<Failure>)
    ensures entries == AcceptedEntries(payload)
    ensures errors == ValidationErrors(payload, Elements(scannedFiles))
  {
    if !payload.versionIsOne || payload.entries.None? {
      return [], [InvalidSchema];
    }
    var raws := payload.entries.value;
    var state := new Validation(Elements(scannedFiles));
    for k := 0 to |raws|
      invariant fresh(state) && state.scanned == Elements(scannedFiles)
      invariant state.errors == AllErrors(raws[..k], state.scanned)
      invariant state.seen == Elements(Keys(AllExpanded(raws[..k])))
      invariant state.entries == Select(AllExpanded(raws[..k]), HasSafePath)
    {
      NextRaw(raws, k);
      var clean := state.ExpandAllowlistEntry(raws[k]);
      state.ValidateExpanded(clean);
    }
    assert raws[..|raws|] == raws;
    entries, errors := state.entries, state.errors;
  }

  lemma NextRaw(raws: seq<RawEntry>, k: nat)
    requires k < |raws|
    ensures raws[..k + 1][..k] == raws[..k]
    ensures Elements(Keys(AllExpanded(raws[..k + 1])))
            == Elements(Keys(AllExpanded(raws[..k]))) + Elements(Keys(Expanded(raws[k])))
    ensures Select(AllExpanded(raws[..k + 1]), HasSafePath)
            == Select(AllExpanded(raws[..k]), HasSafePath) + Select(Expanded(raws[k]), HasSafePath)
  {
    assert raws[..k + 1][..k] == raws[..k];
    KeysConcat(AllExpanded(raws[..k]), Expanded(raws[k]));
    SelectConcat(AllExpanded(raws[..k]), Expanded(raws[k]), HasSafePath);
  }

  // --- applying the allowlist -------------------------------------------------------

  method AllowlistKeys(entries: seq<Entry>) returns (keys: set<string>)
    ensures keys == Elements(Keys(entries))
  {
    keys := {};
    for i := 0 to |entries|
      invariant keys == Elements(Keys(entries[..i]))
    {
      assert entries[..i + 1][..i] == entries[..i];
      var e := entries[i];
      for j := 0 to |e.rules|
        invariant keys == Elements(Keys(entries[..i])) + Elements(RuleKeys(e.path, e.rules[..j]))
      {
        assert e.rules[..j + 1][..j] == e.rules[..j];
        keys := keys + {Key(e.path, Shown(e.rules[j]))};
      }
      assert e.rules[..|e.rules|] == e.rules;
    }
    assert entries[..|entries|] == entries;
  }

  predicate Excepted(f: Finding, keys: set<string>) {
    f.rule in ALLOWLISTABLE_RULES && Key(f.path, f.rule) in keys
  }

  function IsSuppressed(keys: set<string>): Finding -> bool {
    (f: Finding) => Excepted(f, keys)
  }

  function IsActive(keys: set<string>): Finding -> bool {
    (f: Finding) => !Excepted(f, keys)
  }

  method ApplyAllowlist(findings: seq<Finding>, entries: seq<Entry>)
    returns (active: seq<Finding>, suppressed: seq<Finding>)
    ensures active == Select(findings, IsActive(Elements(Keys(entries))))
    ensures suppressed == Select(findings, IsSuppressed(Elements(Keys(entries))))
    ensures multiset(active) + multiset(suppressed) == multiset(findings)
  {
    var keys := AllowlistKeys(entries);
    active, suppressed := [], [];
    for k := 0 to |findings|
      invariant active == Select(findings[..k], IsActive(keys))
      invariant suppressed == Select(findings[..k], IsSuppressed(keys))
    {
      assert findings[..k + 1][..k] == findings[..k];
      var f := findings[k];
      if f.rule in ALLOWLISTABLE_RULES && Key(f.path, f.rule) in keys {
        suppressed := suppressed + [f];
      } else {
        active := active + [f];
      }
    }
    assert findings[..|findings|] == findings;
    SelectionsPartition(findings, keys);
  }

  lemma {:induction false} SelectionsPartition(findings: seq<Finding>, keys: set<string>)
    ensures multiset(Select(findings, IsActive(keys))) + multiset(Select(findings, IsSuppressed(keys)))
            == multiset(findings)
  {
    if findings != [] {
      var init, f := findings[..|findings| - 1], findings[|findings| - 1];
      SelectionsPartition(init, keys);
      assert findings == init + [f];
    }
  }

  function FindingKeys(findings: seq<Finding>): set<string> {
    set f | f in findings :: Key(f.path, f.rule)
  }

  function StaleRules(path: string, rules: seq<Text>, current: set<string>): seq<Failure> {
    if rules == [] then []
    else
      var rule := rules[|rules| - 1];
      StaleRules(path, rules[..|rules| - 1], current)
      + if Key(path, Shown(rule)) in current then [] else [NoLongerFound(path, Shown(rule))]
  }

  function Stale(entries: seq<Entry>, current: set<string>): seq<Failure> {
    if entries == [] then []
    else
      var e := entries[|entries| - 1];
      Stale(entries[..|entries| - 1], current) + StaleRules(e.path, e.rules, current)
  }

  method StaleAllowlistFindings(entries: seq<Entry>, findings: seq<Finding>) returns (stale: seq<Failure>)
    ensures stale == Stale(entries, FindingKeys(findings))
  {
    var current := FindingKeys(findings);
    stale := [];
    for i := 0 to |entries|
      invariant stale == Stale(entries[..i], current)
    {
      assert entries[..i + 1][..i] == entries[..i];
      var e := entries[i];
      for j := 0 to |e.rules|
        invariant stale == Stale(entries[..i], current) + StaleRules(e.path, e.rules[..j], current)
      {
        assert e.rules[..j + 1][..j] == e.rules[..j];
        if Key(e.path, Shown(e.rules[j])) !in current {
          stale := stale + [NoLongerFound(e.path, Shown(e.rules[j]))];
        }
      }
      assert e.rules[..|e.rules|] == e.rules;
    }
    assert entries[..|entries|] == entries;
  }

  function Reports(findings: seq<Finding>): seq<Failure> {
    if findings == [] then []
    else Reports(findings[..|findings| - 1]) + [Reported(findings[|findings| - 1])]
  }

  // The failures of a run, before they are put in order.
  function Failures(payload: Payload, files: seq<string>, findings: seq<Finding>): seq<Failure> {
    var entries := AcceptedEntries(payload);
    ValidationErrors(payload, Elements(files))
    + Stale(entries, FindingKeys(findings))
    + Reports(Select(findings, IsActive(Elements(Keys(entries)))))
  }

  method RunLint(payload: Payload, files: seq<string>, scanFindings: seq<Finding>)
    returns (failures: seq<Failure>, suppressedCount: nat)
    ensures failures == Failures(payload, files, scanFindings)
    ensures suppressedCount == |Select(scanFindings, IsSuppressed(Elements(Keys(AcceptedEntries(payload)))))|
  {
    var entries, errors := ValidateAllowlist(payload, files);
    var stale := StaleAllowlistFindings(entries, scanFindings);
    var active, suppressed := ApplyAllowlist(scanFindings, entries);
    failures := errors + stale + Reports(active);
    suppressedCount := |suppressed|;
  }

  // --- when a run passes ---------------------------------------------------------------

  // Without a bar in the rules, a key is a pair.
  lemma KeyIsPair(p: string, r: string, q: string, t: string)
    requires '|' !in r && '|' !in t
    ensures Key(p, r) == Key(q, t) <==> p == q && r == t
  {
    if Key(p, r) == Key(q, t) {
      LastBar(p, r);
      LastBar(q, t);
      assert |p| == |q|;
      assert Key(p, r)[..|p|] == p && Key(q, t)[..|p|] == q;
      assert Key(p, r)[|p| + 1..] == r && Key(q, t)[|p| + 1..] == t;
    }
  }

  lemma LastBar(p: string, r: string)
    requires '|' !in r
    ensures Key(p, r)[|p|] == '|'
    ensures forall i :: |p| < i < |Key(p, r)| ==> Key(p, r)[i] != '|'
  {
    forall i | |p| < i < |Key(p, r)| ensures Key(p, r)[i] != '|' {
      assert Key(p, r)[i] == r[i - |p| - 1];
    }
  }

  // With one it is not.
  lemma KeysCollide(p: string, q: string, r: string)
    ensures Key(p + "|" + q, r) == Key(p, q + "|" + r)
    ensures p + "|" + q != p
  {
    assert Key(p + "|" + q, r) == Key(p, q + "|" + r);
    assert |p + "|" + q| > |p|;
  }

  function RulePairs(path: string, rules: seq<Text>): seq<(string, string)> {
    if rules == [] then [] else RulePairs(path, rules[..|rules| - 1]) + [(path, Shown(rules[|rules| - 1]))]
  }

  // What the entries list: a path and a rule at a time.
  function Pairs(es: seq<Entry>): seq<(string, string)> {
    if es == [] then []
    else Pairs(es[..|es| - 1]) + RulePairs(es[|es| - 1].path, es[|es| - 1].rules)
  }

  function FoundPairs(findings: seq<Finding>): set<(string, string)> {
    set f | f in findings :: (f.path, f.rule)
  }

  predicate IsWellFormed(e: Entry, files: seq<string>) {
    && IsSafeRelativePath(e.path) && e.path in files
    && e.rules != [] && (forall r :: r in e.rules ==> IsAllowlistable(r))
    && IsInformative(e.owner) && IsInformative(e.reason) && IsInformative(e.followUp)
  }

  // Keys that come up once, and not among those seen before.
  predicate Fresh(keys: seq<string>, seen: set<string>) {
    keys == [] ||
    var init := keys[..|keys| - 1];
    Fresh(init, seen) && keys[|keys| - 1] !in seen + Elements(init)
  }

  lemma {:induction false} FreshConcat(a: seq<string>, b: seq<string>, seen: set<string>)
    ensures Fresh(a + b, seen) <==> Fresh(a, seen) && Fresh(b, seen + Elements(a))
  {
    if b == [] {
      assert a + b == a;
    } else {
      var init := b[..|b| - 1];
      FreshConcat(a, init, seen);
      assert (a + b)[..|a + b| - 1] == a + init;
      JoinSets(seen, a, init);
    }
  }

  lemma FreshOne(k: string, seen: set<string>)
    ensures Fresh([k], seen) <==> k !in seen
  {
    assert [k][..0] == [];
    assert Fresh([], seen);
  }

  lemma {:induction false} FreshMeansNoRepeat(keys: seq<string>)
    ensures Fresh(keys, {}) <==> NoRepeat(keys)
  {
    if keys != [] {
      var init, last := keys[..|keys| - 1], keys[|keys| - 1];
      FreshMeansNoRepeat(init);
      assert keys == init + [last];
      if last in init {
        var i :| 0 <= i < |init| && init[i] == last;
        assert keys[i] == keys[|init|];
      }
    }
  }

  ghost predicate All<T(!new)>(s: seq<T>, p: T -> bool) {
    forall x :: x in s ==> p(x)
  }

  lemma AllConcat<T(!new)>(a: seq<T>, b: seq<T>, p: T -> bool)
    ensures All(a + b, p) <==> All(a, p) && All(b, p)
  {
    if All(a + b, p) {
      forall x | x in a ensures p(x) {
        assert x in a + b;
      }
      forall x | x in b ensures p(x) {
        assert x in a + b;
      }
    }
  }

  lemma AllOfOneMore<T(!new)>(s: seq<T>, p: T -> bool)
    requires s != []
    ensures All(s, p) <==> All(s[..|s| - 1], p) && p(s[|s| - 1])
  {
    assert s == s[..|s| - 1] + [s[|s| - 1]];
    AllConcat(s[..|s| - 1], [s[|s| - 1]], p);
  }

  function WellFormedIn(files: seq<string>): Entry -> bool {
    (e: Entry) => IsWellFormed(e, files)
  }

  lemma NoneOfThree<T>(a: seq<T>, b: seq<T>, c: seq<T>)
    ensures a + b + c == [] <==> a == [] && b == [] && c == []
  {
    assert |a + b + c| == |a| + |b| + |c|;
  }

  lemma {:induction false} RuleErrorsEmpty(path: string, rules: seq<Text>, seen: set<string>)
    ensures RuleErrors(path, rules, seen) == [] <==>
              All(rules, IsAllowlistable) && Fresh(RuleKeys(path, rules), seen)
  {
    if rules != [] {
      var init, rule := rules[..|rules| - 1], rules[|rules| - 1];
      var now := seen + Elements(RuleKeys(path, init));
      RuleErrorsEmpty(path, init, seen);
      NoneOfThree(RuleErrors(path, init, seen), SupportErrors(path, rule), DuplicateErrors(path, rule, now));
      FreshConcat(RuleKeys(path, init), [Key(path, Shown(rule))], seen);
      FreshOne(Key(path, Shown(rule)), now);
      AllOfOneMore(rules, IsAllowlistable);
    }
  }

  lemma EntryErrorsEmpty(e: Entry, files: seq<string>, seen: set<string>)
    ensures EntryErrors(e, Elements(files), seen) == [] <==>
              IsWellFormed(e, files) && Fresh(RuleKeys(e.path, e.rules), seen)
  {
    RuleErrorsEmpty(e.path, e.rules, seen);
    NoneOfThree(PathErrors(e, Elements(files)), NoRuleErrors(e), RuleErrors(e.path, e.rules, seen));
    NoneOfThree(TextErrors(e.owner, Owner, e.path), TextErrors(e.reason, Reason, e.path),
                TextErrors(e.followUp, FollowUp, e.path));
  }

  lemma EntriesErrorsSplit(es: seq<Entry>, files: seq<string>, seen: set<string>)
    requires es != []
    ensures var init, e := es[..|es| - 1], es[|es| - 1];
            EntriesErrors(es, Elements(files), seen) == [] <==>
              && EntriesErrors(init, Elements(files), seen) == []
              && EntryErrors(e, Elements(files), seen + Elements(Keys(init))) == []
  {
    var init, e := es[..|es| - 1], es[|es| - 1];
    NoneOfThree([], EntriesErrors(init, Elements(files), seen),
                EntryErrors(e, Elements(files), seen + Elements(Keys(init))));
  }

  lemma {:induction false} EntriesErrorsEmpty(es: seq<Entry>, files: seq<string>, seen: set<string>)
    ensures EntriesErrors(es, Elements(files), seen) == [] <==>
              All(es, WellFormedIn(files)) && Fresh(Keys(es), seen)
  {
    if es != [] {
      var init, e := es[..|es| - 1], es[|es| - 1];
      EntriesErrorsEmpty(init, files, seen);
      EntryErrorsEmpty(e, files, seen + Elements(Keys(init)));
      EntriesErrorsSplit(es, files, seen);
      FreshConcat(Keys(init), RuleKeys(e.path, e.rules), seen);
      AllOfOneMore(es, WellFormedIn(files));
    }
  }

  lemma AllErrorsSplit(raws: seq<RawEntry>, files: seq<string>)
    requires raws != []
    ensures var init, last := raws[..|raws| - 1], raws[|raws| - 1];
            AllErrors(raws, Elements(files)) == [] <==>
              && AllErrors(init, Elements(files)) == [] && NamesPaths(last)
              && EntriesErrors(Expanded(last), Elements(files), Elements(Keys(AllExpanded(init)))) == []
  {
    var init, last := raws[..|raws| - 1], raws[|raws| - 1];
    NoneOfThree(AllErrors(init, Elements(files)), ExpandErrors(last),
                EntriesErrors(Expanded(last), Elements(files), Elements(Keys(AllExpanded(init)))));
  }

  lemma FreshKeysSplit(es: seq<Entry>, more: seq<Entry>)
    ensures Fresh(Keys(es + more), {}) <==> Fresh(Keys(es), {}) && Fresh(Keys(more), Elements(Keys(es)))
  {
    KeysConcat(es, more);
    FreshConcat(Keys(es), Keys(more), {});
    assert {} + Elements(Keys(es)) == Elements(Keys(es));
  }

  lemma {:induction false} AllErrorsEmpty(raws: seq<RawEntry>, files: seq<string>)
    ensures AllErrors(raws, Elements(files)) == [] <==>
              && All(raws, NamesPaths)
              && All(AllExpanded(raws), WellFormedIn(files))
              && Fresh(Keys(AllExpanded(raws)), {})
  {
    if raws != [] {
      var init, last := raws[..|raws| - 1], raws[|raws| - 1];
      var es, more := AllExpanded(init), Expanded(last);
      AllErrorsEmpty(init, files);
      AllErrorsSplit(raws, files);
      EntriesErrorsEmpty(more, files, Elements(Keys(es)));
      FreshKeysSplit(es, more);
      AllConcat(es, more, WellFormedIn(files));
      AllOfOneMore(raws, NamesPaths);
    }
  }

  lemma {:induction false} StaleRulesEmpty(path: string, rules: seq<Text>, current: set<string>)
    ensures StaleRules(path, rules, current) == [] <==> forall k :: k in RuleKeys(path, rules) ==> k in current
  {
    if rules != [] {
      StaleRulesEmpty(path, rules[..|rules| - 1], current);
    }
  }

  lemma {:induction false} StaleEmpty(entries: seq<Entry>, current: set<string>)
    ensures Stale(entries, current) == [] <==> forall k :: k in Keys(entries) ==> k in current
  {
    if entries != [] {
      var e := entries[|entries| - 1];
      StaleEmpty(entries[..|entries| - 1], current);
      StaleRulesEmpty(e.path, e.rules, current);
    }
  }

  predicate IsKeyOf(k: string, pair: (string, string)) {
    k == Key(pair.0, pair.1)
  }

  lemma {:induction false} RuleKeysArePairs(path: string, rules: seq<Text>)
    requires forall r :: r in rules ==> IsAllowlistable(r)
    ensures |RuleKeys(path, rules)| == |RulePairs(path, rules)|
    ensures forall i :: 0 <= i < |RulePairs(path, rules)| ==>
              && IsKeyOf(RuleKeys(path, rules)[i], RulePairs(path, rules)[i])
              && RulePairs(path, rules)[i].1 in ALLOWLISTABLE_RULES
  {
    if rules != [] {
      assert rules[|rules| - 1] in rules;
      RuleKeysArePairs(path, rules[..|rules| - 1]);
    }
  }

  ghost predicate RulesAllowlistable(es: seq<Entry>) {
    forall e, r :: e in es && r in e.rules ==> IsAllowlistable(r)
  }

  lemma {:induction false} KeysArePairs(es: seq<Entry>)
    requires RulesAllowlistable(es)
    ensures |Keys(es)| == |Pairs(es)|
    ensures forall i :: 0 <= i < |Pairs(es)| ==>
              IsKeyOf(Keys(es)[i], Pairs(es)[i]) && Pairs(es)[i].1 in ALLOWLISTABLE_RULES
  {
    if es != [] {
      var e := es[|es| - 1];
      assert e in es;
      KeysArePairs(es[..|es| - 1]);
      RuleKeysArePairs(e.path, e.rules);
    }
  }

  lemma ScanRulesHaveNoBar(rule: string)
    requires rule in SCAN_RULES
    ensures '|' !in rule
  {
  }

  // Both lists repeat nothing, or neither.
  lemma SameRepeats(es: seq<Entry>)
    requires RulesAllowlistable(es)
    ensures NoRepeat(Keys(es)) <==> NoRepeat(Pairs(es))
  {
    KeysArePairs(es);
    var keys, pairs := Keys(es), Pairs(es);
    forall i, j | 0 <= i < j < |keys| ensures keys[i] == keys[j] <==> pairs[i] == pairs[j] {
      assert IsKeyOf(keys[i], pairs[i]) && IsKeyOf(keys[j], pairs[j]);
      ScanRulesHaveNoBar(pairs[i].1);
      ScanRulesHaveNoBar(pairs[j].1);
      KeyIsPair(pairs[i].0, pairs[i].1, pairs[j].0, pairs[j].1);
    }
  }

  ghost predicate FromScan(findings: seq<Finding>) {
    forall f :: f in findings ==> f.rule in SCAN_RULES
  }

  // A listed pair is found exactly when its key is.
  lemma PairFound(findings: seq<Finding>, path: string, rule: string)
    requires FromScan(findings) && rule in ALLOWLISTABLE_RULES
    ensures Key(path, rule) in FindingKeys(findings) <==> (path, rule) in FoundPairs(findings)
  {
    ScanRulesHaveNoBar(rule);
    if Key(path, rule) in FindingKeys(findings) {
      var f :| f in findings && Key(f.path, f.rule) == Key(path, rule);
      ScanRulesHaveNoBar(f.rule);
      KeyIsPair(f.path, f.rule, path, rule);
    }
  }

  // A finding is listed exactly when its key is.
  lemma PairListed(es: seq<Entry>, path: string, rule: string)
    requires RulesAllowlistable(es) && rule in ALLOWLISTABLE_RULES
    ensures Key(path, rule) in Keys(es) <==> (path, rule) in Pairs(es)
  {
    KeysArePairs(es);
    ScanRulesHaveNoBar(rule);
    if (path, rule) in Pairs(es) {
      var i :| 0 <= i < |Pairs(es)| && Pairs(es)[i] == (path, rule);
      assert IsKeyOf(Keys(es)[i], Pairs(es)[i]);
    }
    if Key(path, rule) in Keys(es) {
      var i :| 0 <= i < |Keys(es)| && Keys(es)[i] == Key(path, rule);
      var pair := Pairs(es)[i];
      assert IsKeyOf(Keys(es)[i], pair);
      ScanRulesHaveNoBar(pair.1);
      KeyIsPair(pair.0, pair.1, path, rule);
    }
  }

  lemma NothingStale(es: seq<Entry>, findings: seq<Finding>)
    requires RulesAllowlistable(es) && FromScan(findings)
    ensures Stale(es, FindingKeys(findings)) == [] <==> Elements(Pairs(es)) <= FoundPairs(findings)
  {
    var current := FindingKeys(findings);
    StaleEmpty(es, current);
    KeysArePairs(es);
    var keys, pairs := Keys(es), Pairs(es);
    forall i | 0 <= i < |keys| ensures keys[i] in current <==> pairs[i] in FoundPairs(findings) {
      assert IsKeyOf(keys[i], pairs[i]);
      PairFound(findings, pairs[i].0, pairs[i].1);
    }
  }

  lemma NothingActive(es: seq<Entry>, findings: seq<Finding>)
    requires RulesAllowlistable(es)
    ensures Select(findings, IsActive(Elements(Keys(es)))) == [] <==>
              FoundPairs(findings) <= Elements(Pairs(es))
  {
    var keys := Elements(Keys(es));
    SelectNone(findings, IsActive(keys));
    forall f | f in findings ensures Excepted(f, keys) <==> (f.path, f.rule) in Pairs(es) {
      KeysArePairs(es);
      if f.rule in ALLOWLISTABLE_RULES {
        PairListed(es, f.path, f.rule);
      }
    }
    if FoundPairs(findings) <= Elements(Pairs(es)) {
      forall f | f in findings ensures (f.path, f.rule) in Pairs(es) {
        assert (f.path, f.rule) in FoundPairs(findings);
      }
    }
  }

  // What an allowlist must be, whatever the scan finds.
  ghost predicate IsSound(payload: Payload, files: seq<string>) {
    && SchemaOk(payload)
    && var raws := payload.entries.value;
       && All(raws, NamesPaths)
       && All(AllExpanded(raws), WellFormedIn(files))
       && NoRepeat(Pairs(AllExpanded(raws)))
  }

  lemma SoundMeansNoErrors(payload: Payload, files: seq<string>)
    ensures ValidationErrors(payload, Elements(files)) == [] <==> IsSound(payload, files)
  {
    if SchemaOk(payload) {
      var es := AllExpanded(payload.entries.value);
      AllErrorsEmpty(payload.entries.value, files);
      FreshMeansNoRepeat(Keys(es));
      if All(es, WellFormedIn(files)) {
        SameRepeats(es);
      }
    }
  }

  // A run passes exactly when the allowlist is sound and what it lists is
  // what the scan finds.
  lemma PassMeansSameSet(payload: Payload, files: seq<string>, findings: seq<Finding>)
    requires FromScan(findings)
    ensures Failures(payload, files, findings) == [] <==>
              && IsSound(payload, files)
              && Elements(Pairs(AllExpanded(payload.entries.value))) == FoundPairs(findings)
  {
    SoundMeansNoErrors(payload, files);
    if IsSound(payload, files) {
      var es := AllExpanded(payload.entries.value);
      SelectAll(es, HasSafePath);
      assert AcceptedEntries(payload) == es;
      NothingStale(es, findings);
      NothingActive(es, findings);
      NoReports(Select(findings, IsActive(Elements(Keys(es)))));
    }
  }

  lemma NoReports(findings: seq<Finding>)
    ensures Reports(findings) == [] <==> findings == []
  {
  }
}
