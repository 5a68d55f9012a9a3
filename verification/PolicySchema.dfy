// The policy-file validator: a recursive check of a YAML value against a
// schema whose $ref keywords may send it anywhere in the schema document.
module PolicySchema {
  import opened PathSegments
  import opened Wrappers

  // What yaml.safe_load returns, with string keys.
  datatype Yaml =
    | Null
    | Bool(b: bool)
    | Int(i: int)
    | Float(x: real)
    | Str(s: string)
    | List(items: seq<Yaml>)
    | Dict(entries: seq<Entry>)

  datatype Entry = Entry(key: string, value: Yaml)

  // The schema document, and Python's re.match as a function of pattern and
  // text; None when the pattern does not compile.
  datatype Context = Context(root: Yaml, regex: (string, string) -> Option<bool>)

  datatype Step = Key(key: string) | Index(index: nat)
  type Path = seq<Step>

  datatype Problem =
    | UnsupportedRef(ref: string)
    | UnsupportedType
    | WrongType
    | NotInEnum
    | NoMatch
    | Missing(key: string)
    | NotAllowed
    | TooFew

  // A ValidationError names a place in the instance; any other exception is a
  // crash; a cycle of references recurses without end.
  datatype Outcome = Valid | Invalid(path: Path, problem: Problem) | Crash | Diverges

  // --- following references ----------------------------------------------------

  function Lookup(entries: seq<Entry>, key: string): Option<Yaml> {
    if entries == [] then None
    else if entries[0].key == key then Some(entries[0].value)
    else Lookup(entries[1..], key)
  }

  function Get(node: Yaml, key: string): Option<Yaml> {
    if node.Dict? then Lookup(node.entries, key) else None
  }

  // Indexing into nested mappings; None stands for the exception.
  function Walk(node: Yaml, parts: seq<string>): Option<Yaml>
    decreases |parts|
  {
    if parts == [] then Some(node)
    else
      match Get(node, parts[0])
      case None => None
      case Some(next) => Walk(next, parts[1..])
  }

  predicate IsLocal(ref: string) { "#/" <= ref }

  function Target(root: Yaml, ref: string): Option<Yaml>
    requires IsLocal(ref)
  {
    Walk(root, Segments(ref[2..]))
  }

  datatype Next = NotARef | To(node: Yaml) | Unsupported(ref: string) | Broken

  // Where a reference leads: a node, a ValidationError or another exception.
  function Resolved(root: Yaml, ref: string): Next {
    if !IsLocal(ref) then Unsupported(ref)
    else (match Target(root, ref) case Some(target) => To(target) case None => Broken)
  }

  method ResolveRef(root: Yaml, ref: string) returns (target: Next)
    ensures target == Resolved(root, ref)
  {
    if !("#/" <= ref) {
      return Unsupported(ref);
    }
    var parts := Segments(ref[2..]);
    var node := root;
    for i := 0 to |parts|
      invariant Target(root, ref) == Walk(node, parts[i..])
    {
      var next := Get(node, parts[i]);
      if next.None? {
        return Broken;
      }
      node := next.value;
      assert parts[i..][1..] == parts[i + 1..];
    }
    target := To(node);
  }

  // What the first line of validate does with a schema node. Keywords beside
  // $ref are not looked at.
  function Follow(root: Yaml, node: Yaml): Next {
    match Get(node, "$ref")
    case None => NotARef
    case Some(Str(ref)) => Resolved(root, ref)
    case Some(_) => Broken
  }

  // The node after n references.
  ghost function Hop(root: Yaml, node: Yaml, n: nat): Option<Yaml>
    decreases n
  {
    if n == 0 then Some(node)
    else
      match Follow(root, node)
      case To(next) => Hop(root, next, n - 1)
      case _ => None
  }

  // The chain of references from node ends after exactly n of them, at last.
  ghost predicate EndsAt(root: Yaml, node: Yaml, n: nat, last: Yaml) {
    Hop(root, node, n) == Some(last) && !Follow(root, last).To?
  }

  // Every string in a value.
  function Strings(y: Yaml): set<string> {
    match y
    case Str(s) => {s}
    case List(items) => ListStrings(items)
    case Dict(entries) => DictStrings(entries)
    case _ => {}
  }

  function ListStrings(items: seq<Yaml>): set<string> {
    if items == [] then {} else Strings(items[0]) + ListStrings(items[1..])
  }

  function DictStrings(entries: seq<Entry>): set<string> {
    if entries == [] then {} else Strings(entries[0].value) + DictStrings(entries[1..])
  }

  lemma {:induction false} LookupStrings(entries: seq<Entry>, key: string)
    ensures Lookup(entries, key).Some? ==> Strings(Lookup(entries, key).value) <= DictStrings(entries)
  {
    if entries != [] && entries[0].key != key {
      LookupStrings(entries[1..], key);
    }
  }

  lemma {:induction false} WalkStrings(node: Yaml, parts: seq<string>)
    ensures Walk(node, parts).Some? ==> Strings(Walk(node, parts).value) <= Strings(node)
    decreases |parts|
  {
    if parts != [] && Get(node, parts[0]).Some? {
      LookupStrings(node.entries, parts[0]);
      WalkStrings(Get(node, parts[0]).value, parts[1..]);
    }
  }

  function RefOf(node: Yaml): (ref: string)
    requires Get(node, "$ref").Some? && Get(node, "$ref").value.Str?
    ensures ref in Strings(node)
  {
    LookupStrings(node.entries, "$ref");
    Get(node, "$ref").value.s
  }

  // The node where the chain of references ends, or None when it never does.
  // The references already taken all occur in the schema document, so the
  // search ends even when the validator would not.
  function Chase(root: Yaml, node: Yaml, taken: set<string>): Option<Yaml>
    decreases (Strings(root) + Strings(node)) - taken
  {
    match Follow(root, node)
    case To(next) =>
      if RefOf(node) in taken then None
      else
        WalkStrings(root, Segments(RefOf(node)[2..]));
        assert RefOf(node) in (Strings(root) + Strings(node)) - taken;
        Chase(root, next, taken + {RefOf(node)})
    case _ => Some(node)
  }

  lemma {:induction false} EndUnique(root: Yaml, node: Yaml, m: nat, p: Yaml, n: nat, q: Yaml)
    requires EndsAt(root, node, m, p) && EndsAt(root, node, n, q)
    ensures m == n && p == q
    decreases m
  {
    if m > 0 && n > 0 {
      EndUnique(root, Follow(root, node).node, m - 1, p, n - 1, q);
    }
  }

  lemma {:induction false} ChaseFinds(root: Yaml, node: Yaml, taken: set<string>)
    requires Chase(root, node, taken).Some?
    ensures exists n: nat :: EndsAt(root, node, n, Chase(root, node, taken).value)
    decreases (Strings(root) + Strings(node)) - taken
  {
    if Follow(root, node).To? {
      var next := Follow(root, node).node;
      WalkStrings(root, Segments(RefOf(node)[2..]));
      assert RefOf(node) in (Strings(root) + Strings(node)) - taken;
      ChaseFinds(root, next, taken + {RefOf(node)});
      var n: nat :| EndsAt(root, next, n, Chase(root, next, taken + {RefOf(node)}).value);
      assert EndsAt(root, node, n + 1, Chase(root, node, taken).value);
    } else {
      assert EndsAt(root, node, 0, node);
    }
  }

  // A chain that ends never meets a reference twice: what a reference already
  // taken leads to is at least as far from the end as the current node.
  ghost predicate Ahead(root: Yaml, taken: set<string>, n: nat) {
    forall ref :: ref in taken ==>
      IsLocal(ref) && Target(root, ref).Some?
      && exists m: nat, last :: m >= n && EndsAt(root, Target(root, ref).value, m, last)
  }

  lemma {:induction false} EndingIsFound(root: Yaml, node: Yaml, taken: set<string>, n: nat, last: Yaml)
    requires EndsAt(root, node, n, last) && Ahead(root, taken, n)
    ensures Chase(root, node, taken) == Some(last)
    ensures n <= |(Strings(root) + Strings(node)) - taken|
    decreases n
  {
    if n > 0 {
      var next := Follow(root, node).node;
      var ref := RefOf(node);
      assert EndsAt(root, next, n - 1, last);
      if ref in taken {
        var m: nat, end :| m >= n && EndsAt(root, Target(root, ref).value, m, end);
        EndUnique(root, next, n - 1, last, m, end);
        assert false;
      } else {
        EndingIsFound(root, next, taken + {ref}, n - 1, last);
        WalkStrings(root, Segments(ref[2..]));
        OneFewer((Strings(root) + Strings(node)) - taken, (Strings(root) + Strings(next)) - (taken + {ref}), ref);
      }
    }
  }

  lemma OneFewer(all: set<string>, rest: set<string>, ref: string)
    requires ref in all && rest <= all - {ref}
    ensures |rest| < |all|
  {
    var others := all - {ref};
    assert |others - rest| == |others| - |rest|;
  }

  // The search gives up exactly on the chains that never end.
  lemma ChaseDecides(root: Yaml, node: Yaml)
    ensures Chase(root, node, {}).Some? <==> exists n: nat, last :: EndsAt(root, node, n, last)
    ensures forall n: nat, last :: EndsAt(root, node, n, last) ==>
              Chase(root, node, {}) == Some(last) && n <= |Strings(root) + Strings(node)|
  {
    if Chase(root, node, {}).Some? {
      ChaseFinds(root, node, {});
    }
    forall n: nat, last | EndsAt(root, node, n, last)
      ensures Chase(root, node, {}) == Some(last) && n <= |Strings(root) + Strings(node)|
    {
      EndingIsFound(root, node, {}, n, last);
      assert (Strings(root) + Strings(node)) - {} == Strings(root) + Strings(node);
    }
  }

  // --- keywords ----------------------------------------------------------------

  // Python's ==, where True == 1 and 1 == 1.0.
  function NumberOf(y: Yaml): Option<real> {
    match y
    case Bool(b) => Some(if b then 1.0 else 0.0)
    case Int(i) => Some(i as real)
    case Float(x) => Some(x)
    case _ => None
  }

  predicate PyEqual(a: Yaml, b: Yaml) {
    if NumberOf(a).Some? || NumberOf(b).Some? then NumberOf(a) == NumberOf(b)
    else
      match a
      case Null => b.Null?
      case Str(s) => b == Str(s)
      case List(items) =>
        b.List? && |b.items| == |items| && forall i :: 0 <= i < |items| ==> PyEqual(items[i], b.items[i])
      case Dict(entries) =>
        && b.Dict? && |b.entries| == |entries|
        && forall i :: 0 <= i < |entries| ==>
             Get(b, entries[i].key).Some? && PyEqual(entries[i].value, Get(b, entries[i].key).value)
      case _ => false
  }

  // A keyword whose null value counts as absence.
  function Keyword(node: Yaml, key: string): Option<Yaml> {
    match Get(node, key)
    case Some(Null) => None
    case other => other
  }

  datatype Verdict = Pass | Fail(problem: Problem) | Raise

  function TypeVerdict(inst: Yaml, expected: Option<Yaml>): Verdict {
    match expected
    case None => Pass
    case Some(Str(name)) =>
      if name !in ["object", "array", "string", "boolean", "number", "integer"] then Fail(UnsupportedType)
      else if HasType(inst, name) then Pass else Fail(WrongType)
    case Some(List(_)) => Raise
    case Some(Dict(_)) => Raise
    case Some(_) => Fail(UnsupportedType)
  }

  predicate HasType(inst: Yaml, name: string) {
    match name
    case "object" => inst.Dict?
    case "array" => inst.List?
    case "string" => inst.Str?
    case "boolean" => inst.Bool?
    case "number" => inst.Int? || inst.Float?
    case "integer" => inst.Int?
    case _ => false
  }

  predicate Listed(inst: Yaml, allowed: seq<Yaml>) {
    exists i :: 0 <= i < |allowed| && PyEqual(inst, allowed[i])
  }

  function EnumVerdict(inst: Yaml, keyword: Option<Yaml>): Verdict {
    match keyword
    case None => Pass
    case Some(List(allowed)) => if Listed(inst, allowed) then Pass else Fail(NotInEnum)
    case Some(_) => Raise
  }

  function PatternVerdict(inst: Yaml, keyword: Option<Yaml>, regex: (string, string) -> Option<bool>): Verdict {
    match keyword
    case None => Pass
    case Some(Str(pattern)) =>
      if !inst.Str? then Fail(NoMatch)
      else (match regex(pattern, inst.s)
            case None => Raise
            case Some(matched) => if matched then Pass else Fail(NoMatch))
    case Some(_) => if inst.Str? then Raise else Fail(NoMatch)
  }

  function MinVerdict(inst: Yaml, keyword: Option<Yaml>): Verdict
    requires inst.List?
  {
    match keyword
    case None => Pass
    case Some(least) =>
      if NumberOf(least).None? then Raise
      else if (|inst.items| as real) < NumberOf(least).value then Fail(TooFew)
      else Pass
  }

  // The first required key that is absent, in the order of the schema.
  function RequiredVerdict(inst: Yaml, names: seq<Yaml>): Verdict {
    if names == [] then Pass
    else if !names[0].Str? then Raise
    else if Get(inst, names[0].s).None? then Fail(Missing(names[0].s))
    else RequiredVerdict(inst, names[1..])
  }

  function RequiredKeywordVerdict(inst: Yaml, keyword: Option<Yaml>): Verdict {
    match keyword
    case None => Pass
    case Some(List(names)) => RequiredVerdict(inst, names)
    case Some(_) => Raise
  }

  function Then(a: Verdict, b: Verdict): Verdict {
    if a.Pass? then b else a
  }

  // The keywords that need no recursion, in the order they are checked.
  function LocalVerdict(inst: Yaml, node: Yaml, regex: (string, string) -> Option<bool>): Verdict {
    Then(TypeVerdict(inst, Keyword(node, "type")),
         Then(EnumVerdict(inst, Get(node, "enum")), PatternVerdict(inst, Get(node, "pattern"), regex)))
  }

  // --- the validator -------------------------------------------------------------

  function Report(v: Verdict, path: Path, rest: Outcome): Outcome {
    match v
    case Pass => rest
    case Fail(problem) => Invalid(path, problem)
    case Raise => Crash
  }

  // The schema that applies to one entry of an object.
  datatype EntryRule = Free | Forbidden | By(schema: Yaml) | Malformed

  function RuleFor(node: Yaml, key: string): EntryRule {
    match Get(node, "properties")
    case Some(Dict(properties)) =>
      (match Lookup(properties, key) case Some(schema) => By(schema) case None => AdditionalRule(node))
    case None => AdditionalRule(node)
    case Some(_) => Malformed
  }

  function AdditionalRule(node: Yaml): EntryRule {
    match Get(node, "additionalProperties")
    case Some(Bool(false)) => Forbidden
    case Some(Dict(entries)) => By(Dict(entries))
    case _ => Free
  }

  function Validate(inst: Yaml, node: Yaml, ctx: Context, path: Path): Outcome
    decreases inst, 3
  {
    match Chase(ctx.root, node, {})
    case None => Diverges
    case Some(last) =>
      match Follow(ctx.root, last)
      case Unsupported(ref) => Invalid(path, UnsupportedRef(ref))
      case Broken => Crash
      case _ => ValidateNode(inst, last, ctx, path)
  }

  function ValidateNode(inst: Yaml, node: Yaml, ctx: Context, path: Path): Outcome
    decreases inst, 2
  {
    if !node.Dict? then Crash
    else
      Report(LocalVerdict(inst, node, ctx.regex), path,
             if Keyword(node, "type") == Some(Str("object")) && inst.Dict? then
               Report(RequiredKeywordVerdict(inst, Get(node, "required")), path,
                      ValidateEntries(inst.entries, node, ctx, path))
             else if Keyword(node, "type") == Some(Str("array")) && inst.List? then
               Report(MinVerdict(inst, Keyword(node, "minItems")), path,
                      match Keyword(node, "items")
                      case None => Valid
                      case Some(schema) => ValidateItems(inst.items, 0, schema, ctx, path))
             else Valid)
  }

  function ValidateEntries(entries: seq<Entry>, node: Yaml, ctx: Context, path: Path): Outcome
    decreases entries, 1
  {
    if entries == [] then Valid
    else
      var here := path + [Key(entries[0].key)];
      var first :=
        match RuleFor(node, entries[0].key)
        case Free => Valid
        case Forbidden => Invalid(here, NotAllowed)
        case Malformed => Crash
        case By(schema) => Validate(entries[0].value, schema, ctx, here);
      if first == Valid then ValidateEntries(entries[1..], node, ctx, path) else first
  }

  // Items from index on; the schema of an array applies to each of them.
  function ValidateItems(items: seq<Yaml>, index: nat, schema: Yaml, ctx: Context, path: Path): Outcome
    decreases items, 1
  {
    if items == [] then Valid
    else
      var first := Validate(items[0], schema, ctx, path + [Index(index)]);
      if first == Valid then ValidateItems(items[1..], index + 1, schema, ctx, path) else first
  }

  // --- what it means for an instance to conform -------------------------------------

  ghost predicate Conforms(inst: Yaml, node: Yaml, ctx: Context)
    decreases inst, 1
  {
    exists n: nat, last ::
      EndsAt(ctx.root, node, n, last) && Follow(ctx.root, last).NotARef? && last.Dict? && Satisfies(inst, last, ctx)
  }

  // A schema node without $ref holds of an instance.
  ghost predicate Satisfies(inst: Yaml, node: Yaml, ctx: Context)
    decreases inst, 0
  {
    && LocalHolds(inst, node, ctx)
    && (Keyword(node, "type") == Some(Str("object")) ==>
          && inst.Dict?
          && RequiredHolds(inst, node)
          && forall i :: 0 <= i < |inst.entries| ==>
               match RuleFor(node, inst.entries[i].key)
               case Free => true
               case By(schema) => Conforms(inst.entries[i].value, schema, ctx)
               case _ => false)
    && (Keyword(node, "type") == Some(Str("array")) ==>
          && inst.List?
          && (Keyword(node, "minItems").Some? ==>
                && NumberOf(Keyword(node, "minItems").value).Some?
                && NumberOf(Keyword(node, "minItems").value).value <= |inst.items| as real)
          && (Keyword(node, "items").Some? ==>
                forall i :: 0 <= i < |inst.items| ==> Conforms(inst.items[i], Keyword(node, "items").value, ctx)))
  }

  ghost predicate LocalHolds(inst: Yaml, node: Yaml, ctx: Context) {
    && (Keyword(node, "type").Some? ==>
          Keyword(node, "type").value.Str? && HasType(inst, Keyword(node, "type").value.s))
    && (Get(node, "enum").Some? ==> Get(node, "enum").value.List? && Listed(inst, Get(node, "enum").value.items))
    && (Get(node, "pattern").Some? ==>
          Get(node, "pattern").value.Str? && inst.Str? && ctx.regex(Get(node, "pattern").value.s, inst.s) == Some(true))
  }

  ghost predicate RequiredHolds(inst: Yaml, node: Yaml) {
    Get(node, "required").Some? ==>
      && Get(node, "required").value.List?
      && forall i :: 0 <= i < |Get(node, "required").value.items| ==>
           var name := Get(node, "required").value.items[i];
           name.Str? && Get(inst, name.s).Some?
  }

  lemma LocalPasses(inst: Yaml, node: Yaml, ctx: Context)
    ensures LocalVerdict(inst, node, ctx.regex).Pass? <==> LocalHolds(inst, node, ctx)
  {}

  lemma {:induction false} RequiredPasses(inst: Yaml, names: seq<Yaml>)
    ensures RequiredVerdict(inst, names).Pass? <==>
              forall i :: 0 <= i < |names| ==> names[i].Str? && Get(inst, names[i].s).Some?
  {
    if names != [] {
      RequiredPasses(inst, names[1..]);
      assert forall i :: 1 <= i < |names| ==> names[i] == names[1..][i - 1];
    }
  }

  // validate returns normally exactly when the instance conforms: for every
  // schema, well formed or not, and every instance.
  lemma {:induction false} ValidIffConforms(inst: Yaml, node: Yaml, ctx: Context, path: Path)
    ensures Validate(inst, node, ctx, path) == Valid <==> Conforms(inst, node, ctx)
    decreases inst, 3
  {
    ChaseDecides(ctx.root, node);
    var found := Chase(ctx.root, node, {});
    if found.Some? {
      ValidNodeIffSatisfies(inst, found.value, ctx, path);
    }
  }

  lemma {:induction false} ValidNodeIffSatisfies(inst: Yaml, node: Yaml, ctx: Context, path: Path)
    ensures ValidateNode(inst, node, ctx, path) == Valid <==> node.Dict? && Satisfies(inst, node, ctx)
    decreases inst, 2
  {
    LocalPasses(inst, node, ctx);
    if inst.Dict? {
      var required := Get(node, "required");
      if required.Some? && required.value.List? {
        RequiredPasses(inst, required.value.items);
      }
      EntriesIff(inst.entries, node, ctx, path);
    }
    if inst.List? && Keyword(node, "items").Some? {
      ItemsIff(inst.items, 0, Keyword(node, "items").value, ctx, path);
    }
  }

  ghost predicate EntryConforms(e: Entry, node: Yaml, ctx: Context) {
    match RuleFor(node, e.key)
    case Free => true
    case By(schema) => Conforms(e.value, schema, ctx)
    case _ => false
  }

  lemma {:induction false} EntriesIff(entries: seq<Entry>, node: Yaml, ctx: Context, path: Path)
    ensures ValidateEntries(entries, node, ctx, path) == Valid <==>
              forall i :: 0 <= i < |entries| ==> EntryConforms(entries[i], node, ctx)
    decreases entries, 1
  {
    if entries != [] {
      var rule := RuleFor(node, entries[0].key);
      if rule.By? {
        ValidIffConforms(entries[0].value, rule.schema, ctx, path + [Key(entries[0].key)]);
      }
      EntriesIff(entries[1..], node, ctx, path);
      assert forall i :: 1 <= i < |entries| ==> entries[i] == entries[1..][i - 1];
    }
  }

  lemma {:induction false} ItemsIff(items: seq<Yaml>, index: nat, schema: Yaml, ctx: Context, path: Path)
    ensures ValidateItems(items, index, schema, ctx, path) == Valid <==>
              forall i :: 0 <= i < |items| ==> Conforms(items[i], schema, ctx)
    decreases items, 1
  {
    if items != [] {
      ValidIffConforms(items[0], schema, ctx, path + [Index(index)]);
      ItemsIff(items[1..], index + 1, schema, ctx, path);
      assert forall i :: 1 <= i < |items| ==> items[i] == items[1..][i - 1];
    }
  }

  // --- what an error names ----------------------------------------------------------

  // The path leads from the instance to sub, and start is the schema node the
  // validator is called with there.
  ghost predicate Reaches(inst: Yaml, node: Yaml, ctx: Context, at: Path, sub: Yaml, start: Yaml)
    decreases |at|
  {
    if at == [] then sub == inst && start == node
    else
      exists n: nat, last ::
        && EndsAt(ctx.root, node, n, last) && Follow(ctx.root, last).NotARef?
        && match at[0]
           case Key(key) =>
             && inst.Dict? && Keyword(last, "type") == Some(Str("object"))
             && RuleFor(last, key).By?
             && exists i :: 0 <= i < |inst.entries| && inst.entries[i].key == key
                  && Reaches(inst.entries[i].value, RuleFor(last, key).schema, ctx, at[1..], sub, start)
           case Index(index) =>
             && inst.List? && Keyword(last, "type") == Some(Str("array"))
             && Keyword(last, "items").Some? && index < |inst.items|
             && Reaches(inst.items[index], Keyword(last, "items").value, ctx, at[1..], sub, start)
  }

  // rule is what sub is checked against: the node reached with it, with
  // references followed.
  ghost predicate Governs(inst: Yaml, node: Yaml, ctx: Context, at: Path, sub: Yaml, rule: Yaml) {
    exists start, n: nat :: Reaches(inst, node, ctx, at, sub, start) && EndsAt(ctx.root, start, n, rule)
  }

  // The keyword of rule that sub breaks.
  ghost predicate Breaks(problem: Problem, sub: Yaml, rule: Yaml, ctx: Context) {
    match problem
    case UnsupportedRef(ref) => Get(rule, "$ref") == Some(Str(ref)) && !IsLocal(ref)
    case UnsupportedType =>
      Keyword(rule, "type").Some?
      && (Keyword(rule, "type").value.Str? ==>
            Keyword(rule, "type").value.s !in ["object", "array", "string", "boolean", "number", "integer"])
    case WrongType =>
      Keyword(rule, "type").Some? && Keyword(rule, "type").value.Str? && !HasType(sub, Keyword(rule, "type").value.s)
    case NotInEnum =>
      Get(rule, "enum").Some? && Get(rule, "enum").value.List? && !Listed(sub, Get(rule, "enum").value.items)
    case NoMatch =>
      Get(rule, "pattern").Some?
      && (sub.Str? ==> Get(rule, "pattern").value.Str?
                       && ctx.regex(Get(rule, "pattern").value.s, sub.s) == Some(false))
    case Missing(key) =>
      && Keyword(rule, "type") == Some(Str("object")) && sub.Dict? && Get(sub, key).None?
      && Get(rule, "required").Some? && Get(rule, "required").value.List?
      && Str(key) in Get(rule, "required").value.items
    case TooFew =>
      && Keyword(rule, "type") == Some(Str("array")) && sub.List?
      && Keyword(rule, "minItems").Some? && NumberOf(Keyword(rule, "minItems").value).Some?
      && |sub.items| as real < NumberOf(Keyword(rule, "minItems").value).value
    case NotAllowed => false
  }

  // A forbidden key is named by its own path; the schema at fault is the one
  // that governs the object around it.
  ghost predicate BreaksAt(problem: Problem, inst: Yaml, node: Yaml, ctx: Context, at: Path, sub: Yaml, rule: Yaml) {
    if problem.NotAllowed? then
      && at != [] && at[|at| - 1].Key?
      && Governs(inst, node, ctx, at[..|at| - 1], sub, rule)
      && Keyword(rule, "type") == Some(Str("object"))
      && Get(sub, at[|at| - 1].key).Some?
      && RuleFor(rule, at[|at| - 1].key).Forbidden?
    else
      Governs(inst, node, ctx, at, sub, rule) && Breaks(problem, sub, rule, ctx)
  }

  lemma {:induction false} FirstBadEntry(entries: seq<Entry>, node: Yaml, ctx: Context, path: Path) returns (i: nat)
    requires ValidateEntries(entries, node, ctx, path).Invalid?
    ensures i < |entries|
    ensures var here := path + [Key(entries[i].key)];
            ValidateEntries(entries, node, ctx, path) ==
              match RuleFor(node, entries[i].key)
              case Forbidden => Invalid(here, NotAllowed)
              case By(schema) => Validate(entries[i].value, schema, ctx, here)
              case _ => Crash
  {
    var here := path + [Key(entries[0].key)];
    var rest := ValidateEntries(entries[1..], node, ctx, path);
    if ValidateEntries(entries, node, ctx, path) == rest && rest.Invalid? && (RuleFor(node, entries[0].key).Free?
         || (RuleFor(node, entries[0].key).By?
             && Validate(entries[0].value, RuleFor(node, entries[0].key).schema, ctx, here) == Valid)) {
      i := FirstBadEntry(entries[1..], node, ctx, path);
      i := i + 1;
    } else {
      i := 0;
    }
  }

  lemma {:induction false} FirstBadItem(items: seq<Yaml>, index: nat, schema: Yaml, ctx: Context, path: Path)
    returns (i: nat)
    requires ValidateItems(items, index, schema, ctx, path).Invalid?
    ensures i < |items|
    ensures ValidateItems(items, index, schema, ctx, path)
         == Validate(items[i], schema, ctx, path + [Index(index + i)])
  {
    if Validate(items[0], schema, ctx, path + [Index(index)]) == Valid {
      i := FirstBadItem(items[1..], index + 1, schema, ctx, path);
      i := i + 1;
    } else {
      i := 0;
    }
  }

  lemma {:induction false} FirstMissing(inst: Yaml, names: seq<Yaml>)
    requires RequiredVerdict(inst, names).Fail?
    ensures RequiredVerdict(inst, names).problem.Missing?
    ensures Str(RequiredVerdict(inst, names).problem.key) in names
    ensures Get(inst, RequiredVerdict(inst, names).problem.key).None?
  {
    if names[0].Str? && Get(inst, names[0].s).Some? {
      FirstMissing(inst, names[1..]);
    }
  }

  lemma {:induction false} LookupFinds(entries: seq<Entry>, i: nat)
    requires i < |entries|
    ensures Lookup(entries, entries[i].key).Some?
  {
    if i > 0 && entries[0].key != entries[i].key {
      LookupFinds(entries[1..], i - 1);
    }
  }

  // A ValidationError names a place in the instance, below the path it was
  // given, where the schema that governs that place is really broken in the
  // way the message says.
  lemma {:induction false} ErrorNamesViolation(inst: Yaml, node: Yaml, ctx: Context, path: Path)
    returns (sub: Yaml, rule: Yaml)
    requires Validate(inst, node, ctx, path).Invalid?
    ensures var Invalid(full, problem) := Validate(inst, node, ctx, path);
            && path <= full
            && BreaksAt(problem, inst, node, ctx, full[|path|..], sub, rule)
    decreases inst, 3
  {
    ChaseDecides(ctx.root, node);
    var last := Chase(ctx.root, node, {}).value;
    var n: nat :| EndsAt(ctx.root, node, n, last);
    var Invalid(full, problem) := Validate(inst, node, ctx, path);
    sub, rule := inst, last;
    if Follow(ctx.root, last).Unsupported? || !LocalVerdict(inst, last, ctx.regex).Pass? {
      assert full[|path|..] == [];
      GovernsHere(inst, node, n, last, ctx);
    } else if Keyword(last, "type") == Some(Str("object")) {
      sub, rule := ObjectErrorNamesViolation(inst, node, n, last, ctx, path);
    } else {
      sub, rule := ArrayErrorNamesViolation(inst, node, n, last, ctx, path);
    }
  }

  lemma {:induction false} ObjectErrorNamesViolation(inst: Yaml, node: Yaml, n: nat, last: Yaml, ctx: Context,
                                                     path: Path)
    returns (sub: Yaml, rule: Yaml)
    requires EndsAt(ctx.root, node, n, last) && Follow(ctx.root, last).NotARef?
    requires last.Dict? && inst.Dict? && Keyword(last, "type") == Some(Str("object"))
    requires LocalVerdict(inst, last, ctx.regex).Pass? && ValidateNode(inst, last, ctx, path).Invalid?
    ensures var Invalid(full, problem) := ValidateNode(inst, last, ctx, path);
            && path <= full
            && BreaksAt(problem, inst, node, ctx, full[|path|..], sub, rule)
    decreases inst, 2
  {
    sub, rule := inst, last;
    var Invalid(full, problem) := ValidateNode(inst, last, ctx, path);
    var required := RequiredKeywordVerdict(inst, Get(last, "required"));
    if !required.Pass? {
      FirstMissing(inst, Get(last, "required").value.items);
      assert full[|path|..] == [];
      GovernsHere(inst, node, n, last, ctx);
    } else {
      var i := FirstBadEntry(inst.entries, last, ctx, path);
      var key := inst.entries[i].key;
      var here := path + [Key(key)];
      if RuleFor(last, key).Forbidden? {
        LookupFinds(inst.entries, i);
        assert full[|path|..] == [Key(key)];
        assert [Key(key)][..0] == [];
        GovernsHere(inst, node, n, last, ctx);
      } else {
        sub, rule := ErrorNamesViolation(inst.entries[i].value, RuleFor(last, key).schema, ctx, here);
        StepInto(Key(key), full, path);
        GovernsKey(inst, node, n, last, ctx, i, full[|here|..], sub, rule);
        if problem.NotAllowed? {
          GovernsKey(inst, node, n, last, ctx, i, full[|here|..][..|full[|here|..]| - 1], sub, rule);
          PrefixStep(Key(key), full[|here|..]);
        }
      }
    }
  }

  lemma {:induction false} ArrayErrorNamesViolation(inst: Yaml, node: Yaml, n: nat, last: Yaml, ctx: Context,
                                                    path: Path)
    returns (sub: Yaml, rule: Yaml)
    requires EndsAt(ctx.root, node, n, last) && Follow(ctx.root, last).NotARef?
    requires last.Dict? && Keyword(last, "type") != Some(Str("object"))
    requires LocalVerdict(inst, last, ctx.regex).Pass? && ValidateNode(inst, last, ctx, path).Invalid?
    ensures var Invalid(full, problem) := ValidateNode(inst, last, ctx, path);
            && path <= full
            && BreaksAt(problem, inst, node, ctx, full[|path|..], sub, rule)
    decreases inst, 2
  {
    sub, rule := inst, last;
    var Invalid(full, problem) := ValidateNode(inst, last, ctx, path);
    if !MinVerdict(inst, Keyword(last, "minItems")).Pass? {
      assert full[|path|..] == [];
      GovernsHere(inst, node, n, last, ctx);
    } else {
      var i := FirstBadItem(inst.items, 0, Keyword(last, "items").value, ctx, path);
      sub, rule := ItemErrorNamesViolation(inst, node, n, last, ctx, path, i);
    }
  }

  lemma {:induction false} ItemErrorNamesViolation(inst: Yaml, node: Yaml, n: nat, last: Yaml, ctx: Context,
                                                   path: Path, i: nat)
    returns (sub: Yaml, rule: Yaml)
    requires EndsAt(ctx.root, node, n, last) && Follow(ctx.root, last).NotARef?
    requires inst.List? && Keyword(last, "type") == Some(Str("array")) && i < |inst.items|
    requires Keyword(last, "items").Some?
    requires Validate(inst.items[i], Keyword(last, "items").value, ctx, path + [Index(i)]).Invalid?
    ensures var Invalid(full, problem) :=
              Validate(inst.items[i], Keyword(last, "items").value, ctx, path + [Index(i)]);
            && path <= full
            && BreaksAt(problem, inst, node, ctx, full[|path|..], sub, rule)
    decreases inst, 1
  {
    var here := path + [Index(i)];
    var Invalid(full, problem) := Validate(inst.items[i], Keyword(last, "items").value, ctx, here);
    sub, rule := ErrorNamesViolation(inst.items[i], Keyword(last, "items").value, ctx, here);
    StepInto(Index(i), full, path);
    GovernsIndex(inst, node, n, last, ctx, i, full[|here|..], sub, rule);
    if problem.NotAllowed? {
      GovernsIndex(inst, node, n, last, ctx, i, full[|here|..][..|full[|here|..]| - 1], sub, rule);
      PrefixStep(Index(i), full[|here|..]);
    }
  }

  lemma StepInto(step: Step, full: Path, path: Path)
    requires path + [step] <= full
    ensures path <= full && full[|path|..] == [step] + full[|path| + 1..]
  {}

  lemma PrefixStep(step: Step, at: Path)
    requires at != []
    ensures var whole := [step] + at;
            whole[..|whole| - 1] == [step] + at[..|at| - 1] && whole[|whole| - 1] == at[|at| - 1]
  {}

  lemma GovernsHere(inst: Yaml, node: Yaml, n: nat, last: Yaml, ctx: Context)
    requires EndsAt(ctx.root, node, n, last)
    ensures Governs(inst, node, ctx, [], inst, last)
  {
    assert Reaches(inst, node, ctx, [], inst, node);
  }

  lemma ReachesKey(inst: Yaml, node: Yaml, n: nat, last: Yaml, ctx: Context, i: nat, at: Path, sub: Yaml, start: Yaml)
    requires EndsAt(ctx.root, node, n, last) && Follow(ctx.root, last).NotARef?
    requires inst.Dict? && Keyword(last, "type") == Some(Str("object")) && i < |inst.entries|
    requires RuleFor(last, inst.entries[i].key).By?
    requires Reaches(inst.entries[i].value, RuleFor(last, inst.entries[i].key).schema, ctx, at, sub, start)
    ensures Reaches(inst, node, ctx, [Key(inst.entries[i].key)] + at, sub, start)
  {
    assert ([Key(inst.entries[i].key)] + at)[1..] == at;
  }

  lemma ReachesIndex(inst: Yaml, node: Yaml, n: nat, last: Yaml, ctx: Context, i: nat, at: Path, sub: Yaml, start: Yaml)
    requires EndsAt(ctx.root, node, n, last) && Follow(ctx.root, last).NotARef?
    requires inst.List? && Keyword(last, "type") == Some(Str("array")) && i < |inst.items|
    requires Keyword(last, "items").Some?
    requires Reaches(inst.items[i], Keyword(last, "items").value, ctx, at, sub, start)
    ensures Reaches(inst, node, ctx, [Index(i)] + at, sub, start)
  {
    assert ([Index(i)] + at)[1..] == at;
  }

  lemma GovernsKey(inst: Yaml, node: Yaml, n: nat, last: Yaml, ctx: Context, i: nat, at: Path, sub: Yaml, rule: Yaml)
    requires EndsAt(ctx.root, node, n, last) && Follow(ctx.root, last).NotARef?
    requires inst.Dict? && Keyword(last, "type") == Some(Str("object")) && i < |inst.entries|
    requires RuleFor(last, inst.entries[i].key).By?
    ensures Governs(inst.entries[i].value, RuleFor(last, inst.entries[i].key).schema, ctx, at, sub, rule)
        ==> Governs(inst, node, ctx, [Key(inst.entries[i].key)] + at, sub, rule)
  {
    var value, schema := inst.entries[i].value, RuleFor(last, inst.entries[i].key).schema;
    if Governs(value, schema, ctx, at, sub, rule) {
      var start, m: nat :| Reaches(value, schema, ctx, at, sub, start) && EndsAt(ctx.root, start, m, rule);
      ReachesKey(inst, node, n, last, ctx, i, at, sub, start);
    }
  }

  lemma GovernsIndex(inst: Yaml, node: Yaml, n: nat, last: Yaml, ctx: Context, i: nat, at: Path, sub: Yaml, rule: Yaml)
    requires EndsAt(ctx.root, node, n, last) && Follow(ctx.root, last).NotARef?
    requires inst.List? && Keyword(last, "type") == Some(Str("array")) && i < |inst.items|
    requires Keyword(last, "items").Some?
    ensures Governs(inst.items[i], Keyword(last, "items").value, ctx, at, sub, rule)
        ==> Governs(inst, node, ctx, [Index(i)] + at, sub, rule)
  {
    var schema := Keyword(last, "items").value;
    if Governs(inst.items[i], schema, ctx, at, sub, rule) {
      var start, m: nat :| Reaches(inst.items[i], schema, ctx, at, sub, start) && EndsAt(ctx.root, start, m, rule);
      ReachesIndex(inst, node, n, last, ctx, i, at, sub, start);
    }
  }

  // --- references --------------------------------------------------------------------

  // A node with $ref is its target: the keywords beside $ref have no effect.
  lemma RefSiblingsIgnored(inst: Yaml, node: Yaml, ctx: Context, path: Path)
    requires Follow(ctx.root, node).To?
    ensures Validate(inst, node, ctx, path) == Validate(inst, Follow(ctx.root, node).node, ctx, path)
  {
    var next := Follow(ctx.root, node).node;
    ChaseDecides(ctx.root, node);
    ChaseDecides(ctx.root, next);
    if Chase(ctx.root, node, {}).Some? {
      var n: nat, last :| EndsAt(ctx.root, node, n, last);
      assert EndsAt(ctx.root, next, n - 1, last);
    }
    if Chase(ctx.root, next, {}).Some? {
      var n: nat, last :| EndsAt(ctx.root, next, n, last);
      assert EndsAt(ctx.root, node, n + 1, last);
    }
  }
}
