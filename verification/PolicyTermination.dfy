// The schema validator as it is written: one recursive call for each $ref. Its
// recursion, counted in frames of validate on the stack, returns what Validate
// says, within a bound given by the instance and the references of the schema,
// or it never returns.
module PolicyTermination {
  import opened PathSegments
  import opened Wrappers
  import opened PolicySchema
  import opened Selections

  // What a call of validate returns with so many frames left; None when it
  // needs more.
  function Run(inst: Yaml, node: Yaml, ctx: Context, path: Path, frames: nat): Option<Outcome>
    decreases frames, 0, 0
  {
    if frames == 0 then None
    else
      match Follow(ctx.root, node)
      case Unsupported(ref) => Some(Invalid(path, UnsupportedRef(ref)))
      case Broken => Some(Crash)
      case To(target) => Run(inst, target, ctx, path, frames - 1)
      case NotARef => RunNode(inst, node, ctx, path, frames - 1)
  }

  function RunNode(inst: Yaml, node: Yaml, ctx: Context, path: Path, frames: nat): Option<Outcome>
    decreases frames, 2, 0
  {
    if !node.Dict? then Some(Crash)
    else if !LocalVerdict(inst, node, ctx.regex).Pass? then
      Some(Report(LocalVerdict(inst, node, ctx.regex), path, Valid))
    else if Keyword(node, "type") == Some(Str("object")) && inst.Dict? then
      var required := RequiredKeywordVerdict(inst, Get(node, "required"));
      if required.Pass? then RunEntries(inst.entries, node, ctx, path, frames)
      else Some(Report(required, path, Valid))
    else if Keyword(node, "type") == Some(Str("array")) && inst.List? then
      var size := MinVerdict(inst, Keyword(node, "minItems"));
      if !size.Pass? then Some(Report(size, path, Valid))
      else
        match Keyword(node, "items")
        case None => Some(Valid)
        case Some(schema) => RunItems(inst.items, 0, schema, ctx, path, frames)
    else Some(Valid)
  }

  function RunEntries(entries: seq<Entry>, node: Yaml, ctx: Context, path: Path, frames: nat): Option<Outcome>
    decreases frames, 1, |entries|
  {
    if entries == [] then Some(Valid)
    else
      var here := path + [Key(entries[0].key)];
      var first :=
        match RuleFor(node, entries[0].key)
        case Free => Some(Valid)
        case Forbidden => Some(Invalid(here, NotAllowed))
        case Malformed => Some(Crash)
        case By(schema) => Run(entries[0].value, schema, ctx, here, frames);
      if first == Some(Valid) then RunEntries(entries[1..], node, ctx, path, frames) else first
  }

  function RunItems(items: seq<Yaml>, index: nat, schema: Yaml, ctx: Context, path: Path, frames: nat)
    : Option<Outcome>
    decreases frames, 1, |items|
  {
    if items == [] then Some(Valid)
    else
      var first := Run(items[0], schema, ctx, path + [Index(index)], frames);
      if first == Some(Valid) then RunItems(items[1..], index + 1, schema, ctx, path, frames) else first
  }

  // --- a call that returns, returns what Validate says ------------------------------

  lemma NodeItself(inst: Yaml, node: Yaml, ctx: Context, path: Path)
    requires !Follow(ctx.root, node).To?
    ensures Chase(ctx.root, node, {}) == Some(node)
  {}

  lemma {:induction false} RunAgrees(inst: Yaml, node: Yaml, ctx: Context, path: Path, frames: nat)
    requires Run(inst, node, ctx, path, frames).Some?
    ensures Run(inst, node, ctx, path, frames) == Some(Validate(inst, node, ctx, path))
    ensures Validate(inst, node, ctx, path) != Diverges
    decreases frames, 0, 0
  {
    match Follow(ctx.root, node)
    case To(target) =>
      RefSiblingsIgnored(inst, node, ctx, path);
      RunAgrees(inst, target, ctx, path, frames - 1);
    case NotARef => RunNodeAgrees(inst, node, ctx, path, frames - 1);
    case _ =>
  }

  lemma {:induction false} RunNodeAgrees(inst: Yaml, node: Yaml, ctx: Context, path: Path, frames: nat)
    requires RunNode(inst, node, ctx, path, frames).Some?
    ensures RunNode(inst, node, ctx, path, frames) == Some(ValidateNode(inst, node, ctx, path))
    ensures ValidateNode(inst, node, ctx, path) != Diverges
    decreases frames, 2, 0
  {
    if node.Dict? && inst.Dict? && RunEntries(inst.entries, node, ctx, path, frames).Some? {
      RunEntriesAgrees(inst.entries, node, ctx, path, frames);
    }
    if node.Dict? && inst.List? && Keyword(node, "items").Some?
       && RunItems(inst.items, 0, Keyword(node, "items").value, ctx, path, frames).Some? {
      RunItemsAgrees(inst.items, 0, Keyword(node, "items").value, ctx, path, frames);
    }
  }

  lemma {:induction false} RunEntriesAgrees(entries: seq<Entry>, node: Yaml, ctx: Context, path: Path, frames: nat)
    requires RunEntries(entries, node, ctx, path, frames).Some?
    ensures RunEntries(entries, node, ctx, path, frames) == Some(ValidateEntries(entries, node, ctx, path))
    ensures ValidateEntries(entries, node, ctx, path) != Diverges
    decreases frames, 1, |entries|
  {
    if entries != [] {
      var rule := RuleFor(node, entries[0].key);
      if rule.By? {
        RunAgrees(entries[0].value, rule.schema, ctx, path + [Key(entries[0].key)], frames);
      }
      if RunEntries(entries[1..], node, ctx, path, frames).Some? {
        RunEntriesAgrees(entries[1..], node, ctx, path, frames);
      }
    }
  }

  lemma {:induction false} RunItemsAgrees(items: seq<Yaml>, index: nat, schema: Yaml, ctx: Context, path: Path,
                                          frames: nat)
    requires RunItems(items, index, schema, ctx, path, frames).Some?
    ensures RunItems(items, index, schema, ctx, path, frames)
         == Some(ValidateItems(items, index, schema, ctx, path))
    ensures ValidateItems(items, index, schema, ctx, path) != Diverges
    decreases frames, 1, |items|
  {
    if items != [] {
      RunAgrees(items[0], schema, ctx, path + [Index(index)], frames);
      if RunItems(items[1..], index + 1, schema, ctx, path, frames).Some? {
        RunItemsAgrees(items[1..], index + 1, schema, ctx, path, frames);
      }
    }
  }

  // --- how many frames are enough ------------------------------------------------------

  function Height(y: Yaml): nat
    decreases y, 1
  {
    match y
    case List(items) => 1 + HeightOfItems(items)
    case Dict(entries) => 1 + HeightOfEntries(entries)
    case _ => 1
  }

  function HeightOfItems(items: seq<Yaml>): nat
    decreases items, 0
  {
    if items == [] then 0 else Max(Height(items[0]), HeightOfItems(items[1..]))
  }

  function HeightOfEntries(entries: seq<Entry>): nat
    decreases entries, 0
  {
    if entries == [] then 0 else Max(Height(entries[0].value), HeightOfEntries(entries[1..]))
  }

  function Max(a: nat, b: nat): nat {
    if a < b then b else a
  }

  // For each level of the instance, one frame for every reference text of the
  // schema and one for the node they lead to.
  function Frames(inst: Yaml, node: Yaml, ctx: Context): nat {
    Height(inst) * (|Strings(ctx.root) + Strings(node)| + 1)
  }

  lemma {:induction false} RunHops(inst: Yaml, node: Yaml, n: nat, last: Yaml, ctx: Context, path: Path, frames: nat)
    requires EndsAt(ctx.root, node, n, last) && n <= frames
    ensures Run(inst, node, ctx, path, frames) == Run(inst, last, ctx, path, frames - n)
    decreases n
  {
    if n > 0 {
      RunHops(inst, Follow(ctx.root, node).node, n - 1, last, ctx, path, frames - 1);
    }
  }

  lemma {:induction false} HopStrings(node: Yaml, n: nat, last: Yaml, ctx: Context)
    requires EndsAt(ctx.root, node, n, last)
    ensures Strings(last) <= Strings(ctx.root) + Strings(node)
    decreases n
  {
    if n > 0 {
      WalkStrings(ctx.root, Segments(RefOf(node)[2..]));
      HopStrings(Follow(ctx.root, node).node, n - 1, last, ctx);
    }
  }

  lemma RuleStrings(node: Yaml, key: string)
    requires node.Dict? && RuleFor(node, key).By?
    ensures Strings(RuleFor(node, key).schema) <= Strings(node)
  {
    LookupStrings(node.entries, "properties");
    LookupStrings(node.entries, "additionalProperties");
    if Get(node, "properties").Some? && Get(node, "properties").value.Dict? {
      LookupStrings(Get(node, "properties").value.entries, key);
    }
  }

  lemma KeywordStrings(node: Yaml, key: string)
    requires node.Dict? && Keyword(node, key).Some?
    ensures Strings(Keyword(node, key).value) <= Strings(node)
  {
    LookupStrings(node.entries, key);
  }

  // A level takes at most k frames from the budget of its height.
  lemma OneLevel(height: nat, k: nat, frames: nat, used: nat)
    requires height > 0 && frames >= height * k && used <= k
    ensures frames >= used && frames - used >= (height - 1) * k
  {
    assert height * k == (height - 1) * k + k;
  }

  lemma MoreHeight(height: nat, more: nat, k: nat)
    requires height <= more
    ensures height * k <= more * k
  {}

  // Within a chain that ends, every reference is one of the texts.
  lemma ChainFits(node: Yaml, ctx: Context, refs: set<string>) returns (n: nat, last: Yaml)
    requires Strings(ctx.root) + Strings(node) <= refs && Chase(ctx.root, node, {}).Some?
    ensures EndsAt(ctx.root, node, n, last) && Chase(ctx.root, node, {}) == Some(last)
    ensures n <= |refs| && Strings(ctx.root) + Strings(last) <= refs
  {
    ChaseDecides(ctx.root, node);
    last := Chase(ctx.root, node, {}).value;
    n :| EndsAt(ctx.root, node, n, last);
    SubsetCount(Strings(ctx.root) + Strings(node), refs);
    HopStrings(node, n, last, ctx);
  }

  lemma {:induction false} EnoughFrames(inst: Yaml, node: Yaml, ctx: Context, path: Path, refs: set<string>,
                                        frames: nat)
    requires Strings(ctx.root) + Strings(node) <= refs
    requires Validate(inst, node, ctx, path) != Diverges
    requires frames >= Height(inst) * (|refs| + 1)
    ensures Run(inst, node, ctx, path, frames).Some?
    decreases inst, 3
  {
    var n, last := ChainFits(node, ctx, refs);
    OneLevel(Height(inst), |refs| + 1, frames, n + 1);
    RunHops(inst, node, n, last, ctx, path, frames);
    if Follow(ctx.root, last).NotARef? {
      EnoughForNode(inst, last, ctx, path, refs, frames - n - 1);
    }
  }

  lemma {:induction false} EnoughForNode(inst: Yaml, node: Yaml, ctx: Context, path: Path, refs: set<string>,
                                         frames: nat)
    requires Strings(ctx.root) + Strings(node) <= refs
    requires ValidateNode(inst, node, ctx, path) != Diverges
    requires frames >= (Height(inst) - 1) * (|refs| + 1)
    ensures RunNode(inst, node, ctx, path, frames).Some?
    decreases inst, 2
  {
    if !node.Dict? || !LocalVerdict(inst, node, ctx.regex).Pass? {
    } else if Keyword(node, "type") == Some(Str("object")) && inst.Dict? {
      if RequiredKeywordVerdict(inst, Get(node, "required")).Pass? {
        EnoughForEntries(inst.entries, node, ctx, path, refs, frames);
      }
    } else if Keyword(node, "type") == Some(Str("array")) && inst.List? && Keyword(node, "items").Some? {
      if MinVerdict(inst, Keyword(node, "minItems")).Pass? {
        KeywordStrings(node, "items");
        EnoughForItems(inst.items, 0, Keyword(node, "items").value, ctx, path, refs, frames);
      }
    }
  }

  lemma {:induction false} EnoughForEntries(entries: seq<Entry>, node: Yaml, ctx: Context, path: Path,
                                            refs: set<string>, frames: nat)
    requires Strings(ctx.root) + Strings(node) <= refs && node.Dict?
    requires ValidateEntries(entries, node, ctx, path) != Diverges
    requires frames >= HeightOfEntries(entries) * (|refs| + 1)
    ensures RunEntries(entries, node, ctx, path, frames).Some?
    decreases entries, 1
  {
    if entries != [] {
      var rule := RuleFor(node, entries[0].key);
      var here := path + [Key(entries[0].key)];
      MoreHeight(Height(entries[0].value), HeightOfEntries(entries), |refs| + 1);
      MoreHeight(HeightOfEntries(entries[1..]), HeightOfEntries(entries), |refs| + 1);
      if rule.By? {
        RuleStrings(node, entries[0].key);
        EnoughFrames(entries[0].value, rule.schema, ctx, here, refs, frames);
        RunAgrees(entries[0].value, rule.schema, ctx, here, frames);
      }
      if rule.Free? || (rule.By? && Validate(entries[0].value, rule.schema, ctx, here) == Valid) {
        EnoughForEntries(entries[1..], node, ctx, path, refs, frames);
      }
    }
  }

  lemma {:induction false} EnoughForItems(items: seq<Yaml>, index: nat, schema: Yaml, ctx: Context, path: Path,
                                          refs: set<string>, frames: nat)
    requires Strings(ctx.root) + Strings(schema) <= refs
    requires ValidateItems(items, index, schema, ctx, path) != Diverges
    requires frames >= HeightOfItems(items) * (|refs| + 1)
    ensures RunItems(items, index, schema, ctx, path, frames).Some?
    decreases items, 1
  {
    if items != [] {
      var here := path + [Index(index)];
      MoreHeight(Height(items[0]), HeightOfItems(items), |refs| + 1);
      MoreHeight(HeightOfItems(items[1..]), HeightOfItems(items), |refs| + 1);
      EnoughFrames(items[0], schema, ctx, here, refs, frames);
      RunAgrees(items[0], schema, ctx, here, frames);
      if Validate(items[0], schema, ctx, here) == Valid {
        EnoughForItems(items[1..], index + 1, schema, ctx, path, refs, frames);
      }
    }
  }

  lemma ReturnsInFrames(inst: Yaml, node: Yaml, ctx: Context, path: Path, frames: nat)
    requires Validate(inst, node, ctx, path) != Diverges && frames >= Frames(inst, node, ctx)
    ensures Run(inst, node, ctx, path, frames) == Some(Validate(inst, node, ctx, path))
  {
    EnoughFrames(inst, node, ctx, path, Strings(ctx.root) + Strings(node), frames);
    RunAgrees(inst, node, ctx, path, frames);
  }

  ghost predicate NeverReturns(inst: Yaml, node: Yaml, ctx: Context, path: Path) {
    forall frames: nat :: Run(inst, node, ctx, path, frames).None?
  }

  lemma NeverReturnsMeansDiverges(inst: Yaml, node: Yaml, ctx: Context, path: Path)
    ensures NeverReturns(inst, node, ctx, path) <==> Validate(inst, node, ctx, path) == Diverges
  {
    if Validate(inst, node, ctx, path) == Diverges {
      forall frames: nat ensures Run(inst, node, ctx, path, frames).None? {
        if Run(inst, node, ctx, path, frames).Some? {
          RunAgrees(inst, node, ctx, path, frames);
        }
      }
    } else {
      ReturnsInFrames(inst, node, ctx, path, Frames(inst, node, ctx));
    }
  }

  // The validator returns what Validate says with Frames(..) frames or more, or
  // with no number of frames at all; it never returns exactly where Validate
  // says Diverges.
  lemma ReturnsOrNever(inst: Yaml, node: Yaml, ctx: Context, path: Path)
    ensures Validate(inst, node, ctx, path) == Diverges <==> NeverReturns(inst, node, ctx, path)
    ensures Validate(inst, node, ctx, path) != Diverges ==>
              forall frames: nat :: frames >= Frames(inst, node, ctx) ==>
                Run(inst, node, ctx, path, frames) == Some(Validate(inst, node, ctx, path))
  {
    NeverReturnsMeansDiverges(inst, node, ctx, path);
    if Validate(inst, node, ctx, path) != Diverges {
      forall frames: nat | frames >= Frames(inst, node, ctx)
        ensures Run(inst, node, ctx, path, frames) == Some(Validate(inst, node, ctx, path))
      {
        ReturnsInFrames(inst, node, ctx, path, frames);
      }
    }
  }

  // --- when the recursion has no end ------------------------------------------------------

  // The validator gets as far as calling itself on sub with the schema node
  // start: everything it checks before, on the way, holds.
  ghost predicate Enters(inst: Yaml, node: Yaml, ctx: Context, at: Path, sub: Yaml, start: Yaml)
    decreases |at|, 1
  {
    if at == [] then sub == inst && start == node
    else exists n: nat, last :: EntersThrough(inst, node, n, last, ctx, at, sub, start)
  }

  ghost predicate EntersThrough(inst: Yaml, node: Yaml, n: nat, last: Yaml, ctx: Context, at: Path, sub: Yaml,
                                start: Yaml)
    requires at != []
    decreases |at|, 0
  {
    && EndsAt(ctx.root, node, n, last) && Follow(ctx.root, last).NotARef?
    && last.Dict? && LocalHolds(inst, last, ctx)
    && match at[0]
       case Key(key) =>
         && inst.Dict? && Keyword(last, "type") == Some(Str("object")) && RequiredHolds(inst, last)
         && RuleFor(last, key).By?
         && exists i :: EntersAt(inst.entries, i, key, last, ctx)
              && Enters(inst.entries[i].value, RuleFor(last, key).schema, ctx, at[1..], sub, start)
       case Index(index) =>
         && inst.List? && Keyword(last, "type") == Some(Str("array"))
         && MinVerdict(inst, Keyword(last, "minItems")).Pass?
         && Keyword(last, "items").Some? && index < |inst.items|
         && (forall j :: 0 <= j < index ==> Conforms(inst.items[j], Keyword(last, "items").value, ctx))
         && Enters(inst.items[index], Keyword(last, "items").value, ctx, at[1..], sub, start)
  }

  // The i-th entry has the key, and those before it conform.
  ghost predicate EntersAt(entries: seq<Entry>, i: int, key: string, node: Yaml, ctx: Context) {
    && 0 <= i < |entries| && entries[i].key == key
    && forall j :: 0 <= j < i ==> EntryConforms(entries[j], node, ctx)
  }

  lemma RequiredHoldsPasses(inst: Yaml, node: Yaml)
    ensures RequiredKeywordVerdict(inst, Get(node, "required")).Pass? <==> RequiredHolds(inst, node)
  {
    var required := Get(node, "required");
    if required.Some? && required.value.List? {
      RequiredPasses(inst, required.value.items);
    }
  }

  lemma EntersKey(inst: Yaml, node: Yaml, n: nat, last: Yaml, ctx: Context, i: nat, at: Path, sub: Yaml, start: Yaml)
    requires EndsAt(ctx.root, node, n, last) && Follow(ctx.root, last).NotARef?
    requires last.Dict? && LocalHolds(inst, last, ctx)
    requires inst.Dict? && Keyword(last, "type") == Some(Str("object")) && RequiredHolds(inst, last)
    requires i < |inst.entries| && RuleFor(last, inst.entries[i].key).By?
    requires forall j :: 0 <= j < i ==> EntryConforms(inst.entries[j], last, ctx)
    requires Enters(inst.entries[i].value, RuleFor(last, inst.entries[i].key).schema, ctx, at, sub, start)
    ensures Enters(inst, node, ctx, [Key(inst.entries[i].key)] + at, sub, start)
  {
    var key := inst.entries[i].key;
    assert ([Key(key)] + at)[1..] == at;
    assert EntersAt(inst.entries, i, key, last, ctx);
    assert EntersThrough(inst, node, n, last, ctx, [Key(key)] + at, sub, start);
  }

  lemma EntersIndex(inst: Yaml, node: Yaml, n: nat, last: Yaml, ctx: Context, i: nat, at: Path, sub: Yaml, start: Yaml)
    requires EndsAt(ctx.root, node, n, last) && Follow(ctx.root, last).NotARef?
    requires last.Dict? && LocalHolds(inst, last, ctx)
    requires inst.List? && Keyword(last, "type") == Some(Str("array"))
    requires MinVerdict(inst, Keyword(last, "minItems")).Pass?
    requires Keyword(last, "items").Some? && i < |inst.items|
    requires forall j :: 0 <= j < i ==> Conforms(inst.items[j], Keyword(last, "items").value, ctx)
    requires Enters(inst.items[i], Keyword(last, "items").value, ctx, at, sub, start)
    ensures Enters(inst, node, ctx, [Index(i)] + at, sub, start)
  {
    assert ([Index(i)] + at)[1..] == at;
    assert EntersThrough(inst, node, n, last, ctx, [Index(i)] + at, sub, start);
  }

  lemma {:induction false} FirstEndlessEntry(entries: seq<Entry>, node: Yaml, ctx: Context, path: Path)
    returns (i: nat)
    requires ValidateEntries(entries, node, ctx, path) == Diverges
    ensures i < |entries| && RuleFor(node, entries[i].key).By?
    ensures Validate(entries[i].value, RuleFor(node, entries[i].key).schema, ctx, path + [Key(entries[i].key)])
         == Diverges
    ensures forall j :: 0 <= j < i ==> EntryConforms(entries[j], node, ctx)
  {
    var rule := RuleFor(node, entries[0].key);
    var here := path + [Key(entries[0].key)];
    if rule.By? {
      ValidIffConforms(entries[0].value, rule.schema, ctx, here);
    }
    if rule.By? && Validate(entries[0].value, rule.schema, ctx, here) == Diverges {
      i := 0;
    } else {
      var k := FirstEndlessEntry(entries[1..], node, ctx, path);
      i := k + 1;
      forall j | 0 <= j < i ensures EntryConforms(entries[j], node, ctx) {
        if j > 0 {
          assert entries[j] == entries[1..][j - 1];
        }
      }
    }
  }

  lemma {:induction false} FirstEndlessItem(items: seq<Yaml>, index: nat, schema: Yaml, ctx: Context, path: Path)
    returns (i: nat)
    requires ValidateItems(items, index, schema, ctx, path) == Diverges
    ensures i < |items| && Validate(items[i], schema, ctx, path + [Index(index + i)]) == Diverges
    ensures forall j :: 0 <= j < i ==> Conforms(items[j], schema, ctx)
  {
    ValidIffConforms(items[0], schema, ctx, path + [Index(index)]);
    if Validate(items[0], schema, ctx, path + [Index(index)]) == Diverges {
      i := 0;
    } else {
      var k := FirstEndlessItem(items[1..], index + 1, schema, ctx, path);
      i := k + 1;
      forall j | 0 <= j < i ensures Conforms(items[j], schema, ctx) {
        if j > 0 {
          assert items[j] == items[1..][j - 1];
        }
      }
    }
  }

  // A run without end gets to a chain of references without end.
  lemma {:induction false} EndlessEnters(inst: Yaml, node: Yaml, ctx: Context, path: Path)
    returns (at: Path, sub: Yaml, start: Yaml)
    requires Validate(inst, node, ctx, path) == Diverges
    ensures Enters(inst, node, ctx, at, sub, start) && Chase(ctx.root, start, {}).None?
    decreases inst, 1
  {
    ChaseDecides(ctx.root, node);
    if Chase(ctx.root, node, {}).None? {
      at, sub, start := [], inst, node;
    } else {
      var last := Chase(ctx.root, node, {}).value;
      var n: nat :| EndsAt(ctx.root, node, n, last);
      at, sub, start := EndlessNodeEnters(inst, node, n, last, ctx, path);
    }
  }

  lemma {:induction false} EndlessNodeEnters(inst: Yaml, node: Yaml, n: nat, last: Yaml, ctx: Context, path: Path)
    returns (at: Path, sub: Yaml, start: Yaml)
    requires EndsAt(ctx.root, node, n, last) && Follow(ctx.root, last).NotARef?
    requires ValidateNode(inst, last, ctx, path) == Diverges
    ensures Enters(inst, node, ctx, at, sub, start) && Chase(ctx.root, start, {}).None?
    decreases inst, 0
  {
    LocalPasses(inst, last, ctx);
    if Keyword(last, "type") == Some(Str("object")) {
      RequiredHoldsPasses(inst, last);
      var i := FirstEndlessEntry(inst.entries, last, ctx, path);
      var key := inst.entries[i].key;
      var rest;
      rest, sub, start := EndlessEnters(inst.entries[i].value, RuleFor(last, key).schema, ctx, path + [Key(key)]);
      EntersKey(inst, node, n, last, ctx, i, rest, sub, start);
      at := [Key(key)] + rest;
    } else {
      var schema := Keyword(last, "items").value;
      var i := FirstEndlessItem(inst.items, 0, schema, ctx, path);
      var rest;
      rest, sub, start := EndlessEnters(inst.items[i], schema, ctx, path + [Index(i)]);
      EntersIndex(inst, node, n, last, ctx, i, rest, sub, start);
      at := [Index(i)] + rest;
    }
  }

  lemma {:induction false} PastConformingEntries(entries: seq<Entry>, i: nat, node: Yaml, ctx: Context, path: Path)
    requires i < |entries| && RuleFor(node, entries[i].key).By?
    requires forall j :: 0 <= j < i ==> EntryConforms(entries[j], node, ctx)
    requires Validate(entries[i].value, RuleFor(node, entries[i].key).schema, ctx, path + [Key(entries[i].key)])
          == Diverges
    ensures ValidateEntries(entries, node, ctx, path) == Diverges
  {
    if i > 0 {
      var rule := RuleFor(node, entries[0].key);
      assert EntryConforms(entries[0], node, ctx);
      if rule.By? {
        ValidIffConforms(entries[0].value, rule.schema, ctx, path + [Key(entries[0].key)]);
      }
      forall j | 0 <= j < i - 1 ensures EntryConforms(entries[1..][j], node, ctx) {
        assert entries[1..][j] == entries[j + 1];
      }
      PastConformingEntries(entries[1..], i - 1, node, ctx, path);
    }
  }

  lemma {:induction false} PastConformingItems(items: seq<Yaml>, i: nat, index: nat, schema: Yaml, ctx: Context,
                                               path: Path)
    requires i < |items| && Validate(items[i], schema, ctx, path + [Index(index + i)]) == Diverges
    requires forall j :: 0 <= j < i ==> Conforms(items[j], schema, ctx)
    ensures ValidateItems(items, index, schema, ctx, path) == Diverges
  {
    if i > 0 {
      ValidIffConforms(items[0], schema, ctx, path + [Index(index)]);
      forall j | 0 <= j < i - 1 ensures Conforms(items[1..][j], schema, ctx) {
        assert items[1..][j] == items[j + 1];
      }
      PastConformingItems(items[1..], i - 1, index + 1, schema, ctx, path);
    }
  }

  lemma EndlessInside(inst: Yaml, node: Yaml, n: nat, last: Yaml, ctx: Context, path: Path)
    requires EndsAt(ctx.root, node, n, last) && Follow(ctx.root, last).NotARef?
    requires last.Dict? && LocalHolds(inst, last, ctx)
    requires
      || (Keyword(last, "type") == Some(Str("object")) && inst.Dict? && RequiredHolds(inst, last)
          && ValidateEntries(inst.entries, last, ctx, path) == Diverges)
      || (Keyword(last, "type") == Some(Str("array")) && inst.List?
          && MinVerdict(inst, Keyword(last, "minItems")).Pass? && Keyword(last, "items").Some?
          && ValidateItems(inst.items, 0, Keyword(last, "items").value, ctx, path) == Diverges)
    ensures Validate(inst, node, ctx, path) == Diverges
  {
    ChaseDecides(ctx.root, node);
    LocalPasses(inst, last, ctx);
    RequiredHoldsPasses(inst, last);
  }

  // A run that gets to such a chain has no end.
  lemma {:induction false} EnteringIsEndless(inst: Yaml, node: Yaml, ctx: Context, path: Path, at: Path, sub: Yaml,
                                             start: Yaml)
    requires Enters(inst, node, ctx, at, sub, start) && Chase(ctx.root, start, {}).None?
    ensures Validate(inst, node, ctx, path) == Diverges
    decreases |at|, 1
  {
    if at != [] {
      var n: nat, last :| EntersThrough(inst, node, n, last, ctx, at, sub, start);
      if at[0].Key? {
        EnteringKeyIsEndless(inst, node, n, last, ctx, path, at, sub, start);
      } else {
        EnteringIndexIsEndless(inst, node, n, last, ctx, path, at, sub, start);
      }
    }
  }

  lemma {:induction false} EnteringKeyIsEndless(inst: Yaml, node: Yaml, n: nat, last: Yaml, ctx: Context, path: Path,
                                                at: Path, sub: Yaml, start: Yaml)
    requires at != [] && at[0].Key? && EntersThrough(inst, node, n, last, ctx, at, sub, start)
    requires Chase(ctx.root, start, {}).None?
    ensures Validate(inst, node, ctx, path) == Diverges
    decreases |at|, 0
  {
    var key := at[0].key;
    var schema := RuleFor(last, key).schema;
    var i :| EntersAt(inst.entries, i, key, last, ctx)
             && Enters(inst.entries[i].value, schema, ctx, at[1..], sub, start);
    EnteringIsEndless(inst.entries[i].value, schema, ctx, path + [Key(key)], at[1..], sub, start);
    PastConformingEntries(inst.entries, i, last, ctx, path);
    EndlessInside(inst, node, n, last, ctx, path);
  }

  lemma {:induction false} EnteringIndexIsEndless(inst: Yaml, node: Yaml, n: nat, last: Yaml, ctx: Context,
                                                  path: Path, at: Path, sub: Yaml, start: Yaml)
    requires at != [] && at[0].Index? && EntersThrough(inst, node, n, last, ctx, at, sub, start)
    requires Chase(ctx.root, start, {}).None?
    ensures Validate(inst, node, ctx, path) == Diverges
    decreases |at|, 0
  {
    var index, schema := at[0].index, Keyword(last, "items").value;
    EnteringIsEndless(inst.items[index], schema, ctx, path + [Index(index)], at[1..], sub, start);
    PastConformingItems(inst.items, index, 0, schema, ctx, path);
    EndlessInside(inst, node, n, last, ctx, path);
  }

  // Exactly when the validator never returns: checking in its own order, with
  // everything before in order, it comes to a chain of references that never
  // ends. A cycle of references it does not come to does no harm.
  lemma NeverReturnsIff(inst: Yaml, node: Yaml, ctx: Context, path: Path)
    ensures NeverReturns(inst, node, ctx, path) <==>
              exists at, sub, start :: EntersEndless(inst, node, ctx, at, sub, start)
  {
    NeverReturnsMeansDiverges(inst, node, ctx, path);
    if Validate(inst, node, ctx, path) == Diverges {
      var at, sub, start := EndlessEnters(inst, node, ctx, path);
      ChaseDecides(ctx.root, start);
      assert EntersEndless(inst, node, ctx, at, sub, start);
    }
    if at, sub, start :| EntersEndless(inst, node, ctx, at, sub, start) {
      ChaseDecides(ctx.root, start);
      EnteringIsEndless(inst, node, ctx, path, at, sub, start);
    }
  }

  ghost predicate EntersEndless(inst: Yaml, node: Yaml, ctx: Context, at: Path, sub: Yaml, start: Yaml) {
    Enters(inst, node, ctx, at, sub, start) && forall n: nat, last :: !EndsAt(ctx.root, start, n, last)
  }

  lemma {:induction false} EnteringReaches(inst: Yaml, node: Yaml, ctx: Context, at: Path, sub: Yaml, start: Yaml)
    requires Enters(inst, node, ctx, at, sub, start)
    ensures Reaches(inst, node, ctx, at, sub, start)
    decreases |at|, 1
  {
    if at != [] {
      var n: nat, last :| EntersThrough(inst, node, n, last, ctx, at, sub, start);
      if at[0].Key? {
        EnteringKeyReaches(inst, node, n, last, ctx, at, sub, start);
      } else {
        EnteringIndexReaches(inst, node, n, last, ctx, at, sub, start);
      }
    }
  }

  lemma {:induction false} EnteringKeyReaches(inst: Yaml, node: Yaml, n: nat, last: Yaml, ctx: Context, at: Path,
                                              sub: Yaml, start: Yaml)
    requires at != [] && at[0].Key? && EntersThrough(inst, node, n, last, ctx, at, sub, start)
    ensures Reaches(inst, node, ctx, at, sub, start)
    decreases |at|, 0
  {
    var key := at[0].key;
    var schema := RuleFor(last, key).schema;
    var i :| EntersAt(inst.entries, i, key, last, ctx)
             && Enters(inst.entries[i].value, schema, ctx, at[1..], sub, start);
    EnteringReaches(inst.entries[i].value, schema, ctx, at[1..], sub, start);
    ReachesKey(inst, node, n, last, ctx, i, at[1..], sub, start);
    assert [Key(key)] + at[1..] == at;
  }

  lemma {:induction false} EnteringIndexReaches(inst: Yaml, node: Yaml, n: nat, last: Yaml, ctx: Context, at: Path,
                                                sub: Yaml, start: Yaml)
    requires at != [] && at[0].Index? && EntersThrough(inst, node, n, last, ctx, at, sub, start)
    ensures Reaches(inst, node, ctx, at, sub, start)
    decreases |at|, 0
  {
    var index := at[0].index;
    EnteringReaches(inst.items[index], Keyword(last, "items").value, ctx, at[1..], sub, start);
    ReachesIndex(inst, node, n, last, ctx, index, at[1..], sub, start);
    assert [Index(index)] + at[1..] == at;
  }

  // When every schema node the instance can lead the validator to has a chain
  // of references that ends, validation returns, and within Frames(..) frames.
  lemma EndsMeansReturns(inst: Yaml, node: Yaml, ctx: Context, path: Path)
    requires forall at, sub, start :: Reaches(inst, node, ctx, at, sub, start) ==>
               exists n: nat, last :: EndsAt(ctx.root, start, n, last)
    ensures Run(inst, node, ctx, path, Frames(inst, node, ctx)) == Some(Validate(inst, node, ctx, path))
    ensures Validate(inst, node, ctx, path) != Diverges
  {
    if Validate(inst, node, ctx, path) == Diverges {
      var at, sub, start := EndlessEnters(inst, node, ctx, path);
      EnteringReaches(inst, node, ctx, at, sub, start);
      ChaseDecides(ctx.root, start);
      assert false;
    }
    ReturnsInFrames(inst, node, ctx, path, Frames(inst, node, ctx));
  }

  // The smallest such schema: a definition that refers to itself.
  function SelfReference(): Yaml {
    Dict([Entry("$ref", Str("#/a"))])
  }

  function SelfReferring(): Yaml {
    Dict([Entry("a", SelfReference())])
  }

  lemma SelfReferenceFollows()
    ensures Follow(SelfReferring(), SelfReference()) == To(SelfReference())
  {
    assert "#/a"[2..] == "a" && "a"[1..] == "";
    assert Segments("") == [""] && [""][1..] == [];
    assert Segments("a") == [['a'] + ""] + [] && ['a'] + "" == "a";
    assert Segments("a") == ["a"];
    assert ["a"][1..] == [];
    assert Walk(SelfReferring(), ["a"]) == Some(SelfReference());
  }

  lemma {:induction false} SelfReferenceNeverReturns(inst: Yaml, ctx: Context, path: Path, frames: nat)
    requires ctx.root == SelfReferring()
    ensures Run(inst, SelfReference(), ctx, path, frames).None?
    decreases frames
  {
    SelfReferenceFollows();
    if frames > 0 {
      SelfReferenceNeverReturns(inst, ctx, path, frames - 1);
    }
  }
}
