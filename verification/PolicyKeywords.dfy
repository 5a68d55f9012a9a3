// What the keywords of a schema mean, read off the entries of the schema node
// itself.
module PolicyKeywords {
  import opened PathSegments
  import opened Wrappers
  import opened PolicySchema

  // --- properties and additionalProperties ------------------------------------------

  // A node of type object without $ref, whose properties, if any, are a mapping.
  predicate IsObjectSchema(node: Yaml) {
    && node.Dict? && Get(node, "$ref").None? && Get(node, "type") == Some(Str("object"))
    && (Get(node, "properties").None? || Get(node, "properties").value.Dict?)
  }

  function DeclaredSchema(node: Yaml, key: string): Option<Yaml> {
    match Get(node, "properties")
    case Some(Dict(properties)) => Lookup(properties, key)
    case _ => None
  }

  // A declared key needs a value of its own schema; an undeclared one is
  // forbidden by false, governed by a mapping, and free otherwise.
  ghost predicate EntryAllowed(e: Entry, node: Yaml, ctx: Context) {
    match DeclaredSchema(node, e.key)
    case Some(schema) => Conforms(e.value, schema, ctx)
    case None =>
      && Get(node, "additionalProperties") != Some(Bool(false))
      && (Get(node, "additionalProperties").Some? && Get(node, "additionalProperties").value.Dict? ==>
            Conforms(e.value, Get(node, "additionalProperties").value, ctx))
  }

  lemma ConformsWithoutRef(inst: Yaml, node: Yaml, ctx: Context)
    requires Get(node, "$ref").None?
    ensures Conforms(inst, node, ctx) <==> node.Dict? && Satisfies(inst, node, ctx)
  {
    assert EndsAt(ctx.root, node, 0, node);
    forall n: nat, last | EndsAt(ctx.root, node, n, last) ensures last == node {
      EndUnique(ctx.root, node, 0, node, n, last);
    }
  }

  lemma AllowedIs(e: Entry, node: Yaml, ctx: Context)
    requires IsObjectSchema(node)
    ensures EntryConforms(e, node, ctx) <==> EntryAllowed(e, node, ctx)
  {}

  // An object passes exactly when its own checks hold and every entry is allowed.
  lemma ObjectPassesIff(inst: Yaml, node: Yaml, ctx: Context, path: Path)
    requires IsObjectSchema(node)
    ensures Validate(inst, node, ctx, path) == Valid <==>
              && inst.Dict? && LocalHolds(inst, node, ctx) && RequiredHolds(inst, node)
              && forall i :: 0 <= i < |inst.entries| ==> EntryAllowed(inst.entries[i], node, ctx)
  {
    ValidIffConforms(inst, node, ctx, path);
    ConformsWithoutRef(inst, node, ctx);
    if inst.Dict? {
      forall i | 0 <= i < |inst.entries|
        ensures EntryConforms(inst.entries[i], node, ctx) <==> EntryAllowed(inst.entries[i], node, ctx)
      {
        AllowedIs(inst.entries[i], node, ctx);
      }
      SatisfiesEntries(inst, node, ctx);
    }
  }

  lemma SatisfiesEntries(inst: Yaml, node: Yaml, ctx: Context)
    requires IsObjectSchema(node) && inst.Dict?
    ensures Satisfies(inst, node, ctx) <==>
              && LocalHolds(inst, node, ctx) && RequiredHolds(inst, node)
              && forall i :: 0 <= i < |inst.entries| ==> EntryConforms(inst.entries[i], node, ctx)
  {}

  // With additionalProperties: false a valid object has declared keys only.
  lemma ClosedObject(inst: Yaml, node: Yaml, ctx: Context, path: Path, i: nat)
    requires IsObjectSchema(node) && Get(node, "additionalProperties") == Some(Bool(false))
    requires Validate(inst, node, ctx, path) == Valid && inst.Dict? && i < |inst.entries|
    ensures DeclaredSchema(node, inst.entries[i].key).Some?
  {
    ObjectPassesIff(inst, node, ctx, path);
    assert EntryAllowed(inst.entries[i], node, ctx);
  }

  // An error below an object names a key that is declared, or forbidden by
  // false, or governed by a mapping: a free key is never blamed.
  lemma BlamedKey(inst: Yaml, node: Yaml, ctx: Context, path: Path) returns (i: nat)
    requires IsObjectSchema(node) && inst.Dict? && LocalHolds(inst, node, ctx) && RequiredHolds(inst, node)
    requires Validate(inst, node, ctx, path).Invalid?
    ensures i < |inst.entries|
    ensures var key := inst.entries[i].key;
            var Invalid(full, problem) := Validate(inst, node, ctx, path);
            && |full| > |path| && full[..|path|] == path && full[|path|] == Key(key)
            && (DeclaredSchema(node, key).None? ==>
                  || (Get(node, "additionalProperties") == Some(Bool(false)) && full == path + [Key(key)]
                      && problem == NotAllowed)
                  || (Get(node, "additionalProperties").Some? && Get(node, "additionalProperties").value.Dict?))
  {
    assert Chase(ctx.root, node, {}) == Some(node);
    LocalPasses(inst, node, ctx);
    RequiredKeywordPasses(inst, node);
    i := FirstBadEntry(inst.entries, node, ctx, path);
    var key := inst.entries[i].key;
    var rule := RuleFor(node, key);
    if rule.By? {
      var sub, governing := ErrorNamesViolation(inst.entries[i].value, rule.schema, ctx, path + [Key(key)]);
      StepInto(Key(key), Validate(inst, node, ctx, path).path, path);
    }
  }

  lemma RequiredKeywordPasses(inst: Yaml, node: Yaml)
    ensures RequiredKeywordVerdict(inst, Get(node, "required")).Pass? <==> RequiredHolds(inst, node)
  {
    var required := Get(node, "required");
    if required.Some? && required.value.List? {
      RequiredPasses(inst, required.value.items);
    }
  }

  // --- type and enum ----------------------------------------------------------------

  // The types a value has.
  function TypesOf(y: Yaml): set<string> {
    match y
    case Null => {}
    case Bool(_) => {"boolean"}
    case Int(_) => {"integer", "number"}
    case Float(_) => {"number"}
    case Str(_) => {"string"}
    case List(_) => {"array"}
    case Dict(_) => {"object"}
  }

  lemma TypeChecked(inst: Yaml, node: Yaml, ctx: Context, name: string)
    requires Get(node, "type") == Some(Str(name)) && Get(node, "enum").None? && Get(node, "pattern").None?
    ensures LocalHolds(inst, node, ctx) <==> name in TypesOf(inst)
  {}

  // A node that gives no type, or null for it, takes values of all types.
  lemma NoTypeChecked(inst: Yaml, node: Yaml, ctx: Context)
    requires Get(node, "type").None? || Get(node, "type") == Some(Null)
    requires Get(node, "enum").None? && Get(node, "pattern").None?
    ensures LocalHolds(inst, node, ctx)
  {}

  // Python's equality: numbers by value, with true as 1 and false as 0; texts
  // and lists by content; never between a number and anything else.
  lemma EqualityIs(b: bool, i: int, j: int, x: real, s: string, t: string, v: seq<Yaml>, w: seq<Yaml>)
    ensures PyEqual(Int(i), Int(j)) <==> i == j
    ensures PyEqual(Int(i), Float(x)) <==> i as real == x
    ensures PyEqual(Bool(b), Int(i)) <==> i == if b then 1 else 0
    ensures PyEqual(Str(s), Str(t)) <==> s == t
    ensures PyEqual(Null, Null) && !PyEqual(Null, Bool(false)) && !PyEqual(Int(0), Null)
    ensures !PyEqual(Str(s), Int(i)) && !PyEqual(Int(i), Str(s)) && !PyEqual(Str(s), Null) && !PyEqual(Null, Str(s))
    ensures !PyEqual(List(v), Str(s)) && !PyEqual(Str(s), List(v)) && !PyEqual(List(v), Int(i))
    ensures PyEqual(List(v), List(w)) <==> |v| == |w| && forall k :: 0 <= k < |v| ==> PyEqual(v[k], w[k])
  {}

  // Mappings with distinct keys are equal when they have the same keys with
  // equal values, in any order.
  lemma MappingEqualityIs(a: seq<Entry>, b: seq<Entry>)
    requires forall i, j :: 0 <= i < j < |a| ==> a[i].key != a[j].key
    requires forall i, j :: 0 <= i < j < |b| ==> b[i].key != b[j].key
    ensures PyEqual(Dict(a), Dict(b)) <==>
              |a| == |b| && forall i :: 0 <= i < |a| ==> HasEqual(b, a[i])
  {
    forall i | 0 <= i < |a|
      ensures FoundEqual(Dict(b), a[i]) <==> HasEqual(b, a[i])
    {
      LookupIs(b, a[i].key);
    }
    assert PyEqual(Dict(a), Dict(b)) <==> |a| == |b| && forall i :: 0 <= i < |a| ==> FoundEqual(Dict(b), a[i]);
  }

  predicate FoundEqual(b: Yaml, e: Entry) {
    Get(b, e.key).Some? && PyEqual(e.value, Get(b, e.key).value)
  }

  ghost predicate HasEqual(b: seq<Entry>, e: Entry) {
    exists j :: 0 <= j < |b| && b[j].key == e.key && PyEqual(e.value, b[j].value)
  }

  // Looking up a key finds the value it has.
  lemma {:induction false} LookupIs(entries: seq<Entry>, key: string)
    requires forall i, j :: 0 <= i < j < |entries| ==> entries[i].key != entries[j].key
    ensures forall i :: 0 <= i < |entries| && entries[i].key == key ==> Lookup(entries, key) == Some(entries[i].value)
    ensures Lookup(entries, key).None? <==> forall i :: 0 <= i < |entries| ==> entries[i].key != key
  {
    if entries != [] {
      LookupIs(entries[1..], key);
      assert forall i :: 1 <= i < |entries| ==> entries[i] == entries[1..][i - 1];
    }
  }

  // --- which problem is reported ---------------------------------------------------------

  lemma DirectNode(inst: Yaml, node: Yaml, ctx: Context, path: Path)
    requires node.Dict? && Get(node, "$ref").None?
    ensures Validate(inst, node, ctx, path) == ValidateNode(inst, node, ctx, path)
  {
    assert Chase(ctx.root, node, {}) == Some(node);
  }

  predicate HasTypeName(inst: Yaml, node: Yaml) {
    Get(node, "type").None? || (Get(node, "type").value.Str? && Get(node, "type").value.s in TypesOf(inst))
  }

  // A wrong type is reported before anything else.
  lemma TypeIsFirst(inst: Yaml, node: Yaml, ctx: Context, path: Path, name: string)
    requires node.Dict? && Get(node, "$ref").None? && Get(node, "type") == Some(Str(name))
    requires name !in TypesOf(inst)
    ensures Validate(inst, node, ctx, path) == Invalid(path,
              if name in {"object", "array", "string", "boolean", "number", "integer"} then WrongType
              else UnsupportedType)
  {
    DirectNode(inst, node, ctx, path);
  }

  // Then a value that is not listed, then a pattern that is not matched.
  lemma EnumIsNext(inst: Yaml, node: Yaml, ctx: Context, path: Path, allowed: seq<Yaml>)
    requires node.Dict? && Get(node, "$ref").None? && HasTypeName(inst, node)
    requires Get(node, "enum") == Some(List(allowed))
    requires forall i :: 0 <= i < |allowed| ==> !PyEqual(inst, allowed[i])
    ensures Validate(inst, node, ctx, path) == Invalid(path, NotInEnum)
  {
    DirectNode(inst, node, ctx, path);
  }

  lemma PatternIsNext(inst: Yaml, node: Yaml, ctx: Context, path: Path, pattern: string)
    requires node.Dict? && Get(node, "$ref").None? && HasTypeName(inst, node)
    requires Get(node, "enum").None? && Get(node, "pattern") == Some(Str(pattern))
    requires !inst.Str? || ctx.regex(pattern, inst.s) == Some(false)
    ensures Validate(inst, node, ctx, path) == Invalid(path, NoMatch)
  {
    DirectNode(inst, node, ctx, path);
  }

  // Then the first required key that is missing, in the order of the schema.
  lemma RequiredIsNext(inst: Yaml, node: Yaml, ctx: Context, path: Path, names: seq<Yaml>, k: nat)
    requires node.Dict? && Get(node, "$ref").None? && Get(node, "type") == Some(Str("object"))
    requires inst.Dict? && LocalHolds(inst, node, ctx) && Get(node, "required") == Some(List(names))
    requires k < |names| && names[k].Str? && Get(inst, names[k].s).None?
    requires forall i :: 0 <= i < k ==> names[i].Str? && Get(inst, names[i].s).Some?
    ensures Validate(inst, node, ctx, path) == Invalid(path, Missing(names[k].s))
  {
    DirectNode(inst, node, ctx, path);
    LocalPasses(inst, node, ctx);
    MissingIs(inst, names, k);
  }

  lemma {:induction false} MissingIs(inst: Yaml, names: seq<Yaml>, k: nat)
    requires k < |names| && names[k].Str? && Get(inst, names[k].s).None?
    requires forall i :: 0 <= i < k ==> names[i].Str? && Get(inst, names[i].s).Some?
    ensures RequiredVerdict(inst, names) == Fail(Missing(names[k].s))
  {
    if k > 0 {
      MissingIs(inst, names[1..], k - 1);
    }
  }

  function EntryOutcome(e: Entry, node: Yaml, ctx: Context, path: Path): Outcome {
    var here := path + [Key(e.key)];
    var declared, additional := DeclaredSchema(node, e.key), Get(node, "additionalProperties");
    if declared.Some? then Validate(e.value, declared.value, ctx, here)
    else if additional == Some(Bool(false)) then Invalid(here, NotAllowed)
    else if additional.Some? && additional.value.Dict? then Validate(e.value, additional.value, ctx, here)
    else Valid
  }

  // Then the first entry, in the order of the instance, that is not allowed: a
  // forbidden key as such, any other with the problem of its value.
  lemma FirstEntryDecides(inst: Yaml, node: Yaml, ctx: Context, path: Path, i: nat)
    requires IsObjectSchema(node) && inst.Dict? && LocalHolds(inst, node, ctx) && RequiredHolds(inst, node)
    requires i < |inst.entries| && !EntryAllowed(inst.entries[i], node, ctx)
    requires forall j :: 0 <= j < i ==> EntryAllowed(inst.entries[j], node, ctx)
    ensures Validate(inst, node, ctx, path) == EntryOutcome(inst.entries[i], node, ctx, path)
  {
    DirectNode(inst, node, ctx, path);
    LocalPasses(inst, node, ctx);
    RequiredKeywordPasses(inst, node);
    forall j | 0 <= j <= i
      ensures EntryConforms(inst.entries[j], node, ctx) <==> EntryAllowed(inst.entries[j], node, ctx)
    {
      AllowedIs(inst.entries[j], node, ctx);
    }
    SkipEntries(inst.entries, node, ctx, path, i);
    EntryDecides(inst.entries[i..], node, ctx, path);
  }

  lemma {:induction false} SkipEntries(entries: seq<Entry>, node: Yaml, ctx: Context, path: Path, i: nat)
    requires i <= |entries| && forall j :: 0 <= j < i ==> EntryConforms(entries[j], node, ctx)
    ensures ValidateEntries(entries, node, ctx, path) == ValidateEntries(entries[i..], node, ctx, path)
    decreases |entries|
  {
    if i == 0 {
      assert entries[0..] == entries;
    } else {
      var rule := RuleFor(node, entries[0].key);
      if rule.By? {
        ValidIffConforms(entries[0].value, rule.schema, ctx, path + [Key(entries[0].key)]);
      }
      assert forall j :: 0 <= j < i - 1 ==> entries[1..][j] == entries[j + 1];
      SkipEntries(entries[1..], node, ctx, path, i - 1);
      assert entries[1..][i - 1..] == entries[i..];
    }
  }

  lemma EntryDecides(entries: seq<Entry>, node: Yaml, ctx: Context, path: Path)
    requires IsObjectSchema(node) && entries != [] && !EntryConforms(entries[0], node, ctx)
    ensures ValidateEntries(entries, node, ctx, path) == EntryOutcome(entries[0], node, ctx, path)
  {
    var rule := RuleFor(node, entries[0].key);
    if rule.By? {
      ValidIffConforms(entries[0].value, rule.schema, ctx, path + [Key(entries[0].key)]);
    }
  }

  // Of an array, too few items come first, and then the first bad item.
  lemma ItemsInOrder(inst: Yaml, node: Yaml, ctx: Context, path: Path, least: int, schema: Yaml, i: nat)
    requires node.Dict? && Get(node, "$ref").None? && Get(node, "type") == Some(Str("array"))
    requires inst.List? && LocalHolds(inst, node, ctx) && Get(node, "minItems") == Some(Int(least))
    requires Get(node, "items") == Some(schema) && !schema.Null?
    ensures |inst.items| < least ==> Validate(inst, node, ctx, path) == Invalid(path, TooFew)
    ensures |inst.items| >= least && i < |inst.items| && !Conforms(inst.items[i], schema, ctx)
            && (forall j :: 0 <= j < i ==> Conforms(inst.items[j], schema, ctx)) ==>
              Validate(inst, node, ctx, path) == Validate(inst.items[i], schema, ctx, path + [Index(i)])
  {
    DirectNode(inst, node, ctx, path);
    LocalPasses(inst, node, ctx);
    if i < |inst.items| && !Conforms(inst.items[i], schema, ctx)
       && forall j :: 0 <= j < i ==> Conforms(inst.items[j], schema, ctx) {
      forall j | 0 <= j <= i
        ensures Validate(inst.items[j], schema, ctx, path + [Index(0 + j)]) == Valid <==>
                  Conforms(inst.items[j], schema, ctx)
      {
        ValidIffConforms(inst.items[j], schema, ctx, path + [Index(0 + j)]);
      }
      BadItemIs(inst.items, 0, schema, ctx, path, i);
    }
  }

  lemma {:induction false} BadItemIs(items: seq<Yaml>, index: nat, schema: Yaml, ctx: Context, path: Path, i: nat)
    requires i < |items| && Validate(items[i], schema, ctx, path + [Index(index + i)]) != Valid
    requires forall j :: 0 <= j < i ==> Validate(items[j], schema, ctx, path + [Index(index + j)]) == Valid
    ensures ValidateItems(items, index, schema, ctx, path)
         == Validate(items[i], schema, ctx, path + [Index(index + i)])
    decreases |items|
  {
    if i > 0 {
      assert Validate(items[0], schema, ctx, path + [Index(index + 0)]) == Valid;
      forall j | 0 <= j < i - 1
        ensures Validate(items[1..][j], schema, ctx, path + [Index(index + 1 + j)]) == Valid
      {
        assert items[1..][j] == items[j + 1];
        assert Validate(items[j + 1], schema, ctx, path + [Index(index + (j + 1))]) == Valid;
      }
      BadItemIs(items[1..], index + 1, schema, ctx, path, i - 1);
    }
  }

  // --- references ----------------------------------------------------------------------

  function Slashed(names: seq<string>): string
    requires names != []
  {
    if |names| == 1 then names[0] else names[0] + "/" + Slashed(names[1..])
  }

  // The cut at slashes is the one that can be undone and leaves none.
  lemma {:induction false} SegmentsOf(names: seq<string>)
    requires names != [] && forall i :: 0 <= i < |names| ==> '/' !in names[i]
    ensures Segments(Slashed(names)) == names
  {
    if |names| == 1 {
      OneSegment(names[0]);
      assert names == [names[0]];
    } else {
      SegmentsOf(names[1..]);
      FirstSegment(names[0], Slashed(names[1..]));
      assert names == [names[0]] + names[1..];
    }
  }

  // "#/a/b" is the value of b in the value of a; any other beginning is a
  // ValidationError.
  lemma ReferenceLeads(root: Yaml, names: seq<string>)
    requires names != [] && forall i :: 0 <= i < |names| ==> '/' !in names[i]
    ensures Resolved(root, "#/" + Slashed(names)) ==
              match Walk(root, names) case Some(node) => To(node) case None => Broken
  {
    var ref := "#/" + Slashed(names);
    assert ref[..2] == "#/" && ref[2..] == Slashed(names);
    SegmentsOf(names);
  }

  lemma {:induction false} WalkGoesDown(root: Yaml, a: seq<string>, b: seq<string>)
    ensures Walk(root, a + b) == match Walk(root, a) case Some(node) => Walk(node, b) case None => None
    decreases |a|
  {
    if a == [] {
      assert a + b == b;
    } else {
      assert (a + b)[1..] == a[1..] + b;
      if Get(root, a[0]).Some? {
        WalkGoesDown(Get(root, a[0]).value, a[1..], b);
      }
    }
  }
}
