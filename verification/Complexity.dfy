// Cyclomatic complexity and nesting of Python functions: the visitor that
// counts while it walks, and the file metrics made of its results.
module Complexity {
  import opened Selections
  import opened Wrappers

  datatype BoolOperator = And | Or

  // Kinds of syntax node. Other stands for every kind the metrics ignore.
  datatype Kind =
    | If | For | AsyncFor | While | ExceptHandler | IfExp | With | AsyncWith | Comprehension
    | Try | Match | BoolOp(op: BoolOperator) | FunctionDef | AsyncFunctionDef | Other

  // The children of a BoolOp are its operands.
  datatype Node = Node(kind: Kind, line: int, endLine: Option<int>, children: seq<Node>)

  predicate IsBranch(n: Node) {
    n.kind in {If, For, AsyncFor, While, ExceptHandler, IfExp, With, AsyncWith, Comprehension}
  }

  predicate IsNesting(n: Node) {
    n.kind in {If, For, AsyncFor, While, Try, With, AsyncWith, Match}
  }

  predicate IsFunction(n: Node) {
    n.kind.FunctionDef? || n.kind.AsyncFunctionDef?
  }

  function Max(a: int, b: int): int {
    if a < b then b else a
  }

  function One(b: bool): nat {
    if b then 1 else 0
  }

  function ExtraOperands(n: Node): nat {
    if n.kind.BoolOp? then Max(0, |n.children| - 1) else 0
  }

  // What one visit adds to the counter, and how deep it goes.
  function Cost(n: Node): nat
    decreases n, 1
  {
    ExtraOperands(n) + One(IsBranch(n)) + CostAll(n.children)
  }

  function CostAll(s: seq<Node>): nat
    decreases s, 0
  {
    if s == [] then 0 else CostAll(s[..|s| - 1]) + Cost(s[|s| - 1])
  }

  function Depth(n: Node): nat
    decreases n, 1
  {
    One(IsNesting(n)) + DepthAll(n.children)
  }

  function DepthAll(s: seq<Node>): nat
    decreases s, 0
  {
    if s == [] then 0 else Max(DepthAll(s[..|s| - 1]), Depth(s[|s| - 1]))
  }

  class ComplexityVisitor {
    var complexity: nat
    var maxNesting: nat
    var nesting: nat

    constructor ()
      ensures complexity == 1 && maxNesting == 0 && nesting == 0
    {
      complexity, maxNesting, nesting := 1, 0, 0;
    }

    method Visit(n: Node)
      requires nesting <= maxNesting
      modifies this
      ensures complexity == old(complexity) + Cost(n)
      ensures nesting == old(nesting)
      ensures maxNesting == Max(old(maxNesting), nesting + Depth(n))
      decreases n, 2
    {
      if n.kind.BoolOp? {
        VisitBoolOp(n);
      } else {
        GenericVisit(n);
      }
    }

    method VisitBoolOp(n: Node)
      requires n.kind.BoolOp? && nesting <= maxNesting
      modifies this
      ensures complexity == old(complexity) + Cost(n)
      ensures nesting == old(nesting)
      ensures maxNesting == Max(old(maxNesting), nesting + Depth(n))
      decreases n, 1
    {
      complexity := complexity + Max(0, |n.children| - 1);
      GenericVisit(n);
    }

    method GenericVisit(n: Node)
      requires nesting <= maxNesting
      modifies this
      ensures complexity == old(complexity) + Cost(n) - ExtraOperands(n)
      ensures nesting == old(nesting)
      ensures maxNesting == Max(old(maxNesting), nesting + Depth(n))
      decreases n, 0
    {
      if IsBranch(n) {
        complexity := complexity + 1;
      }
      if IsNesting(n) {
        nesting := nesting + 1;
        maxNesting := Max(maxNesting, nesting);
        VisitChildren(n);
        nesting := nesting - 1;
        return;
      }
      VisitChildren(n);
    }

    method VisitChildren(n: Node)
      requires nesting <= maxNesting
      modifies this
      ensures complexity == old(complexity) + CostAll(n.children)
      ensures nesting == old(nesting)
      ensures maxNesting == Max(old(maxNesting), nesting + DepthAll(n.children))
      decreases n.children, 3
    {
      var s := n.children;
      for k := 0 to |s|
        invariant nesting == old(nesting) && nesting <= maxNesting
        invariant complexity == old(complexity) + CostAll(s[..k])
        invariant maxNesting == Max(old(maxNesting), nesting + DepthAll(s[..k]))
      {
        assert s[..k + 1][..k] == s[..k];
        Visit(s[k]);
      }
      assert s[..|s|] == s;
    }
  }

  // --- what the counter counts -----------------------------------------------

  // All nodes of a tree, a parent before its children.
  function Walk(n: Node): seq<Node>
    decreases n, 1
  {
    [n] + WalkAll(n.children)
  }

  function WalkAll(s: seq<Node>): seq<Node>
    decreases s, 0
  {
    if s == [] then [] else WalkAll(s[..|s| - 1]) + Walk(s[|s| - 1])
  }

  function SumOfExtraOperands(s: seq<Node>): nat {
    if s == [] then 0 else SumOfExtraOperands(s[..|s| - 1]) + ExtraOperands(s[|s| - 1])
  }

  lemma {:induction false} SumConcat(a: seq<Node>, b: seq<Node>)
    ensures SumOfExtraOperands(a + b) == SumOfExtraOperands(a) + SumOfExtraOperands(b)
  {
    if b == [] {
      assert a + b == a;
    } else {
      SumConcat(a, b[..|b| - 1]);
      assert (a + b)[..|a + b| - 1] == a + b[..|b| - 1];
    }
  }

  // The counter ends at one more than the branch nodes of the tree and the
  // operands after the first of its boolean operators.
  lemma {:induction false} CostCountsNodes(n: Node)
    ensures Cost(n) == |Select(Walk(n), IsBranch)| + SumOfExtraOperands(Walk(n))
    decreases n, 1
  {
    CostCountsAll(n.children);
    SelectConcat([n], WalkAll(n.children), IsBranch);
    SumConcat([n], WalkAll(n.children));
    assert [n][..0] == [];
  }

  lemma {:induction false} CostCountsAll(s: seq<Node>)
    ensures CostAll(s) == |Select(WalkAll(s), IsBranch)| + SumOfExtraOperands(WalkAll(s))
    decreases s, 0
  {
    if s != [] {
      var init, last := s[..|s| - 1], s[|s| - 1];
      CostCountsAll(init);
      CostCountsNodes(last);
      SelectConcat(WalkAll(init), Walk(last), IsBranch);
      SumConcat(WalkAll(init), Walk(last));
    }
  }

  // A way down a tree: which child to take at each node.
  predicate IsPath(n: Node, path: seq<nat>)
    decreases |path|
  {
    path == [] || (path[0] < |n.children| && IsPath(n.children[path[0]], path[1..]))
  }

  // The nesting nodes passed on the way, both ends included.
  function NestingOn(n: Node, path: seq<nat>): nat
    requires IsPath(n, path)
    decreases |path|
  {
    One(IsNesting(n)) + if path == [] then 0 else NestingOn(n.children[path[0]], path[1..])
  }

  lemma {:induction false} DepthAllIsMaximum(s: seq<Node>)
    ensures forall i :: 0 <= i < |s| ==> Depth(s[i]) <= DepthAll(s)
    ensures DepthAll(s) == 0 || exists i :: 0 <= i < |s| && Depth(s[i]) == DepthAll(s)
  {
    if s != [] {
      var init := s[..|s| - 1];
      DepthAllIsMaximum(init);
      forall i | 0 <= i < |s| ensures Depth(s[i]) <= DepthAll(s) {
        if i < |init| {
          assert init[i] == s[i];
        }
      }
      if DepthAll(s) != 0 && Depth(s[|s| - 1]) != DepthAll(s) {
        var i :| 0 <= i < |init| && Depth(init[i]) == DepthAll(init);
        assert Depth(s[i]) == DepthAll(s);
      }
    }
  }

  // The depth is the largest number of nesting nodes on any way down.
  lemma {:induction false} DepthBoundsPaths(n: Node, path: seq<nat>)
    requires IsPath(n, path)
    ensures NestingOn(n, path) <= Depth(n)
    decreases |path|
  {
    if path != [] {
      DepthAllIsMaximum(n.children);
      DepthBoundsPaths(n.children[path[0]], path[1..]);
    }
  }

  lemma {:induction false} DepthIsReached(n: Node) returns (path: seq<nat>)
    ensures IsPath(n, path) && NestingOn(n, path) == Depth(n)
    decreases n
  {
    DepthAllIsMaximum(n.children);
    if DepthAll(n.children) == 0 {
      path := [];
    } else {
      var i :| 0 <= i < |n.children| && Depth(n.children[i]) == DepthAll(n.children);
      var rest := DepthIsReached(n.children[i]);
      path := [i] + rest;
      assert path[1..] == rest;
    }
  }

  // --- flattening boolean expressions ------------------------------------------

  // The parser gives every boolean operator at least two operands.
  ghost predicate Parsed(n: Node) {
    && (n.kind.BoolOp? ==> |n.children| >= 2)
    && forall i :: 0 <= i < |n.children| ==> Parsed(n.children[i])
  }

  // "(a and b) and c" becomes "a and b and c", at every depth.
  function Flatten(n: Node): Node
    decreases n, 1
  {
    var flat := FlattenAll(n.children);
    n.(children := if n.kind.BoolOp? then Splice(n.kind, flat) else flat)
  }

  function FlattenAll(s: seq<Node>): seq<Node>
    decreases s, 0
  {
    if s == [] then [] else FlattenAll(s[..|s| - 1]) + [Flatten(s[|s| - 1])]
  }

  function Splice(kind: Kind, s: seq<Node>): seq<Node> {
    if s == [] then []
    else
      var last := s[|s| - 1];
      Splice(kind, s[..|s| - 1]) + if last.kind == kind then last.children else [last]
  }

  ghost predicate IsFlat(n: Node) {
    && (n.kind.BoolOp? ==> |n.children| >= 2)
    && forall i :: 0 <= i < |n.children| ==>
         IsFlat(n.children[i]) && (n.kind.BoolOp? ==> n.children[i].kind != n.kind)
  }

  lemma {:induction false} CostConcat(a: seq<Node>, b: seq<Node>)
    ensures CostAll(a + b) == CostAll(a) + CostAll(b)
    ensures DepthAll(a + b) == Max(DepthAll(a), DepthAll(b))
  {
    if b == [] {
      assert a + b == a;
    } else {
      CostConcat(a, b[..|b| - 1]);
      assert (a + b)[..|a + b| - 1] == a + b[..|b| - 1];
    }
  }

  lemma CostOfOne(n: Node)
    ensures CostAll([n]) == Cost(n) && DepthAll([n]) == Depth(n)
  {
    assert [n][..0] == [];
  }

  lemma {:induction false} SpliceKeeps(kind: Kind, s: seq<Node>)
    requires kind.BoolOp? && forall i :: 0 <= i < |s| ==> IsFlat(s[i])
    ensures |s| <= |Splice(kind, s)|
    ensures |Splice(kind, s)| + CostAll(Splice(kind, s)) == |s| + CostAll(s)
    ensures DepthAll(Splice(kind, s)) == DepthAll(s)
    ensures forall m :: m in Splice(kind, s) ==> IsFlat(m) && m.kind != kind
  {
    if s != [] {
      var init, last := s[..|s| - 1], s[|s| - 1];
      SpliceKeeps(kind, init);
      CostConcat(Splice(kind, init), if last.kind == kind then last.children else [last]);
      CostOfOne(last);
    }
  }

  // Flattening leaves no operator directly under its like.
  lemma {:induction false} FlattenIsFlat(n: Node)
    requires Parsed(n)
    ensures IsFlat(Flatten(n)) && Flatten(n).kind == n.kind
    decreases n, 1
  {
    FlattenAllIsFlat(n.children);
    var flat := FlattenAll(n.children);
    if n.kind.BoolOp? {
      SpliceKeeps(n.kind, flat);
      assert Flatten(n) == n.(children := Splice(n.kind, flat));
      var spliced := Splice(n.kind, flat);
      assert forall i :: 0 <= i < |spliced| ==> spliced[i] in spliced;
    } else {
      assert Flatten(n) == n.(children := flat);
    }
  }

  lemma {:induction false} FlattenAllIsFlat(s: seq<Node>)
    requires forall i :: 0 <= i < |s| ==> Parsed(s[i])
    ensures |FlattenAll(s)| == |s|
    ensures forall i :: 0 <= i < |s| ==> IsFlat(FlattenAll(s)[i])
    decreases s, 0
  {
    if s != [] {
      FlattenAllIsFlat(s[..|s| - 1]);
      FlattenIsFlat(s[|s| - 1]);
    }
  }

  // An operator weighs the same as long as operands and their cost add up.
  lemma SwapChildren(n: Node, s: seq<Node>)
    requires n.kind.BoolOp? ==> |s| > 0 && |n.children| > 0
    requires (if n.kind.BoolOp? then |s| - |n.children| else 0) + CostAll(s) == CostAll(n.children)
    requires DepthAll(s) == DepthAll(n.children)
    ensures Cost(n.(children := s)) == Cost(n) && Depth(n.(children := s)) == Depth(n)
  {
    assert IsBranch(n.(children := s)) == IsBranch(n) && IsNesting(n.(children := s)) == IsNesting(n);
  }

  // Flattening changes neither the complexity nor the nesting of anything.
  lemma {:induction false} FlattenKeeps(n: Node)
    requires Parsed(n)
    ensures Cost(Flatten(n)) == Cost(n) && Depth(Flatten(n)) == Depth(n)
    decreases n, 1
  {
    FlattenAllKeeps(n.children);
    FlattenAllIsFlat(n.children);
    var flat := FlattenAll(n.children);
    if n.kind.BoolOp? {
      SpliceKeeps(n.kind, flat);
      SwapChildren(n, Splice(n.kind, flat));
    } else {
      SwapChildren(n, flat);
    }
  }

  lemma {:induction false} FlattenAllKeeps(s: seq<Node>)
    requires forall i :: 0 <= i < |s| ==> Parsed(s[i])
    ensures CostAll(FlattenAll(s)) == CostAll(s) && DepthAll(FlattenAll(s)) == DepthAll(s)
    decreases s, 0
  {
    if s != [] {
      var init, last := s[..|s| - 1], s[|s| - 1];
      FlattenAllKeeps(init);
      FlattenKeeps(last);
      CostConcat(FlattenAll(init), [Flatten(last)]);
      CostOfOne(Flatten(last));
    }
  }

  // --- the metrics of a file -----------------------------------------------------

  // A missing or zero end line reads as the first line.
  function LastLine(n: Node): int {
    if n.endLine.Some? && n.endLine.value != 0 then n.endLine.value else n.line
  }

  function Length(n: Node): int {
    LastLine(n) - n.line + 1
  }

  function ComplexityOf(n: Node): int {
    1 + Cost(n)
  }

  function NestingOf(n: Node): int {
    Depth(n)
  }

  function IsLong(hardFail: int): Node -> bool {
    (n: Node) => IsFunction(n) && Length(n) > hardFail
  }

  // m is the largest value of a function among the nodes, and not below 0.
  ghost predicate IsMaximum(m: int, value: Node -> int, nodes: seq<Node>) {
    && 0 <= m
    && (forall f :: f in nodes && IsFunction(f) ==> value(f) <= m)
    && (m == 0 || exists f :: f in nodes && IsFunction(f) && value(f) == m)
  }

  // The running maximum, which starts from 0.
  function Largest(nodes: seq<Node>, value: Node -> int): int {
    if nodes == [] then 0
    else
      var rest, last := Largest(nodes[..|nodes| - 1], value), nodes[|nodes| - 1];
      if IsFunction(last) then Max(rest, value(last)) else rest
  }

  lemma {:induction false} LargestIsMaximum(nodes: seq<Node>, value: Node -> int)
    ensures IsMaximum(Largest(nodes, value), value, nodes)
  {
    if nodes != [] {
      var init, last := nodes[..|nodes| - 1], nodes[|nodes| - 1];
      LargestIsMaximum(init, value);
      assert nodes == init + [last];
      var m := Largest(init, value);
      if m != 0 {
        var f :| f in init && IsFunction(f) && value(f) == m;
        assert f in nodes;
      }
      assert last in nodes;
    }
  }

  // walked is the tree in any order.
  method PythonMetrics(tree: Node, walked: seq<Node>, hardFail: int)
    returns (maxLength: int, overLimit: nat, maxComplexity: int, maxNesting: int)
    requires multiset(walked) == multiset(Walk(tree))
    ensures IsMaximum(maxLength, Length, Walk(tree))
    ensures IsMaximum(maxComplexity, ComplexityOf, Walk(tree))
    ensures IsMaximum(maxNesting, NestingOf, Walk(tree))
    ensures overLimit == |Select(Walk(tree), IsLong(hardFail))|
  {
    maxLength, overLimit, maxComplexity, maxNesting := 0, 0, 0, 0;
    for i := 0 to |walked|
      invariant maxLength == Largest(walked[..i], Length)
      invariant maxComplexity == Largest(walked[..i], ComplexityOf)
      invariant maxNesting == Largest(walked[..i], NestingOf)
      invariant overLimit == |Select(walked[..i], IsLong(hardFail))|
    {
      var node := walked[i];
      assert walked[..i + 1][..i] == walked[..i];
      if IsFunction(node) {
        maxLength := Max(maxLength, Length(node));
        if Length(node) > hardFail {
          overLimit := overLimit + 1;
        }
        var visitor := new ComplexityVisitor();
        visitor.Visit(node);
        maxComplexity := Max(maxComplexity, visitor.complexity);
        maxNesting := Max(maxNesting, visitor.maxNesting);
      }
    }
    assert walked[..|walked|] == walked;
    SelectPermutes(walked, Walk(tree), IsLong(hardFail));
    LargestOfPermuted(walked, Walk(tree), Length);
    LargestOfPermuted(walked, Walk(tree), ComplexityOf);
    LargestOfPermuted(walked, Walk(tree), NestingOf);
  }

  lemma LargestOfPermuted(a: seq<Node>, b: seq<Node>, value: Node -> int)
    requires multiset(a) == multiset(b)
    ensures IsMaximum(Largest(a, value), value, b)
  {
    LargestIsMaximum(a, value);
    SameMaximum(Largest(a, value), value, a, b);
  }

  lemma SameMaximum(m: int, value: Node -> int, a: seq<Node>, b: seq<Node>)
    requires multiset(a) == multiset(b) && IsMaximum(m, value, a)
    ensures IsMaximum(m, value, b)
  {
    forall f | f in b ensures f in a {
      assert f in multiset(b);
    }
    if m != 0 {
      var f :| f in a && IsFunction(f) && value(f) == m;
      assert f in multiset(a);
      assert f in b;
    }
  }

  // --- nested functions --------------------------------------------------------------

  // The functions of a tree that are inside no other function.
  function Outermost(n: Node): seq<Node>
    decreases n, 1
  {
    if IsFunction(n) then [n] else OutermostAll(n.children)
  }

  function OutermostAll(s: seq<Node>): seq<Node>
    decreases s, 0
  {
    if s == [] then [] else OutermostAll(s[..|s| - 1]) + Outermost(s[|s| - 1])
  }

  lemma {:induction false} PartsCostLess(n: Node, g: Node)
    requires g in Walk(n)
    ensures Cost(g) <= Cost(n) && Depth(g) <= Depth(n)
    decreases n, 1
  {
    if g != n {
      PartsOfAllCostLess(n.children, g);
    }
  }

  lemma {:induction false} PartsOfAllCostLess(s: seq<Node>, g: Node)
    requires g in WalkAll(s)
    ensures Cost(g) <= CostAll(s) && Depth(g) <= DepthAll(s)
    decreases s, 0
  {
    if g in WalkAll(s[..|s| - 1]) {
      PartsOfAllCostLess(s[..|s| - 1], g);
    } else {
      PartsCostLess(s[|s| - 1], g);
    }
  }

  lemma {:induction false} OutermostCovers(n: Node)
    ensures forall f :: f in Outermost(n) ==> IsFunction(f) && f in Walk(n)
    ensures forall g :: g in Walk(n) && IsFunction(g) ==> exists f :: f in Outermost(n) && g in Walk(f)
    decreases n, 1
  {
    OutermostCoversAll(n.children);
    if IsFunction(n) {
      assert n in Outermost(n);
    }
  }

  lemma {:induction false} OutermostCoversAll(s: seq<Node>)
    ensures forall f :: f in OutermostAll(s) ==> IsFunction(f) && f in WalkAll(s)
    ensures forall g :: g in WalkAll(s) && IsFunction(g) ==>
                          exists f :: f in OutermostAll(s) && g in Walk(f)
    decreases s, 0
  {
    if s != [] {
      var init, last := s[..|s| - 1], s[|s| - 1];
      OutermostCoversAll(init);
      OutermostCovers(last);
      forall g | g in WalkAll(s) && IsFunction(g)
        ensures exists f :: f in OutermostAll(s) && g in Walk(f)
      {
        var f :| f in OutermostAll(init) + Outermost(last) && g in Walk(f);
        assert f in OutermostAll(s);
      }
    }
  }

  ghost predicate GrowsOutward(tree: Node, value: Node -> int) {
    forall f, g :: f in Walk(tree) && IsFunction(f) && g in Walk(f) && IsFunction(g) ==>
                     value(g) <= value(f)
  }

  // Leaving out nodes below a larger one does not change the maximum.
  ghost predicate Covers(some: seq<Node>, all: seq<Node>, value: Node -> int) {
    && (forall f :: f in some ==> f in all && IsFunction(f))
    && (forall g :: g in all && IsFunction(g) ==> Covered(some, value, value(g)))
  }

  ghost predicate Covered(some: seq<Node>, value: Node -> int, v: int) {
    exists f :: f in some && v <= value(f)
  }

  lemma MaximumOfFewer(all: seq<Node>, some: seq<Node>, value: Node -> int, m: int)
    requires Covers(some, all, value)
    ensures IsMaximum(m, value, all) <==> IsMaximum(m, value, some)
  {
    if IsMaximum(m, value, all) && m != 0 {
      var g :| g in all && IsFunction(g) && value(g) == m;
      var f :| f in some && value(g) <= value(f);
      assert value(f) == m;
    }
  }

  lemma MaximumAtOutermost(tree: Node, value: Node -> int, m: int)
    requires GrowsOutward(tree, value)
    ensures IsMaximum(m, value, Walk(tree)) <==> IsMaximum(m, value, Outermost(tree))
  {
    OutermostCovers(tree);
    forall g | g in Walk(tree) && IsFunction(g)
      ensures Covered(Outermost(tree), value, value(g))
    {
      var f :| f in Outermost(tree) && g in Walk(f);
      assert value(g) <= value(f);
    }
    MaximumOfFewer(Walk(tree), Outermost(tree), value, m);
  }

  lemma MetricsGrowOutward(tree: Node)
    ensures GrowsOutward(tree, ComplexityOf) && GrowsOutward(tree, NestingOf)
  {
    forall f, g | f in Walk(tree) && g in Walk(f)
      ensures ComplexityOf(g) <= ComplexityOf(f) && NestingOf(g) <= NestingOf(f)
    {
      PartsCostLess(f, g);
    }
  }

  // The lines of a function inside another lie within the other's.
  ghost predicate LinesNest(tree: Node) {
    forall f, g :: f in Walk(tree) && IsFunction(f) && g in Walk(f) && IsFunction(g) ==>
                     f.line <= g.line && LastLine(g) <= LastLine(f)
  }

  // A function inside another never decides the complexity or the nesting of
  // a file, nor its longest function when their lines nest.
  lemma FileMaximaAtOutermost(tree: Node, m: int)
    ensures IsMaximum(m, ComplexityOf, Walk(tree)) <==> IsMaximum(m, ComplexityOf, Outermost(tree))
    ensures IsMaximum(m, NestingOf, Walk(tree)) <==> IsMaximum(m, NestingOf, Outermost(tree))
    ensures LinesNest(tree) ==>
              (IsMaximum(m, Length, Walk(tree)) <==> IsMaximum(m, Length, Outermost(tree)))
  {
    MetricsGrowOutward(tree);
    MaximumAtOutermost(tree, ComplexityOf, m);
    MaximumAtOutermost(tree, NestingOf, m);
    if LinesNest(tree) {
      LengthGrowsOutward(tree);
      MaximumAtOutermost(tree, Length, m);
    }
  }

  lemma LengthGrowsOutward(tree: Node)
    requires LinesNest(tree)
    ensures GrowsOutward(tree, Length)
  {}

  // --- what each kind of node weighs ---------------------------------------------------

  // A node without children, by its kind: its cost and its depth.
  lemma KindsWeigh(n: Node)
    requires n.children == []
    ensures (Cost(n), Depth(n)) ==
              match n.kind
              case If => (1, 1)
              case For => (1, 1)
              case AsyncFor => (1, 1)
              case While => (1, 1)
              case With => (1, 1)
              case AsyncWith => (1, 1)
              case ExceptHandler => (1, 0)
              case IfExp => (1, 0)
              case Comprehension => (1, 0)
              case Try => (0, 1)
              case Match => (0, 1)
              case BoolOp(_) => (0, 0)
              case FunctionDef => (0, 0)
              case AsyncFunctionDef => (0, 0)
              case Other => (0, 0)
  {
    assert CostAll(n.children) == 0 && DepthAll(n.children) == 0;
  }

  predicate Within(k: int, first: int, last: int) {
    first <= k <= last
  }

  ghost function LinesFrom(first: int, last: int): set<int> {
    set k: int | first <= k <= last && Within(k, first, last)
  }

  // The length of a function is the number of its lines, the first and the last
  // included.
  lemma LengthCountsLines(n: Node)
    requires n.endLine.Some? && n.line <= n.endLine.value && n.endLine.value != 0
    ensures Length(n) == |LinesFrom(n.line, n.endLine.value)|
    ensures forall limit: int :: IsLong(limit)(n) <==>
              (n.kind.FunctionDef? || n.kind.AsyncFunctionDef?) && |LinesFrom(n.line, n.endLine.value)| >= limit + 1
  {
    CountInterval(n.line, n.endLine.value);
  }

  lemma {:induction false} CountInterval(a: int, b: int)
    requires a <= b
    ensures |LinesFrom(a, b)| == b - a + 1
    decreases b - a
  {
    if a == b {
      assert LinesFrom(a, b) == {a};
    } else {
      CountInterval(a, b - 1);
      assert LinesFrom(a, b) == LinesFrom(a, b - 1) + {b};
    }
  }
}
