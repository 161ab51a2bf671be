/** Validation and normalization of a Graph that has a single subgraph.

Normalization rebuilds the subgraph along its only walk, so the nodes are renumbered
0, 1, 2, ... and joined by the edges 0 -> 1 -> 2 -> ... */
module Lowering {
  import opened Basics
  import opened Callables
  import opened DataGraph

  // ----- validation

  function ChainType(cs: seq<Callable>, flow: TypeDesc): Option<TypeDesc> {
    if cs == [] then Some(flow)
    else if UnaryValue(cs[0]) && Pure(cs[0]) && TypeEqual(cs[0].sig.value.params[0], flow)
    then ChainType(cs[1..], cs[0].sig.value.ret)
    else None
  }

  predicate MapChainValid(n: Node) {
    n.fnChain == [] ||
    (&& n.op.MapOp?
     && ChainType(n.fnChain, n.inputType).Some?
     && TypeEqual(ChainType(n.fnChain, n.inputType).value, n.outputType))
  }

  predicate NodeMetadataValid(n: Node) {
    && (n.hasFn ==> Bindable(n.fn))
    && MapChainValid(n)
    && (n.op.RelationOp? ==> n.hasRelation && n.subgraphs != [])
  }

  /** The nodes met from `node` on by taking the first successor, at most `fuel` times. */
  function Follow(edges: seq<Edge>, node: nat, fuel: nat): (p: seq<nat>)
    ensures |p| > 0 && p[0] == node
    decreases fuel
  {
    if fuel == 0 || Targets(edges, node) == [] then [node]
    else [node] + Follow(edges, Targets(edges, node)[0], fuel - 1)
  }

  predicate ValidRoot(sg: Subgraph) {
    && sg.entry < |sg.nodes| && sg.tail < |sg.nodes|
    && sg.nodes[sg.entry].op.InputOp?
    && TypeEqual(sg.inputType, sg.nodes[sg.entry].inputType)
    && TypeEqual(sg.outputType, sg.nodes[sg.tail].outputType)
    && (forall i :: 0 <= i < |sg.edges| ==>
          && sg.edges[i].from < |sg.nodes| && sg.edges[i].to < |sg.nodes|
          && TypeEqual(sg.nodes[sg.edges[i].from].outputType, sg.nodes[sg.edges[i].to].inputType))
    && Targets(sg.edges, sg.tail) == []
    && (forall n :: 0 <= n < |sg.nodes| ==> NodeMetadataValid(sg.nodes[n]) && |Targets(sg.edges, n)| <= 1)
    && |Follow(sg.edges, sg.entry, |sg.nodes|)| == |sg.nodes|
  }

  lemma {:induction false} TargetsAreEdges(edges: seq<Edge>, n: nat, t: nat)
    requires t in Targets(edges, n)
    ensures Edge(n, t) in edges
  {
    var last := edges[|edges| - 1];
    if !(last.from == n && last.to == t) {
      TargetsAreEdges(edges[..|edges| - 1], n, t);
    }
  }

  lemma {:induction false} FollowIsWalk(sg: Subgraph, node: nat, fuel: nat)
    requires node < |sg.nodes|
    requires forall i :: 0 <= i < |sg.edges| ==> sg.edges[i].to < |sg.nodes|
    requires forall n :: 0 <= n < |sg.nodes| ==> |Targets(sg.edges, n)| <= 1
    ensures var p := Follow(sg.edges, node, fuel);
            && |p| <= fuel + 1
            && IsWalk(sg, p)
            && (forall i :: 0 <= i < |p| - 1 ==> Targets(sg.edges, p[i]) == [p[i + 1]])
            && (|p| <= fuel ==> Targets(sg.edges, p[|p| - 1]) == [])
    decreases fuel
  {
    if fuel > 0 && Targets(sg.edges, node) != [] {
      var s := Targets(sg.edges, node)[0];
      TargetsAreEdges(sg.edges, node, s);
      FollowIsWalk(sg, s, fuel - 1);
      var p, q := Follow(sg.edges, node, fuel), Follow(sg.edges, s, fuel - 1);
      hide Targets, Follow;
      assert p == [node] + q;
      assert forall i :: 1 <= i < |p| ==> p[i] == q[i - 1];
    }
  }

  /** As many distinct numbers below `|p|` as there are leave none out. */
  lemma {:induction false} DistinctCoversAll(p: seq<nat>, v: nat)
    requires forall i :: 0 <= i < |p| ==> p[i] < |p|
    requires forall i, j :: 0 <= i < j < |p| ==> p[i] != p[j]
    requires v < |p|
    ensures v in p
  {
    var met := set i | 0 <= i < |p| :: p[i];
    DistinctCount(p, |p|);
    if v !in p {
      SubsetCount(met, Below(|p|) - {v});
    }
  }

  lemma {:induction false} DistinctCount(p: seq<nat>, n: nat)
    requires n <= |p|
    requires forall i, j :: 0 <= i < j < |p| ==> p[i] != p[j]
    ensures |set i | 0 <= i < n :: p[i]| == n
  {
    if n > 0 {
      DistinctCount(p, n - 1);
      assert (set i | 0 <= i < n :: p[i]) == (set i | 0 <= i < n - 1 :: p[i]) + {p[n - 1]};
    }
  }

  ghost function Below(n: nat): (s: set<nat>)
    ensures |s| == n
    ensures forall x: nat :: x in s <==> x < n
  {
    if n == 0 then {} else Below(n - 1) + {n - 1}
  }

  lemma {:induction false} FollowDistinct(sg: Subgraph, p: seq<nat>, i: nat, j: nat)
    requires IsWalk(sg, p) && i < j < |p|
    requires forall k :: 0 <= k < |p| - 1 ==> Targets(sg.edges, p[k]) == [p[k + 1]]
    requires Targets(sg.edges, p[|p| - 1]) == []
    ensures p[i] != p[j]
  {
    LinearPathDistinct(sg.(entry := p[0], tail := p[|p| - 1]), p, i, j);
  }

  /** A valid subgraph is one walk from its entry to its tail. */
  lemma {:induction false} ValidRootIsLinear(sg: Subgraph)
    requires ValidRoot(sg)
    ensures LinearPath(sg, Follow(sg.edges, sg.entry, |sg.nodes|))
  {
    hide Follow, Targets, NodeMetadataValid, TypeEqual;
    var p := Follow(sg.edges, sg.entry, |sg.nodes|);
    FollowIsWalk(sg, sg.entry, |sg.nodes|);
    forall i, j | 0 <= i < j < |p| ensures p[i] != p[j] {
      FollowDistinct(sg, p, i, j);
    }
    DistinctCoversAll(p, sg.tail);
    var k :| 0 <= k < |p| && p[k] == sg.tail;
    if k < |p| - 1 {
      HasSuccessor(sg, p, k);
    }
  }

  lemma {:induction false} HasSuccessor(sg: Subgraph, p: seq<nat>, k: nat)
    requires k < |p| - 1
    requires forall i :: 0 <= i < |p| - 1 ==> Targets(sg.edges, p[i]) == [p[i + 1]]
    ensures Targets(sg.edges, p[k]) != []
  {
    assert Targets(sg.edges, p[k]) == [p[k + 1]];
  }

  // ----- rebuilding along the walk

  function ChainEdges(n: nat): (es: seq<Edge>)
    ensures |es| == n && forall i :: 0 <= i < n ==> es[i] == Edge(i, i + 1)
  {
    if n == 0 then [] else ChainEdges(n - 1) + [Edge(n - 1, n)]
  }

  lemma {:induction false} ChainTargets(n: nat, i: nat)
    ensures Targets(ChainEdges(n), i) == if i < n then [i + 1] else []
  {
    if n > 0 {
      var es := ChainEdges(n);
      assert es[..n - 1] == ChainEdges(n - 1);
      assert es[n - 1] == Edge(n - 1, n);
      ChainTargets(n - 1, i);
    }
  }

  function SourceNode(t: TypeDesc): Node {
    Node(InputOp, Callable(None, {}, {}, InvalidDispatch, None, None, None, []), false, [], false, [], t, t)
  }

  /** The subgraph `source -> nodes[0] -> nodes[1] -> ...`. */
  function Assemble(inputType: TypeDesc, nodes: seq<Node>): Subgraph {
    Subgraph([SourceNode(inputType)] + nodes, ChainEdges(|nodes|), 0, |nodes|, inputType,
             if nodes == [] then inputType else nodes[|nodes| - 1].outputType)
  }

  function Iota(n: nat): (s: seq<nat>)
    ensures |s| == n && forall i :: 0 <= i < n ==> s[i] == i
  {
    seq(n, i requires 0 <= i < n => i)
  }

  lemma {:induction false} AssembleIsLinear(inputType: TypeDesc, nodes: seq<Node>)
    ensures LinearPath(Assemble(inputType, nodes), Iota(|nodes| + 1))
  {
    forall i: nat | i <= |nodes|
      ensures Targets(ChainEdges(|nodes|), i) == if i < |nodes| then [i + 1] else []
    {
      ChainTargets(|nodes|, i);
    }
  }

  /** What becomes of a node behind the source. Nodes with nested subgraphs cannot be
      lowered here: with one subgraph the nested one could only be this very one. */
  function LowerNode(n: Node, flow: TypeDesc): Option<Node> {
    if n.op.InputOp? || n.op.HighLevelOp? || n.op.RelationOp? || n.subgraphs != [] then None
    else if n.op.OtherOp? then Some(n)
    else if UnaryValue(n.fn) && TypeEqual(flow, n.fn.sig.value.params[0])
    then Some(n.(hasFn := true, hasRelation := false))
    else None
  }

  function LowerNodes(sg: Subgraph, p: seq<nat>, flow: TypeDesc): (r: Option<seq<Node>>)
    requires forall i :: 0 <= i < |p| ==> p[i] < |sg.nodes|
  {
    if p == [] then Some([])
    else
      match LowerNode(sg.nodes[p[0]], flow)
      case None => None
      case Some(n) =>
        match LowerNodes(sg, p[1..], sg.nodes[p[0]].outputType)
        case None => None
        case Some(rest) => Some([n] + rest)
  }

  /** Normalization of the only subgraph of a Graph. */
  function Normalize(sg: Subgraph): (r: Option<Subgraph>) {
    if !ValidRoot(sg) then None
    else
      var p := Follow(sg.edges, sg.entry, |sg.nodes|);
      ValidRootIsLinear(sg);
      match LowerNodes(sg, p[1..], sg.inputType)
      case None => None
      case Some(nodes) =>
        var out := Assemble(sg.inputType, nodes);
        if ValidRoot(out) then Some(out) else None
  }

  // ----- normalization preserves meaning

  lemma {:induction false} LoweredWalk(env: Env, sg: Subgraph, p: seq<nat>, flow: TypeDesc, out: Subgraph, k: nat, x: Value)
    requires forall i :: 0 <= i < |p| ==> p[i] < |sg.nodes|
    requires LowerNodes(sg, p, flow).Some?
    requires k <= |out.nodes| && out.nodes[k..] == LowerNodes(sg, p, flow).value
    ensures |out.nodes| == k + |p|
    ensures EvalWalk(env, sg, p, x) == EvalWalk(env, out, Iota(|out.nodes|)[k..], x)
    decreases |p|
  {
    var q := Iota(|out.nodes|)[k..];
    if p != [] {
      var n := sg.nodes[p[0]];
      var low, rest := LowerNode(n, flow).value, LowerNodes(sg, p[1..], n.outputType).value;
      assert out.nodes[k..] == [low] + rest;
      assert out.nodes[k] == low && out.nodes[k + 1..] == rest;
      assert NodeStep(env, n, x) == NodeStep(env, low, x);
      assert q[0] == k && q[1..] == Iota(|out.nodes|)[k + 1..];
      var y := if NodeStep(env, n, x).Some? then NodeStep(env, n, x).value else x;
      LoweredWalk(env, sg, p[1..], n.outputType, out, k + 1, y);
    }
  }

  /** What a normalized subgraph is made of. */
  lemma {:induction false} NormalizeParts(sg: Subgraph) returns (p: seq<nat>, nodes: seq<Node>)
    requires Normalize(sg).Some?
    ensures LinearPath(sg, p) && (forall i :: 0 <= i < |p[1..]| ==> p[1..][i] < |sg.nodes|)
    ensures LowerNodes(sg, p[1..], sg.inputType) == Some(nodes) && Normalize(sg).value == Assemble(sg.inputType, nodes)
    ensures sg.nodes[p[0]].op.InputOp?
  {
    hide Follow, Targets, NodeMetadataValid, TypeEqual, LowerNodes;
    p := Follow(sg.edges, sg.entry, |sg.nodes|);
    ValidRootIsLinear(sg);
    nodes := LowerNodes(sg, p[1..], sg.inputType).value;
  }

  /** The normalized subgraph delivers exactly what the given one delivers. */
  lemma {:induction false} NormalizeMeaning(env: Env, sg: Subgraph, x: Value, y: Value)
    requires Normalize(sg).Some?
    ensures Emits(env, sg, x, y) <==> Emits(env, Normalize(sg).value, x, y)
  {
    hide Normalize, Follow, Targets, LowerNodes, Emits, NodeMetadataValid;
    var p, nodes := NormalizeParts(sg);
    var out, q := Normalize(sg).value, Iota(|nodes| + 1);
    AssembleIsLinear(sg.inputType, nodes);
    assert out.nodes[1..] == nodes;
    LoweredWalk(env, sg, p[1..], sg.inputType, out, 1, x);
    LinearEmits(env, sg, p, x, y);
    LinearEmits(env, out, q, x, y);
    assert EvalWalk(env, sg, p, x) == EvalWalk(env, sg, p[1..], x);
    assert EvalWalk(env, out, q, x) == EvalWalk(env, out, q[1..], x);
  }
}
