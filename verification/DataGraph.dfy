/** One root subgraph of the flow Graph: nodes, data edges, an entry and a tail.

The meaning of a subgraph is given by its walks: a value that enters at `entry`
leaves at `tail` along every chain of data edges that leads from one to the other. */
module DataGraph {
  import opened Basics
  import opened Callables

  datatype Op = InputOp | FilterOp | MapOp | TransformOp | RelationOp | HighLevelOp | OtherOp

  datatype Node = Node(
    op: Op,
    fn: Callable,
    hasFn: bool,
    fnChain: seq<Callable>,
    hasRelation: bool,
    subgraphs: seq<nat>,
    inputType: TypeDesc,
    outputType: TypeDesc)

  datatype Edge = Edge(from: nat, to: nat)

  datatype Subgraph = Subgraph(
    nodes: seq<Node>,
    edges: seq<Edge>,
    entry: nat,
    tail: nat,
    inputType: TypeDesc,
    outputType: TypeDesc)

  datatype Graph = Graph(subgraphs: seq<Subgraph>, root: nat, version: nat)

  // ----- successors

  /** The targets of the edges that leave `n`, in edge order. */
  function Targets(edges: seq<Edge>, n: nat): (ts: seq<nat>)
  {
    if edges == [] then []
    else
      var last := edges[|edges| - 1];
      Targets(edges[..|edges| - 1], n) + (if last.from == n then [last.to] else [])
  }

  method OutDegree(sg: Subgraph, node: nat) returns (n: nat)
    ensures n == if node < |sg.nodes| then |Targets(sg.edges, node)| else 0
  {
    n := 0;
    if node >= |sg.nodes| {
      return;
    }
    var i := 0;
    while i < |sg.edges|
      invariant 0 <= i <= |sg.edges|
      invariant n == |Targets(sg.edges[..i], node)|
    {
      assert sg.edges[..i + 1][..i] == sg.edges[..i];
      if sg.edges[i].from == node {
        n := n + 1;
      }
      i := i + 1;
    }
    assert sg.edges[..i] == sg.edges;
  }

  method SingleSuccessor(sg: Subgraph, node: nat) returns (successor: Option<nat>)
    ensures successor.Some? <==> node < |sg.nodes| && |Targets(sg.edges, node)| == 1
    ensures successor.Some? ==> Targets(sg.edges, node) == [successor.value]
  {
    if node >= |sg.nodes| {
      return None;
    }
    var n, next, i := 0, 0, 0;
    while i < |sg.edges|
      invariant 0 <= i <= |sg.edges|
      invariant n == |Targets(sg.edges[..i], node)|
      invariant n > 0 ==> next == Targets(sg.edges[..i], node)[n - 1]
    {
      assert sg.edges[..i + 1][..i] == sg.edges[..i];
      if sg.edges[i].from == node {
        n := n + 1;
        next := sg.edges[i].to;
      }
      i := i + 1;
    }
    assert sg.edges[..i] == sg.edges;
    return if n == 1 then Some(next) else None;
  }

  // ----- meaning

  function NodeCalls(n: Node): (cs: seq<Callable>)
    ensures |cs| > 0
  {
    if n.fnChain != [] then n.fnChain else [n.fn]
  }

  function ApplyAll(env: Env, cs: seq<Callable>, x: Value): Value {
    if cs == [] then x else ApplyAll(env, cs[1..], Apply(env, cs[0], x))
  }

  /** What a node does to one value. Operators other than source, filter and map have no
      meaning here. */
  function NodeStep(env: Env, n: Node, x: Value): Option<Value> {
    match n.op
    case InputOp => Some(x)
    case FilterOp => if Holds(env, n.fn, x) then Some(x) else None
    case MapOp => Some(ApplyAll(env, NodeCalls(n), x))
    case TransformOp => Some(ApplyAll(env, NodeCalls(n), x))
    case _ => None
  }

  predicate IsWalk(sg: Subgraph, p: seq<nat>) {
    && |p| > 0
    && (forall i :: 0 <= i < |p| ==> p[i] < |sg.nodes|)
    && (forall i :: 0 <= i < |p| - 1 ==> p[i + 1] in Targets(sg.edges, p[i]))
  }

  function EvalWalk(env: Env, sg: Subgraph, p: seq<nat>, x: Value): Option<Value>
    requires forall i :: 0 <= i < |p| ==> p[i] < |sg.nodes|
  {
    if p == [] then Some(x)
    else
      match NodeStep(env, sg.nodes[p[0]], x)
      case None => None
      case Some(y) => EvalWalk(env, sg, p[1..], y)
  }

  predicate IsThroughWalk(sg: Subgraph, p: seq<nat>) {
    IsWalk(sg, p) && p[0] == sg.entry && p[|p| - 1] == sg.tail
  }

  ghost predicate EmitsAlong(env: Env, sg: Subgraph, p: seq<nat>, x: Value, y: Value) {
    IsThroughWalk(sg, p) && EvalWalk(env, sg, p, x) == Some(y)
  }

  /** The subgraph, given `x`, delivers `y`. */
  ghost predicate Emits(env: Env, sg: Subgraph, x: Value, y: Value) {
    exists p :: EmitsAlong(env, sg, p, x, y)
  }

  /** The subgraph turns the stream `xs` into the stream `ys`. */
  ghost predicate GraphRuns(env: Env, sg: Subgraph, xs: seq<Value>, ys: seq<Value>) {
    if xs == [] then ys == []
    else
      || (ys != [] && Emits(env, sg, xs[0], ys[0]) && GraphRuns(env, sg, xs[1..], ys[1..]))
      || ((forall y :: !Emits(env, sg, xs[0], y)) && GraphRuns(env, sg, xs[1..], ys))
  }

  // ----- linear subgraphs

  /** `p` leads from entry to tail, every node on it has exactly the next one as successor,
      and the tail has none. */
  predicate LinearPath(sg: Subgraph, p: seq<nat>) {
    && IsThroughWalk(sg, p)
    && (forall i :: 0 <= i < |p| - 1 ==> Targets(sg.edges, p[i]) == [p[i + 1]])
    && Targets(sg.edges, sg.tail) == []
  }

  lemma {:induction false} NotYetAtTail(sg: Subgraph, p: seq<nat>, i: nat)
    requires LinearPath(sg, p) && i < |p| - 1
    ensures p[i] != sg.tail
  {
    assert Targets(sg.edges, p[i]) == [p[i + 1]];
  }

  lemma {:induction false} WalkAgrees(sg: Subgraph, p: seq<nat>, q: seq<nat>, i: nat)
    requires LinearPath(sg, p) && IsWalk(sg, q) && q[0] == sg.entry && i < |q|
    ensures i < |p| && q[i] == p[i]
  {
    if i > 0 {
      WalkAgrees(sg, p, q, i - 1);
      assert q[i] in Targets(sg.edges, q[i - 1]);
      if i - 1 < |p| - 1 {
        assert Targets(sg.edges, p[i - 1]) == [p[i]];
      }
    }
  }

  /** The walk of a linear subgraph is its only one from entry to tail. */
  lemma {:induction false} ThroughWalkUnique(sg: Subgraph, p: seq<nat>, q: seq<nat>)
    requires LinearPath(sg, p) && IsThroughWalk(sg, q)
    ensures q == p
  {
    forall i | 0 <= i < |q| ensures i < |p| && q[i] == p[i] {
      WalkAgrees(sg, p, q, i);
    }
    if |q| < |p| {
      NotYetAtTail(sg, p, |q| - 1);
    }
  }

  lemma {:induction false} RepeatShifts(sg: Subgraph, p: seq<nat>, i: nat, j: nat, k: nat)
    requires LinearPath(sg, p) && i < j && j + k < |p| && p[i] == p[j]
    ensures p[i + k] == p[j + k]
  {
    if k > 0 {
      RepeatShifts(sg, p, i, j, k - 1);
      assert Targets(sg.edges, p[i + k - 1]) == [p[i + k]];
      assert Targets(sg.edges, p[j + k - 1]) == [p[j + k]];
    }
  }

  /** A linear subgraph visits no node twice. */
  lemma {:induction false} LinearPathDistinct(sg: Subgraph, p: seq<nat>, i: nat, j: nat)
    requires LinearPath(sg, p) && i < j < |p|
    ensures p[i] != p[j]
  {
    if p[i] == p[j] {
      var k := |p| - 1 - j;
      NotYetAtTail(sg, p, i + k);
      RepeatShifts(sg, p, i, j, k);
    }
  }

  lemma {:induction false} LinearEmits(env: Env, sg: Subgraph, p: seq<nat>, x: Value, y: Value)
    requires LinearPath(sg, p)
    ensures Emits(env, sg, x, y) <==> EvalWalk(env, sg, p, x) == Some(y)
  {
    if Emits(env, sg, x, y) {
      var q :| EmitsAlong(env, sg, q, x, y);
      ThroughWalkUnique(sg, p, q);
    }
    if EvalWalk(env, sg, p, x) == Some(y) {
      assert EmitsAlong(env, sg, p, x, y);
    }
  }
}
