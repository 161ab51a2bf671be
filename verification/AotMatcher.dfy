/** The matcher that compares a normalized Graph with a stage list. */
module AotMatcher {
  import opened Basics
  import opened Callables
  import opened AotStages
  import opened DataGraph

  // ----- one node against the stages in front of it

  function MatchWidth(n: Node): (w: nat)
    ensures w > 0
  {
    if n.op.FilterOp? then 1 else |NodeCalls(n)|
  }

  /** Map stages that call `cs` one after the other. */
  predicate ChainMatches(cs: seq<Callable>, ss: seq<Stage>) {
    && |cs| == |ss|
    && (forall i :: 0 <= i < |cs| ==> ss[i].kind.MapStage? && Same(cs[i], ss[i].callable))
  }

  predicate NodeMatches(n: Node, stages: seq<Stage>, first: nat): (ok: bool)
    ensures ok ==> first + MatchWidth(n) <= |stages|
  {
    && n.hasFn && !n.hasRelation && n.subgraphs == []
    && first < |stages|
    && first + MatchWidth(n) <= |stages|
    && (if n.op.FilterOp? then
          && n.fnChain == []
          && stages[first].kind.FilterStage?
          && Same(n.fn, stages[first].callable)
        else
          n.op.MapOp? && ChainMatches(NodeCalls(n), stages[first..first + MatchWidth(n)]))
    && TypeEqual(n.inputType, stages[first].inputType)
    && TypeEqual(n.outputType, stages[first + MatchWidth(n) - 1].outputType)
  }

  method NodeMatchesStages(n: Node, stages: seq<Stage>, first: nat) returns (ok: bool, next: nat)
    ensures ok <==> NodeMatches(n, stages, first)
    ensures ok ==> next == first + MatchWidth(n)
  {
    next := first;
    if !n.hasFn || n.hasRelation || n.subgraphs != [] || first >= |stages| {
      return false, next;
    }
    if n.op.FilterOp? {
      if n.fnChain != [] || !stages[first].kind.FilterStage? || !Same(n.fn, stages[first].callable) {
        return false, next;
      }
      next := first + 1;
    } else if n.op.MapOp? {
      var calls := NodeCalls(n);
      if |calls| > |stages| - first {
        return false, next;
      }
      ghost var window := stages[first..first + |calls|];
      var index := 0;
      while index < |calls|
        invariant 0 <= index <= |calls|
        invariant forall i :: 0 <= i < index ==> window[i].kind.MapStage? && Same(calls[i], window[i].callable)
      {
        assert window[index] == stages[first + index];
        if !stages[first + index].kind.MapStage? || !Same(calls[index], stages[first + index].callable) {
          return false, next;
        }
        index := index + 1;
      }
      next := first + |calls|;
    } else {
      return false, next;
    }
    ok := TypeEqual(n.inputType, stages[first].inputType) && TypeEqual(n.outputType, stages[next - 1].outputType);
  }

  lemma {:induction false} ChainMeansStages(env: Env, cs: seq<Callable>, ss: seq<Stage>, x: Value)
    requires ChainMatches(cs, ss)
    ensures EvalStages(env, ss, x) == Some(ApplyAll(env, cs, x))
  {
    if cs != [] {
      SameMeaning(env, cs[0], ss[0].callable, x);
      ChainMeansStages(env, cs[1..], ss[1..], Apply(env, cs[0], x));
    }
  }

  /** A matched node does exactly what the stages it consumed do. */
  lemma {:induction false} NodeMeansStages(env: Env, n: Node, stages: seq<Stage>, first: nat, x: Value)
    requires NodeMatches(n, stages, first)
    ensures NodeStep(env, n, x) == EvalStages(env, stages[first..first + MatchWidth(n)], x)
  {
    var ss := stages[first..first + MatchWidth(n)];
    if n.op.FilterOp? {
      SameMeaning(env, n.fn, stages[first].callable, x);
      assert ss == [stages[first]];
    } else {
      ChainMeansStages(env, NodeCalls(n), ss, x);
    }
  }

  // ----- the walk

  /** Walking from `node` with the stages from `k` on still to be matched. */
  predicate WalkMatches(sg: Subgraph, stages: seq<Stage>, node: nat, k: nat)
    decreases |stages| - k
  {
    if k >= |stages| then
      Targets(sg.edges, node) == [] && sg.tail == node
    else
      && |Targets(sg.edges, node)| == 1
      && var s := Targets(sg.edges, node)[0];
         s < |sg.nodes| && NodeMatches(sg.nodes[s], stages, k) &&
         WalkMatches(sg, stages, s, k + MatchWidth(sg.nodes[s]))
  }

  /** Boundary types, node and edge counts, and the source node. */
  predicate BoundaryMatches(ir: PipelineIr, sg: Subgraph) {
    && |sg.nodes| >= 2 && |sg.edges| == |sg.nodes| - 1
    && sg.entry < |sg.nodes|
    && TypeEqual(sg.inputType, ir.inputType) && TypeEqual(sg.outputType, ir.outputType)
    && sg.nodes[sg.entry].op.InputOp? && !sg.nodes[sg.entry].hasFn
    && sg.nodes[sg.entry].subgraphs == []
    && TypeEqual(sg.nodes[sg.entry].outputType, ir.inputType)
  }

  predicate RootMatches(ir: PipelineIr, sg: Subgraph) {
    ValidIr(ir) && BoundaryMatches(ir, sg) && WalkMatches(sg, ir.stages, sg.entry, 0)
  }

  method MatchRoot(ir: PipelineIr, sg: Subgraph) returns (ok: bool)
    ensures ok <==> RootMatches(ir, sg)
  {
    hide NodeMatches, MatchWidth, ValidIr;
    ok := Validate(ir);
    if !ok {
      return;
    }
    if !BoundaryMatches(ir, sg) {
      return false;
    }
    var node: nat, stageIndex: nat := sg.entry, 0;
    while stageIndex < |ir.stages|
      invariant node < |sg.nodes|
      invariant stageIndex <= |ir.stages|
      invariant WalkMatches(sg, ir.stages, sg.entry, 0) <==> WalkMatches(sg, ir.stages, node, stageIndex)
      decreases |ir.stages| - stageIndex
    {
      var degree := OutDegree(sg, node);
      var successor := SingleSuccessor(sg, node);
      if degree != 1 || successor.None? || successor.value >= |sg.nodes| {
        return false;
      }
      var matched, next := NodeMatchesStages(sg.nodes[successor.value], ir.stages, stageIndex);
      if !matched {
        return false;
      }
      node, stageIndex := successor.value, next;
    }
    var degree := OutDegree(sg, node);
    return degree == 0 && sg.tail == node;
  }

  /** The nodes a successful walk visits. */
  function WalkPath(sg: Subgraph, stages: seq<Stage>, node: nat, k: nat): (p: seq<nat>)
    requires WalkMatches(sg, stages, node, k)
    ensures |p| > 0 && p[0] == node
    decreases |stages| - k
  {
    if k >= |stages| then [node]
    else
      var s := Targets(sg.edges, node)[0];
      [node] + WalkPath(sg, stages, s, k + MatchWidth(sg.nodes[s]))
  }

  lemma {:induction false} WalkPathLinear(sg: Subgraph, stages: seq<Stage>, node: nat, k: nat)
    requires WalkMatches(sg, stages, node, k) && node < |sg.nodes|
    ensures var p := WalkPath(sg, stages, node, k);
            && IsWalk(sg, p) && p[|p| - 1] == sg.tail
            && (forall i :: 0 <= i < |p| - 1 ==> Targets(sg.edges, p[i]) == [p[i + 1]])
            && Targets(sg.edges, sg.tail) == []
    decreases |stages| - k
  {
    hide NodeMatches, MatchWidth;
    if k < |stages| {
      var s := Targets(sg.edges, node)[0];
      WalkPathLinear(sg, stages, s, k + MatchWidth(sg.nodes[s]));
      var p, q := WalkPath(sg, stages, node, k), WalkPath(sg, stages, s, k + MatchWidth(sg.nodes[s]));
      assert forall i :: 1 <= i < |p| ==> p[i] == q[i - 1];
    }
  }

  lemma {:induction false} WalkPathMeans(env: Env, sg: Subgraph, stages: seq<Stage>, node: nat, k: nat, x: Value)
    requires WalkMatches(sg, stages, node, k) && node < |sg.nodes| && k <= |stages|
    requires forall i :: 0 <= i < |WalkPath(sg, stages, node, k)| ==> WalkPath(sg, stages, node, k)[i] < |sg.nodes|
    ensures EvalWalk(env, sg, WalkPath(sg, stages, node, k)[1..], x) == EvalStages(env, stages[k..], x)
    decreases |stages| - k
  {
    hide NodeMatches, MatchWidth, NodeStep;
    var p := WalkPath(sg, stages, node, k);
    if k < |stages| {
      var s := Targets(sg.edges, node)[0];
      var next := k + MatchWidth(sg.nodes[s]);
      var q := WalkPath(sg, stages, s, next);
      assert p[1..] == q;
      StepThenRest(env, sg.nodes[s], stages, k, x);
      var step := NodeStep(env, sg.nodes[s], x);
      if step.Some? {
        WalkPathMeans(env, sg, stages, s, next, step.value);
      }
    }
  }

  lemma {:induction false} StepThenRest(env: Env, n: Node, stages: seq<Stage>, k: nat, x: Value)
    requires NodeMatches(n, stages, k)
    ensures EvalStages(env, stages[k..], x) ==
            match NodeStep(env, n, x) {
              case None => None
              case Some(y) => EvalStages(env, stages[k + MatchWidth(n)..], y)
            }
  {
    var next := k + MatchWidth(n);
    NodeMeansStages(env, n, stages, k, x);
    assert stages[k..] == stages[k..next] + stages[next..];
    EvalConcat(env, stages[k..next], stages[next..], x);
  }

  /** An accepted subgraph has a single walk from entry to tail. */
  lemma {:induction false} MatchedIsLinear(ir: PipelineIr, sg: Subgraph)
    requires RootMatches(ir, sg)
    ensures LinearPath(sg, WalkPath(sg, ir.stages, sg.entry, 0))
  {
    WalkPathLinear(sg, ir.stages, sg.entry, 0);
  }

  /** Soundness for one value: an accepted subgraph delivers `y` exactly when the stage
      list does. */
  lemma {:induction false} MatchedEmits(env: Env, ir: PipelineIr, sg: Subgraph, x: Value, y: Value)
    requires RootMatches(ir, sg)
    ensures Emits(env, sg, x, y) <==> EvalStages(env, ir.stages, x) == Some(y)
  {
    var p := WalkPath(sg, ir.stages, sg.entry, 0);
    MatchedIsLinear(ir, sg);
    LinearEmits(env, sg, p, x, y);
    WalkPathMeans(env, sg, ir.stages, sg.entry, 0, x);
    assert ir.stages[0..] == ir.stages;
    assert EvalWalk(env, sg, p, x) == EvalWalk(env, sg, p[1..], x);
  }

  /** Soundness for streams: on every input stream an accepted subgraph has exactly one
      output stream, the one the stage list computes. */
  lemma {:induction false} MatchedRuns(env: Env, ir: PipelineIr, sg: Subgraph, xs: seq<Value>, ys: seq<Value>)
    requires RootMatches(ir, sg)
    ensures GraphRuns(env, sg, xs, ys) <==> ys == RunStages(env, ir.stages, xs)
    decreases xs, ys
  {
    if xs != [] {
      forall y ensures Emits(env, sg, xs[0], y) <==> EvalStages(env, ir.stages, xs[0]) == Some(y) {
        MatchedEmits(env, ir, sg, xs[0], y);
      }
      MatchedRuns(env, ir, sg, xs[1..], ys);
      if ys != [] {
        MatchedRuns(env, ir, sg, xs[1..], ys[1..]);
        assert ys == [ys[0]] + ys[1..];
      }
      if EvalStages(env, ir.stages, xs[0]).Some? {
        assert Emits(env, sg, xs[0], EvalStages(env, ir.stages, xs[0]).value);
        if ys == RunStages(env, ir.stages, xs) {
          assert ys[1..] == RunStages(env, ir.stages, xs[1..]);
        }
      }
    }
  }
}
