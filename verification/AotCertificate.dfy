/** The certificate checker: it accepts a stage list, a source Graph, an optimized Graph
and an untrusted rewrite trace only when the trace is a list of justified deletions that
leads from the one to the other. */
module AotCertificate {
  import opened Basics
  import opened Callables
  import opened AotStages
  import opened DataGraph
  import opened Lowering
  import opened AotMatcher

  // ----- a Graph against a stage list

  /** Two or more subgraphs stay two or more under normalization, so only a Graph with a
      single one can match. */
  predicate GraphMatches(ir: PipelineIr, g: Graph): (ok: bool)
    ensures ok ==> ValidIr(ir) && |g.subgraphs| == 1 && g.root == 0
    ensures ok ==> g.subgraphs[0].entry < |g.subgraphs[0].nodes|
  {
    && ValidIr(ir)
    && |g.subgraphs| == 1 && g.root == 0
    && Normalize(g.subgraphs[0]).Some?
    && RootMatches(ir, Normalize(g.subgraphs[0]).value)
  }

  method MatchGraph(ir: PipelineIr, g: Graph) returns (ok: bool)
    ensures ok <==> GraphMatches(ir, g)
  {
    ok := Validate(ir);
    if !ok {
      return;
    }
    if g.root >= |g.subgraphs| || |g.subgraphs| != 1 {
      return false;
    }
    var normalized := Normalize(g.subgraphs[0]);
    if normalized.None? {
      return false;
    }
    ok := MatchRoot(ir, normalized.value);
  }

  /** An accepted Graph, as given, has on every input stream exactly one output stream, and
      it is the one the stage list computes. */
  lemma {:induction false} GraphMeansStages(env: Env, ir: PipelineIr, g: Graph, xs: seq<Value>, ys: seq<Value>)
    requires GraphMatches(ir, g)
    ensures GraphRuns(env, g.subgraphs[0], xs, ys) <==> ys == RunStages(env, ir.stages, xs)
  {
    var sg := g.subgraphs[0];
    var out := Normalize(sg).value;
    forall x, y ensures Emits(env, sg, x, y) <==> Emits(env, out, x, y) {
      NormalizeMeaning(env, sg, x, y);
    }
    SameEmitsSameRuns(env, sg, out, xs, ys);
    MatchedRuns(env, ir, out, xs, ys);
  }

  lemma {:induction false} SameEmitsSameRuns(env: Env, a: Subgraph, b: Subgraph, xs: seq<Value>, ys: seq<Value>)
    requires forall x, y :: Emits(env, a, x, y) <==> Emits(env, b, x, y)
    ensures GraphRuns(env, a, xs, ys) <==> GraphRuns(env, b, xs, ys)
    decreases xs, ys
  {
    if xs != [] {
      SameEmitsSameRuns(env, a, b, xs[1..], ys);
      if ys != [] {
        SameEmitsSameRuns(env, a, b, xs[1..], ys[1..]);
      }
    }
  }

  // ----- source coordinates

  datatype Coordinate = Coordinate(node: nat, callableIndex: nat)

  /** The coordinate of every stage from `k` on, along a matching walk. */
  function Coordinates(sg: Subgraph, stages: seq<Stage>, node: nat, k: nat): (cs: seq<Coordinate>)
    requires WalkMatches(sg, stages, node, k)
    ensures k <= |stages| ==> |cs| == |stages| - k
    decreases |stages| - k
  {
    if k >= |stages| then []
    else
      var s := Targets(sg.edges, node)[0];
      NodeCoordinates(s, sg.nodes[s]) + Coordinates(sg, stages, s, k + MatchWidth(sg.nodes[s]))
  }

  function NodeCoordinates(id: nat, n: Node): (cs: seq<Coordinate>)
    ensures |cs| == MatchWidth(n)
    ensures forall i :: 0 <= i < |cs| ==> cs[i] == Coordinate(id, i)
  {
    seq(MatchWidth(n), i requires 0 <= i < MatchWidth(n) => Coordinate(id, i))
  }

  /** The coordinates of the stages one node consumes. */
  method FillCoordinates(coordinates: array<Coordinate>, first: nat, id: nat, n: Node)
    requires n.op.FilterOp? || n.op.MapOp?
    requires first + MatchWidth(n) <= coordinates.Length
    modifies coordinates
    ensures coordinates[..first + MatchWidth(n)] == old(coordinates[..first]) + NodeCoordinates(id, n)
  {
    var index := first;
    while index < first + MatchWidth(n)
      invariant first <= index <= first + MatchWidth(n)
      invariant coordinates[..index] == old(coordinates[..first]) + NodeCoordinates(id, n)[..index - first]
    {
      coordinates[index] := Coordinate(id, if n.op.MapOp? && n.fnChain != [] then index - first else 0);
      index := index + 1;
    }
  }

  lemma {:induction false} CoordinatesStep(sg: Subgraph, stages: seq<Stage>, node: nat, k: nat, done: seq<Coordinate>)
    requires WalkMatches(sg, stages, node, k) && k < |stages|
    ensures var s := Targets(sg.edges, node)[0];
            done + Coordinates(sg, stages, node, k) ==
            (done + NodeCoordinates(s, sg.nodes[s])) + Coordinates(sg, stages, s, k + MatchWidth(sg.nodes[s]))
  {
  }

  lemma {:induction false} MatchedNode(n: Node, stages: seq<Stage>, k: nat)
    requires NodeMatches(n, stages, k)
    ensures (n.op.FilterOp? || n.op.MapOp?) && 0 < MatchWidth(n) && k + MatchWidth(n) <= |stages|
  {
    hide Same;
  }

  lemma {:induction false} CoordinatesDone(sg: Subgraph, stages: seq<Stage>, node: nat)
    requires WalkMatches(sg, stages, node, |stages|)
    ensures Coordinates(sg, stages, node, |stages|) == []
  {
  }

  method CollectCoordinates(ir: PipelineIr, g: Graph) returns (ok: bool, coordinates: array<Coordinate>)
    requires 0 < |ir.stages| <= STAGE_LIMIT
    ensures fresh(coordinates) && coordinates.Length == STAGE_LIMIT
    ensures ok ==> |g.subgraphs| == 1 && g.root == 0
    ensures ok <==> |g.subgraphs| == 1 && g.root == 0 && g.subgraphs[0].entry < |g.subgraphs[0].nodes|
                    && WalkMatches(g.subgraphs[0], ir.stages, g.subgraphs[0].entry, 0)
    ensures ok ==> coordinates[..|ir.stages|] == Coordinates(g.subgraphs[0], ir.stages, g.subgraphs[0].entry, 0)
  {
    hide NodeMatches, MatchWidth, Coordinates, NodeCoordinates, Targets;
    coordinates := new Coordinate[STAGE_LIMIT](_ => Coordinate(0, 0));
    if |g.subgraphs| != 1 || g.root >= |g.subgraphs| {
      return false, coordinates;
    }
    var sg := g.subgraphs[0];
    var node: nat, stageIndex: nat := sg.entry, 0;
    while stageIndex < |ir.stages|
      invariant stageIndex <= |ir.stages|
      invariant if stageIndex == 0 then node == sg.entry else node < |sg.nodes| && sg.entry < |sg.nodes|
      invariant WalkMatches(sg, ir.stages, sg.entry, 0) <==> WalkMatches(sg, ir.stages, node, stageIndex)
      invariant WalkMatches(sg, ir.stages, sg.entry, 0) ==>
                  Coordinates(sg, ir.stages, sg.entry, 0) ==
                  coordinates[..stageIndex] + Coordinates(sg, ir.stages, node, stageIndex)
      decreases |ir.stages| - stageIndex
    {
      var successor := SingleSuccessor(sg, node);
      if successor.None? || successor.value >= |sg.nodes| {
        return false, coordinates;
      }
      var next := successor.value;
      var matched, after := NodeMatchesStages(sg.nodes[next], ir.stages, stageIndex);
      if !matched {
        return false, coordinates;
      }
      ghost var done := coordinates[..stageIndex];
      MatchedNode(sg.nodes[next], ir.stages, stageIndex);
      FillCoordinates(coordinates, stageIndex, next, sg.nodes[next]);
      if WalkMatches(sg, ir.stages, node, stageIndex) {
        CoordinatesStep(sg, ir.stages, node, stageIndex, done);
      }
      node, stageIndex := next, after;
    }
    var degree := OutDegree(sg, node);
    ok := node == sg.tail && degree == 0;
    if ok {
      CoordinatesDone(sg, ir.stages, node);
    }
  }

  /** The first stage with the given coordinate. */
  function FindFrom(cs: seq<Coordinate>, c: Coordinate, k: nat): (r: Option<nat>)
    requires k <= |cs|
    ensures r.Some? ==> k <= r.value < |cs| && cs[r.value] == c
    ensures r.None? ==> c !in cs[k..]
    decreases |cs| - k
  {
    if k == |cs| then None else if cs[k] == c then Some(k) else FindFrom(cs, c, k + 1)
  }

  method FindCoordinate(coordinates: array<Coordinate>, stageCount: nat, node: nat, callableIndex: nat)
    returns (r: Option<nat>)
    requires stageCount <= coordinates.Length
    ensures r == FindFrom(coordinates[..stageCount], Coordinate(node, callableIndex), 0)
  {
    var index := 0;
    while index < stageCount
      invariant 0 <= index <= stageCount
      invariant FindFrom(coordinates[..stageCount], Coordinate(node, callableIndex), 0) ==
                FindFrom(coordinates[..stageCount], Coordinate(node, callableIndex), index)
    {
      if coordinates[index].node == node && coordinates[index].callableIndex == callableIndex {
        return Some(index);
      }
      index := index + 1;
    }
    return None;
  }

  // ----- replaying the trace

  datatype Rule = IdempotentMapElimination | UnknownRule

  datatype Event = Event(rule: Rule, subgraph: nat, retained: Coordinate, removed: Coordinate)

  /** An optimizer trace and the two Graphs it claims to relate. */
  datatype Trace = Trace(source: Graph, optimized: Graph, sourceVersion: nat, optimizedVersion: nat, events: seq<Event>)

  predicate BoundTo(t: Trace, source: Graph, optimized: Graph) {
    && t.source == source && t.optimized == optimized
    && t.sourceVersion == source.version && t.optimizedVersion == optimized.version
  }

  /** The event deletes stage `d` because of stage `r`, the nearest one before it that is
      still there. */
  predicate Justified(stages: seq<Stage>, removed: seq<bool>, r: nat, d: nat)
    requires |removed| == |stages|
  {
    && r < d < |stages|
    && !removed[r] && !removed[d]
    && (forall j :: r < j < d ==> removed[j])
    && IdempotentPair(stages[r], stages[d])
  }

  function EventStage(cs: seq<Coordinate>, c: Coordinate): (r: Option<nat>)
    ensures r.Some? ==> r.value < |cs|
  {
    FindFrom(cs, c, 0)
  }

  predicate EventJustified(stages: seq<Stage>, cs: seq<Coordinate>, root: nat, removed: seq<bool>, e: Event)
    requires |removed| == |stages|
  {
    && e.rule.IdempotentMapElimination?
    && e.subgraph == root
    && EventStage(cs, e.retained).Some? && EventStage(cs, e.removed).Some?
    && Justified(stages, removed, EventStage(cs, e.retained).value, EventStage(cs, e.removed).value)
  }

  /** The deletion marks after a trace, if every event of it is justified when its turn comes. */
  function Replay(stages: seq<Stage>, cs: seq<Coordinate>, root: nat, removed: seq<bool>, events: seq<Event>): (r: Option<seq<bool>>)
    requires |removed| == |stages|
    ensures r.Some? ==> |r.value| == |stages|
    decreases |events|
  {
    if events == [] then Some(removed)
    else if !EventJustified(stages, cs, root, removed, events[0]) then None
    else Replay(stages, cs, root, removed[EventStage(cs, events[0].removed).value := true], events[1..])
  }

  /** The stages that are not marked. */
  function Kept(stages: seq<Stage>, removed: seq<bool>): (ks: seq<Stage>)
    requires |removed| == |stages|
  {
    if stages == [] then []
    else (if removed[0] then [] else [stages[0]]) + Kept(stages[1..], removed[1..])
  }

  function NoneRemoved(n: nat): (s: seq<bool>)
    ensures |s| == n && forall i :: 0 <= i < n ==> !s[i]
  {
    seq(n, i => false)
  }

  function RemainingIr(ir: PipelineIr, removed: seq<bool>): PipelineIr
    requires |removed| == |ir.stages|
  {
    ir.(stages := Kept(ir.stages, removed))
  }

  /** What the checker accepts. */
  predicate Certified(ir: PipelineIr, source: Graph, optimized: Graph, trace: Trace) {
    && GraphMatches(ir, source)
    && IsNormalized(source)
    && BoundTo(trace, source, optimized)
    && WalkMatches(source.subgraphs[0], ir.stages, source.subgraphs[0].entry, 0)
    && |trace.events| < |ir.stages|
    && var cs := Coordinates(source.subgraphs[0], ir.stages, source.subgraphs[0].entry, 0);
       var removed := Replay(ir.stages, cs, source.root, NoneRemoved(|ir.stages|), trace.events);
       removed.Some? && GraphMatches(RemainingIr(ir, removed.value), optimized)
  }

  predicate IsNormalized(g: Graph) {
    && g.root < |g.subgraphs|
    && forall s, n :: 0 <= s < |g.subgraphs| && 0 <= n < |g.subgraphs[s].nodes| ==> !g.subgraphs[s].nodes[n].op.HighLevelOp?
  }

  method NearestKept(removed: array<bool>, from: nat) returns (nearest: nat)
    requires 0 < from <= removed.Length
    ensures nearest < from
    ensures forall j :: nearest < j < from ==> removed[j]
    ensures nearest == 0 || !removed[nearest]
  {
    nearest := from - 1;
    while removed[nearest] && nearest != 0
      invariant nearest < from
      invariant forall j :: nearest < j < from ==> removed[j]
    {
      nearest := nearest - 1;
    }
  }

  /** One turn of the replay loop. */
  method CheckEvent(ir: PipelineIr, coordinates: array<Coordinate>, root: nat, removed: array<bool>, e: Event)
    returns (ok: bool, removedIndex: nat)
    requires |ir.stages| <= coordinates.Length && |ir.stages| <= removed.Length
    ensures ok <==> EventJustified(ir.stages, coordinates[..|ir.stages|], root, removed[..|ir.stages|], e)
    ensures ok ==> EventStage(coordinates[..|ir.stages|], e.removed) == Some(removedIndex)
  {
    removedIndex := 0;
    var n := |ir.stages|;
    var retained := FindCoordinate(coordinates, n, e.retained.node, e.retained.callableIndex);
    var deleted := FindCoordinate(coordinates, n, e.removed.node, e.removed.callableIndex);
    if !e.rule.IdempotentMapElimination? || e.subgraph != root || retained.None? || deleted.None? {
      return false, 0;
    }
    var r, d := retained.value, deleted.value;
    if r >= d || removed[r] || removed[d] {
      return false, 0;
    }
    var nearest := NearestKept(removed, d);
    ghost var marks := removed[..n];
    assert forall j :: 0 <= j < n ==> marks[j] == removed[j];
    if nearest != r {
      assert !(forall j :: r < j < d ==> marks[j]);
      return false, 0;
    }
    ok := IdempotentPair(ir.stages[r], ir.stages[d]);
    removedIndex := d;
  }

  method CollectKept(stages: seq<Stage>, removed: array<bool>) returns (remaining: seq<Stage>)
    requires |stages| <= removed.Length
    ensures remaining == Kept(stages, removed[..|stages|])
  {
    remaining := [];
    var index := 0;
    while index < |stages|
      invariant 0 <= index <= |stages|
      invariant remaining == Kept(stages[..index], removed[..index])
    {
      KeptSnoc(stages[..index], removed[..index], stages[index], removed[index]);
      assert stages[..index + 1] == stages[..index] + [stages[index]];
      assert removed[..index + 1] == removed[..index] + [removed[index]];
      if !removed[index] {
        remaining := remaining + [stages[index]];
      }
      index := index + 1;
    }
    assert stages[..index] == stages;
  }

  /** The replay loop. */
  method ReplayTrace(ir: PipelineIr, coordinates: array<Coordinate>, root: nat, events: seq<Event>)
    returns (ok: bool, removed: array<bool>)
    requires |ir.stages| <= STAGE_LIMIT <= coordinates.Length
    ensures fresh(removed) && removed.Length == STAGE_LIMIT
    ensures Replay(ir.stages, coordinates[..|ir.stages|], root, NoneRemoved(|ir.stages|), events) ==
            if ok then Some(removed[..|ir.stages|]) else None
  {
    hide EventJustified;
    var n := |ir.stages|;
    ghost var cs := coordinates[..n];
    removed := new bool[STAGE_LIMIT](_ => false);
    assert removed[..n] == NoneRemoved(n);
    var index := 0;
    while index < |events|
      invariant 0 <= index <= |events|
      invariant coordinates[..n] == cs
      invariant Replay(ir.stages, cs, root, NoneRemoved(n), events) ==
                Replay(ir.stages, cs, root, removed[..n], events[index..])
    {
      var justified, removedIndex := CheckEvent(ir, coordinates, root, removed, events[index]);
      assert events[index..][0] == events[index];
      assert events[index..][1..] == events[index + 1..];
      if !justified {
        return false, removed;
      }
      ghost var before := removed[..n];
      removed[removedIndex] := true;
      assert removed[..n] == before[removedIndex := true];
      index := index + 1;
    }
    return true, removed;
  }

  method MatchOptimizedGraph(ir: PipelineIr, source: Graph, optimized: Graph, trace: Trace) returns (ok: bool)
    ensures ok <==> Certified(ir, source, optimized, trace)
  {
    hide GraphMatches, StageContractValid, WalkMatches, Replay, Coordinates;
    ok := Validate(ir);
    if !ok {
      return;
    }
    if !IsNormalized(source) {
      return false;
    }
    ok := MatchGraph(ir, source);
    if !ok {
      return;
    }
    if !BoundTo(trace, source, optimized) {
      return false;
    }
    var collected, coordinates := CollectCoordinates(ir, source);
    if !collected {
      return false;
    }
    if |trace.events| >= |ir.stages| {
      return false;
    }
    var replayed, removed := ReplayTrace(ir, coordinates, source.root, trace.events);
    if !replayed {
      return false;
    }
    var remaining := CollectKept(ir.stages, removed);
    if remaining == [] {
      return false;
    }
    ok := MatchGraph(ir.(stages := remaining), optimized);
  }

  // ----- properties of the deletion marks

  lemma {:induction false} KeptConcat(a: seq<Stage>, ma: seq<bool>, b: seq<Stage>, mb: seq<bool>)
    requires |a| == |ma| && |b| == |mb|
    ensures Kept(a + b, ma + mb) == Kept(a, ma) + Kept(b, mb)
  {
    if a == [] {
      assert a + b == b && ma + mb == mb;
    } else {
      assert (a + b)[1..] == a[1..] + b && (ma + mb)[1..] == ma[1..] + mb;
      KeptConcat(a[1..], ma[1..], b, mb);
    }
  }

  lemma {:induction false} KeptSnoc(a: seq<Stage>, ma: seq<bool>, s: Stage, m: bool)
    requires |a| == |ma|
    ensures Kept(a + [s], ma + [m]) == Kept(a, ma) + (if m then [] else [s])
  {
    KeptConcat(a, ma, [s], [m]);
  }

  lemma {:induction false} KeptNothing(a: seq<Stage>, ma: seq<bool>)
    requires |a| == |ma| && forall i :: 0 <= i < |ma| ==> ma[i]
    ensures Kept(a, ma) == []
  {
    if a != [] {
      KeptNothing(a[1..], ma[1..]);
    }
  }

  lemma {:induction false} KeptAll(a: seq<Stage>)
    ensures Kept(a, NoneRemoved(|a|)) == a
  {
    if a != [] {
      assert NoneRemoved(|a|)[1..] == NoneRemoved(|a[1..]|);
      KeptAll(a[1..]);
    }
  }

  lemma {:induction false} KeptSplit(stages: seq<Stage>, removed: seq<bool>, i: nat)
    requires |removed| == |stages| && i <= |stages|
    ensures Kept(stages, removed) == Kept(stages[..i], removed[..i]) + Kept(stages[i..], removed[i..])
  {
    assert stages == stages[..i] + stages[i..] && removed == removed[..i] + removed[i..];
    KeptConcat(stages[..i], removed[..i], stages[i..], removed[i..]);
  }

  lemma {:induction false} KeptHead(stages: seq<Stage>, removed: seq<bool>, i: nat)
    requires |removed| == |stages| && i < |stages|
    ensures Kept(stages[i..], removed[i..]) ==
            (if removed[i] then [] else [stages[i]]) + Kept(stages[i + 1..], removed[i + 1..])
  {
    assert stages[i..][1..] == stages[i + 1..] && removed[i..][1..] == removed[i + 1..];
  }

  /** Between a stage that is there and a later one, everything being deleted. */
  lemma {:induction false} KeptBetween(stages: seq<Stage>, removed: seq<bool>, r: nat, d: nat)
    requires |removed| == |stages| && r < d < |stages| && !removed[r]
    requires forall j :: r < j < d ==> removed[j]
    ensures Kept(stages[r..], removed[r..]) ==
            [stages[r]] + ((if removed[d] then [] else [stages[d]]) + Kept(stages[d + 1..], removed[d + 1..]))
  {
    KeptHead(stages, removed, r);
    var ss, ms := stages[r + 1..], removed[r + 1..];
    KeptSplit(ss, ms, d - r - 1);
    KeptNothing(ss[..d - r - 1], ms[..d - r - 1]);
    assert ss[d - r - 1..] == stages[d..] && ms[d - r - 1..] == removed[d..];
    KeptHead(stages, removed, d);
  }

  /** The kept stages around a justified deletion. */
  lemma {:induction false} KeptAround(stages: seq<Stage>, removed: seq<bool>, r: nat, d: nat)
    requires |removed| == |stages| && Justified(stages, removed, r, d)
    ensures Kept(stages, removed) ==
            Kept(stages[..r], removed[..r]) + ([stages[r], stages[d]] + Kept(stages[d + 1..], removed[d + 1..]))
    ensures Kept(stages, removed[d := true]) ==
            Kept(stages[..r], removed[..r]) + ([stages[r]] + Kept(stages[d + 1..], removed[d + 1..]))
  {
    var after, rest := removed[d := true], Kept(stages[d + 1..], removed[d + 1..]);
    KeptSplit(stages, removed, r);
    KeptBetween(stages, removed, r, d);
    KeptSplit(stages, after, r);
    KeptBetween(stages, after, r, d);
    assert after[..r] == removed[..r] && after[d + 1..] == removed[d + 1..];
    assert [stages[r]] + ([stages[d]] + rest) == [stages[r], stages[d]] + rest;
    assert [] + rest == rest;
  }

  lemma {:induction false} KeptHonest(env: Env, stages: seq<Stage>, removed: seq<bool>)
    requires |removed| == |stages| && Honest(env, stages)
    ensures Honest(env, Kept(stages, removed))
  {
    hide KeepsWord;
    if stages != [] {
      HonestParts(env, [stages[0]], stages[1..]);
      assert [stages[0]] + stages[1..] == stages;
      KeptHonest(env, stages[1..], removed[1..]);
      HonestParts(env, [stages[0]], Kept(stages[1..], removed[1..]));
    }
  }

  /** The invariant of the replay loop: whatever prefix of the trace was replayed, the
      remaining stages are well typed, mean the same as all of them, and their number is
      the stage count less the events replayed. */
  lemma {:induction false} ReplayMeaning(env: Env, ir: PipelineIr, cs: seq<Coordinate>, root: nat, removed: seq<bool>, events: seq<Event>, x: Value)
    requires |removed| == |ir.stages|
    requires Chained(Kept(ir.stages, removed), ir.inputType.identity, ir.outputType.identity)
    requires Replay(ir.stages, cs, root, removed, events).Some?
    ensures var after := Kept(ir.stages, Replay(ir.stages, cs, root, removed, events).value);
            && Chained(after, ir.inputType.identity, ir.outputType.identity)
            && |after| == |Kept(ir.stages, removed)| - |events|
            && (Honest(env, ir.stages) && env.has(ir.inputType.identity, x) ==>
                  EvalStages(env, after, x) == EvalStages(env, Kept(ir.stages, removed), x))
    decreases |events|
  {
    if events != [] {
      var r, d := EventStage(cs, events[0].retained).value, EventStage(cs, events[0].removed).value;
      KeptAround(ir.stages, removed, r, d);
      if Honest(env, ir.stages) {
        KeptHonest(env, ir.stages, removed);
      }
      DeleteAdjacent(env, Kept(ir.stages[..r], removed[..r]), ir.stages[r], ir.stages[d],
                     Kept(ir.stages[d + 1..], removed[d + 1..]), ir.inputType.identity, ir.outputType.identity, x);
      ReplayMeaning(env, ir, cs, root, removed[d := true], events[1..], x);
    }
  }

  // ----- main theorem

  ghost predicate TypedStream(env: Env, t: TypeDesc, xs: seq<Value>) {
    forall i :: 0 <= i < |xs| ==> env.has(t.identity, xs[i])
  }

  lemma {:induction false} SameEvalSameRun(env: Env, a: seq<Stage>, b: seq<Stage>, xs: seq<Value>)
    requires forall i :: 0 <= i < |xs| ==> EvalStages(env, a, xs[i]) == EvalStages(env, b, xs[i])
    ensures RunStages(env, a, xs) == RunStages(env, b, xs)
  {
    if xs != [] {
      assert EvalStages(env, a, xs[0]) == EvalStages(env, b, xs[0]);
      SameEvalSameRun(env, a, b, xs[1..]);
    }
  }

  /** Translation validation: in every environment in which the maps of the pipeline keep their declared
      contracts, and on every stream of values of the input type, an accepted optimized Graph, the source
      Graph and the stage list have the same and only one output stream. */
  lemma {:induction false} CertifiedMeaning(env: Env, ir: PipelineIr, source: Graph, optimized: Graph, trace: Trace, xs: seq<Value>, ys: seq<Value>)
    requires Certified(ir, source, optimized, trace)
    requires Honest(env, ir.stages) && TypedStream(env, ir.inputType, xs)
    ensures GraphRuns(env, optimized.subgraphs[0], xs, ys) <==> ys == RunStages(env, ir.stages, xs)
    ensures GraphRuns(env, source.subgraphs[0], xs, ys) <==> ys == RunStages(env, ir.stages, xs)
  {
    var cs := Coordinates(source.subgraphs[0], ir.stages, source.subgraphs[0].entry, 0);
    var none := NoneRemoved(|ir.stages|);
    var removed := Replay(ir.stages, cs, source.root, none, trace.events).value;
    var remaining := RemainingIr(ir, removed);
    KeptAll(ir.stages);
    ValidChained(ir);
    forall i | 0 <= i < |xs| ensures EvalStages(env, ir.stages, xs[i]) == EvalStages(env, remaining.stages, xs[i]) {
      ReplayMeaning(env, ir, cs, source.root, none, trace.events, xs[i]);
    }
    SameEvalSameRun(env, ir.stages, remaining.stages, xs);
    GraphMeansStages(env, remaining, optimized, xs, ys);
    GraphMeansStages(env, ir, source, xs, ys);
  }

  /** The bound on the trace is enough: an accepted trace leaves a stage standing, and the
      optimized Graph accounts for exactly the stages that were not deleted. */
  lemma {:induction false} CertifiedCount(ir: PipelineIr, source: Graph, optimized: Graph, trace: Trace)
    requires Certified(ir, source, optimized, trace)
    ensures var cs := Coordinates(source.subgraphs[0], ir.stages, source.subgraphs[0].entry, 0);
            var removed := Replay(ir.stages, cs, source.root, NoneRemoved(|ir.stages|), trace.events).value;
            |Kept(ir.stages, removed)| == |ir.stages| - |trace.events| > 0
  {
    var cs := Coordinates(source.subgraphs[0], ir.stages, source.subgraphs[0].entry, 0);
    var none := NoneRemoved(|ir.stages|);
    KeptAll(ir.stages);
    ValidChained(ir);
    var env := Env((t, v) => true, (c, v) => v, (c, v) => true);
    ReplayMeaning(env, ir, cs, source.root, none, trace.events, Value([]));
  }

  /** A trace certifies nothing but the two Graphs it was recorded for, in the versions it was
      recorded for: once one of them has changed, it is refused with whatever stage list. */
  lemma {:induction false} TraceIsBound(ir: PipelineIr, other: PipelineIr, source: Graph, optimized: Graph, source': Graph, optimized': Graph, trace: Trace)
    requires Certified(ir, source, optimized, trace)
    ensures trace.sourceVersion == source.version && trace.optimizedVersion == optimized.version
    ensures source' != source || optimized' != optimized ==> !Certified(other, source', optimized', trace)
  {
    hide GraphMatches, WalkMatches, Replay, Coordinates;
  }
}
