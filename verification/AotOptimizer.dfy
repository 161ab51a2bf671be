/** The map-fusion and idempotent-map passes of the Graph optimizer, and the completeness of
the certificate checker for them: whatever these passes do to a matched Graph, the trace
they record is accepted. */
module AotOptimizer {
  import opened Basics
  import opened Callables
  import opened AotStages
  import opened DataGraph
  import opened Lowering
  import opened AotMatcher
  import opened AotCertificate

  datatype Passes = Passes(canonicalize: bool, mapFusion: bool, propertyRewrites: bool)

  predicate MapLike(n: Node) {
    n.op.MapOp? || n.op.TransformOp?
  }

  predicate NodePure(n: Node) {
    n.subgraphs == [] && forall i :: 0 <= i < |NodeCalls(n)| ==> Pure(NodeCalls(n)[i])
  }

  // ----- eliminating repeated idempotent maps in one fused run

  /** Call `i` repeats the last retained call and may be dropped. */
  predicate Redundant(passes: Passes, calls: seq<Callable>, last: nat, i: nat)
    requires last < i < |calls|
  {
    && Same(calls[last], calls[i])
    && passes.propertyRewrites
    && DeclaresIdempotentEndomap(calls[last]) && DeclaresIdempotentEndomap(calls[i])
  }

  /** The calls retained from `i` on, the last one retained before being `last`. */
  function Retained(passes: Passes, calls: seq<Callable>, last: nat, i: nat): (cs: seq<Callable>)
    requires last < i <= |calls|
    decreases |calls| - i
  {
    if i == |calls| then []
    else if Redundant(passes, calls, last, i) then Retained(passes, calls, last, i + 1)
    else [calls[i]] + Retained(passes, calls, i, i + 1)
  }

  function Marks(passes: Passes, calls: seq<Callable>, last: nat, i: nat): (ms: seq<bool>)
    requires last < i <= |calls|
    ensures |ms| == |calls| - i
    decreases |calls| - i
  {
    if i == |calls| then []
    else if Redundant(passes, calls, last, i) then [true] + Marks(passes, calls, last, i + 1)
    else [false] + Marks(passes, calls, i, i + 1)
  }

  function Events(passes: Passes, calls: seq<Callable>, at: seq<Coordinate>, root: nat, last: nat, i: nat): (es: seq<Event>)
    requires last < i <= |calls| == |at|
    decreases |calls| - i
  {
    if i == |calls| then []
    else if Redundant(passes, calls, last, i) then
      [Event(IdempotentMapElimination, root, at[last], at[i])] + Events(passes, calls, at, root, last, i + 1)
    else Events(passes, calls, at, root, i, i + 1)
  }

  /** The loop that fills the fused chain and records the rewrites. */
  method FuseCalls(passes: Passes, calls: seq<Callable>, at: seq<Coordinate>, root: nat)
    returns (chain: seq<Callable>, events: seq<Event>)
    requires 0 < |calls| == |at|
    ensures chain == [calls[0]] + Retained(passes, calls, 0, 1)
    ensures events == Events(passes, calls, at, root, 0, 1)
  {
    chain, events := [calls[0]], [];
    var last, i := 0, 1;
    while i < |calls|
      invariant 0 <= last < i <= |calls|
      invariant chain != [] && chain[|chain| - 1] == calls[last]
      invariant chain + Retained(passes, calls, last, i) == [calls[0]] + Retained(passes, calls, 0, 1)
      invariant events + Events(passes, calls, at, root, last, i) == Events(passes, calls, at, root, 0, 1)
    {
      if Same(chain[|chain| - 1], calls[i]) && passes.propertyRewrites &&
         DeclaresIdempotentEndomap(chain[|chain| - 1]) && DeclaresIdempotentEndomap(calls[i]) {
        events := events + [Event(IdempotentMapElimination, root, at[last], at[i])];
      } else {
        chain := chain + [calls[i]];
        last := i;
      }
      i := i + 1;
    }
  }

  /** The second of two neighbouring calls repeats the first and both are declared idempotent. */
  predicate Repeats(a: Callable, b: Callable) {
    Same(a, b) && DeclaresIdempotentEndomap(a) && DeclaresIdempotentEndomap(b)
  }

  predicate NoRepeats(cs: seq<Callable>) {
    forall k :: 0 <= k < |cs| - 1 ==> !Repeats(cs[k], cs[k + 1])
  }

  /** The pass misses nothing: no two neighbours that could be merged are left. One event is
      recorded for each call that is gone. */
  lemma {:induction false} NoRepeatIsLeft(passes: Passes, calls: seq<Callable>, at: seq<Coordinate>, root: nat, last: nat, i: nat)
    requires last < i <= |calls| == |at|
    ensures passes.propertyRewrites ==> NoRepeats([calls[last]] + Retained(passes, calls, last, i))
    ensures |Retained(passes, calls, last, i)| + |Events(passes, calls, at, root, last, i)| == |calls| - i
    ensures !passes.propertyRewrites ==> Retained(passes, calls, last, i) == calls[i..]
    decreases |calls| - i
  {
    hide Same, DeclaresIdempotentEndomap;
    if i < |calls| {
      if Redundant(passes, calls, last, i) {
        NoRepeatIsLeft(passes, calls, at, root, last, i + 1);
      } else {
        NoRepeatIsLeft(passes, calls, at, root, i, i + 1);
        if passes.propertyRewrites {
          assert !Repeats(calls[last], calls[i]);
          NoRepeatsCons(calls[last], calls[i], Retained(passes, calls, i, i + 1));
        }
      }
    }
  }

  lemma {:induction false} NoRepeatsCons(a: Callable, b: Callable, rest: seq<Callable>)
    requires !Repeats(a, b) && NoRepeats([b] + rest)
    ensures NoRepeats([a] + ([b] + rest))
  {
    hide Repeats;
    var cs, ds := [a] + ([b] + rest), [b] + rest;
    forall k | 0 <= k < |cs| - 1 ensures !Repeats(cs[k], cs[k + 1]) {
      if k > 0 {
        assert cs[k] == ds[k - 1] && cs[k + 1] == ds[k - 1 + 1];
      }
    }
  }

  /** A list without repeats is left as it is. */
  lemma {:induction false} NoRepeatsStays(passes: Passes, cs: seq<Callable>, at: seq<Coordinate>, root: nat, i: nat)
    requires NoRepeats(cs) && 0 < i <= |cs| == |at|
    ensures Retained(passes, cs, i - 1, i) == cs[i..] && Events(passes, cs, at, root, i - 1, i) == []
    decreases |cs| - i
  {
    hide Same, DeclaresIdempotentEndomap;
    if i < |cs| {
      assert !Repeats(cs[i - 1], cs[i - 1 + 1]);
      NoRepeatsStays(passes, cs, at, root, i + 1);
    }
  }

  /** Fusing the calls of a run twice is the same as fusing them once. */
  lemma {:induction false} FusingIsIdempotent(passes: Passes, calls: seq<Callable>, at: seq<Coordinate>, at': seq<Coordinate>, root: nat)
    requires 0 < |calls| == |at| && |at'| == |[calls[0]] + Retained(passes, calls, 0, 1)|
    ensures var chain := [calls[0]] + Retained(passes, calls, 0, 1);
            [chain[0]] + Retained(passes, chain, 0, 1) == chain && Events(passes, chain, at', root, 0, 1) == []
  {
    hide NoRepeats, Retained, Events;
    var chain := [calls[0]] + Retained(passes, calls, 0, 1);
    if passes.propertyRewrites {
      NoRepeatIsLeft(passes, calls, at, root, 0, 1);
      NoRepeatsStays(passes, chain, at', root, 1);
    } else {
      NoRepeatIsLeft(passes, chain, at', root, 0, 1);
    }
  }

  // ----- the pass over one walk

  predicate StartsRun(passes: Passes, n: Node) {
    passes.mapFusion && MapLike(n) && DirectEligible(n.inputType) && DirectEligible(n.outputType) && NodePure(n)
  }

  predicate InRange(sg: Subgraph, p: seq<nat>) {
    forall i :: 0 <= i < |p| ==> p[i] < |sg.nodes|
  }

  /** How many nodes at the front of the walk are pure maps. */
  function RunLength(sg: Subgraph, p: seq<nat>): (m: nat)
    requires InRange(sg, p)
    ensures m <= |p|
    ensures forall i :: 0 <= i < m ==> MapLike(sg.nodes[p[i]]) && NodePure(sg.nodes[p[i]])
  {
    if p != [] && MapLike(sg.nodes[p[0]]) && NodePure(sg.nodes[p[0]]) then 1 + RunLength(sg, p[1..]) else 0
  }

  function CallsOf(sg: Subgraph, p: seq<nat>): (cs: seq<Callable>)
    requires InRange(sg, p)
    ensures p != [] ==> cs != []
  {
    if p == [] then [] else NodeCalls(sg.nodes[p[0]]) + CallsOf(sg, p[1..])
  }

  function CoordinatesOf(sg: Subgraph, p: seq<nat>): (cs: seq<Coordinate>)
    requires InRange(sg, p)
  {
    if p == [] then [] else NodeCoordinates(p[0], sg.nodes[p[0]]) + CoordinatesOf(sg, p[1..])
  }

  function FusedNode(chain: seq<Callable>, outputType: TypeDesc): Node
    requires chain != [] && UnaryValue(chain[0])
  {
    Node(MapOp, chain[0], true, chain, false, [], chain[0].sig.value.params[0], outputType)
  }

  function PlainNode(passes: Passes, n: Node): Node {
    n.(op := if passes.canonicalize && n.op.TransformOp? then MapOp else n.op, hasFn := true, hasRelation := false)
  }

  /** Every node the passes may fuse has a unary value callable. */
  predicate Fusible(sg: Subgraph, p: seq<nat>)
    requires InRange(sg, p)
  {
    forall i :: 0 <= i < |p| && MapLike(sg.nodes[p[i]]) ==> UnaryValue(NodeCalls(sg.nodes[p[i]])[0])
  }

  lemma {:induction false} CallsFirst(sg: Subgraph, p: seq<nat>, m: nat)
    requires InRange(sg, p) && 0 < m <= |p|
    ensures CallsOf(sg, p[..m])[0] == NodeCalls(sg.nodes[p[0]])[0]
  {
  }

  /** The nodes of the optimized subgraph. */
  function OptNodes(passes: Passes, sg: Subgraph, p: seq<nat>): (ns: seq<Node>)
    requires InRange(sg, p) && Fusible(sg, p)
    decreases |p|
  {
    if p == [] then []
    else if StartsRun(passes, sg.nodes[p[0]]) then
      var m := RunLength(sg, p);
      CallsFirst(sg, p, m);
      var calls := CallsOf(sg, p[..m]);
      [FusedNode([calls[0]] + Retained(passes, calls, 0, 1), sg.nodes[p[m - 1]].outputType)] + OptNodes(passes, sg, p[m..])
    else [PlainNode(passes, sg.nodes[p[0]])] + OptNodes(passes, sg, p[1..])
  }

  lemma {:induction false} RunShape(sg: Subgraph, p: seq<nat>)
    requires InRange(sg, p)
    requires forall i :: 0 <= i < |p| ==> MapLike(sg.nodes[p[i]])
    ensures |CallsOf(sg, p)| == |CoordinatesOf(sg, p)|
  {
    if p != [] {
      RunShape(sg, p[1..]);
    }
  }

  // ----- no run is left to fuse

  lemma {:induction false} PlainStarts(passes: Passes, n: Node)
    ensures StartsRun(passes, PlainNode(passes, n)) <==> StartsRun(passes, n)
    ensures MapLike(PlainNode(passes, n)) && NodePure(PlainNode(passes, n)) <==> MapLike(n) && NodePure(n)
  {
    hide Pure;
    assert NodeCalls(PlainNode(passes, n)) == NodeCalls(n);
  }

  lemma {:induction false} RunIsLongest(sg: Subgraph, p: seq<nat>)
    requires InRange(sg, p) && RunLength(sg, p) < |p|
    ensures var n := sg.nodes[p[RunLength(sg, p)]]; !(MapLike(n) && NodePure(n))
  {
    hide MapLike, NodePure;
    if p != [] && MapLike(sg.nodes[p[0]]) && NodePure(sg.nodes[p[0]]) {
      RunIsLongest(sg, p[1..]);
    }
  }

  /** What follows a node that could start a run is no pure map: the passes leave no run of pure
      maps that they would fuse. */
  lemma {:induction false} NoRunIsLeft(passes: Passes, sg: Subgraph, p: seq<nat>, k: nat)
    requires InRange(sg, p) && Fusible(sg, p) && k + 1 < |OptNodes(passes, sg, p)|
    ensures var ns := OptNodes(passes, sg, p); !(StartsRun(passes, ns[k]) && MapLike(ns[k + 1]) && NodePure(ns[k + 1]))
    decreases |p|
  {
    hide MapLike, NodePure, StartsRun, RunLength, CallsOf, Retained, FusedNode, PlainNode, UnaryValue, NodeCalls;
    var fused := StartsRun(passes, sg.nodes[p[0]]);
    var m := if fused then RunLength(sg, p) else 1;
    if fused {
      RunStarts(passes, sg, p);
    }
    var rest := OptNodes(passes, sg, p[m..]);
    assert forall j :: 0 < j < |OptNodes(passes, sg, p)| ==> OptNodes(passes, sg, p)[j] == rest[j - 1];
    if k > 0 {
      NoRunIsLeft(passes, sg, p[m..], k - 1);
    } else if !fused {
      PlainStarts(passes, sg.nodes[p[0]]);
    } else {
      RunIsLongest(sg, p);
      NoStart(passes, sg.nodes[p[m]]);
      assert p[m..][0] == p[m];
      PlainStarts(passes, sg.nodes[p[m]]);
    }
  }

  lemma {:induction false} NoStart(passes: Passes, n: Node)
    requires !(MapLike(n) && NodePure(n))
    ensures !StartsRun(passes, n)
  {
  }

  lemma {:induction false} RunStarts(passes: Passes, sg: Subgraph, p: seq<nat>)
    requires InRange(sg, p) && p != [] && StartsRun(passes, sg.nodes[p[0]])
    ensures 0 < RunLength(sg, p) <= |p|
  {
  }

  /** The events the passes record. */
  function OptEvents(passes: Passes, sg: Subgraph, root: nat, p: seq<nat>): (es: seq<Event>)
    requires InRange(sg, p)
    decreases |p|
  {
    if p == [] then []
    else if StartsRun(passes, sg.nodes[p[0]]) then
      var m := RunLength(sg, p);
      RunShape(sg, p[..m]);
      Events(passes, CallsOf(sg, p[..m]), CoordinatesOf(sg, p[..m]), root, 0, 1) + OptEvents(passes, sg, root, p[m..])
    else OptEvents(passes, sg, root, p[1..])
  }

  /** The stages the passes delete. */
  function OptMarks(passes: Passes, sg: Subgraph, p: seq<nat>): (ms: seq<bool>)
    requires InRange(sg, p)
    decreases |p|
  {
    if p == [] then []
    else if StartsRun(passes, sg.nodes[p[0]]) then
      var m := RunLength(sg, p);
      [false] + Marks(passes, CallsOf(sg, p[..m]), 0, 1) + OptMarks(passes, sg, p[m..])
    else NoneRemoved(MatchWidth(sg.nodes[p[0]])) + OptMarks(passes, sg, p[1..])
  }

  // ----- a matched walk as a list of nodes

  predicate PathMatches(sg: Subgraph, p: seq<nat>, ss: seq<Stage>)
    requires InRange(sg, p)
    decreases |p|
  {
    if p == [] then ss == []
    else
      && NodeMatches(sg.nodes[p[0]], ss, 0)
      && PathMatches(sg, p[1..], ss[MatchWidth(sg.nodes[p[0]])..])
  }

  lemma {:induction false} NodeMatchesShift(n: Node, ss: seq<Stage>, k: nat)
    requires k <= |ss|
    ensures NodeMatches(n, ss, k) <==> NodeMatches(n, ss[k..], 0)
  {
    if k + MatchWidth(n) <= |ss| {
      assert ss[k..k + MatchWidth(n)] == ss[k..][0..MatchWidth(n)];
    }
  }

  lemma {:induction false} NodeMatchesPrefix(n: Node, a: seq<Stage>, b: seq<Stage>)
    requires NodeMatches(n, a, 0)
    ensures NodeMatches(n, a + b, 0)
  {
    assert (a + b)[0..MatchWidth(n)] == a[0..MatchWidth(n)];
  }

  lemma {:induction false} WalkIsPath(sg: Subgraph, stages: seq<Stage>, node: nat, k: nat)
    requires WalkMatches(sg, stages, node, k) && node < |sg.nodes| && k <= |stages|
    requires InRange(sg, WalkPath(sg, stages, node, k))
    ensures var p := WalkPath(sg, stages, node, k);
            PathMatches(sg, p[1..], stages[k..]) && CoordinatesOf(sg, p[1..]) == Coordinates(sg, stages, node, k)
    decreases |stages| - k
  {
    hide NodeMatches, MatchWidth;
    if k < |stages| {
      var s := Targets(sg.edges, node)[0];
      var next := k + MatchWidth(sg.nodes[s]);
      var p, q := WalkPath(sg, stages, node, k), WalkPath(sg, stages, s, next);
      assert p[1..] == q;
      NodeMatchesShift(sg.nodes[s], stages, k);
      assert stages[k..][MatchWidth(sg.nodes[s])..] == stages[next..];
      WalkIsPath(sg, stages, s, next);
    }
  }

  /** A matched map node in front of a run. */
  lemma {:induction false} RunStep(n: Node, ss: seq<Stage>, cs: seq<Callable>)
    requires NodeMatches(n, ss, 0) && MapLike(n)
    requires |cs| <= |ss| - MatchWidth(n) && ChainMatches(cs, ss[MatchWidth(n)..][..|cs|])
    ensures MatchWidth(n) == |NodeCalls(n)|
    ensures ChainMatches(NodeCalls(n) + cs, ss[..|NodeCalls(n)| + |cs|])
    ensures TypeEqual(n.outputType, ss[|NodeCalls(n)| - 1].outputType)
  {
    hide Same, TypeEqual;
    var w := MatchWidth(n);
    assert ss[..w + |cs|] == ss[0..w] + ss[w..][..|cs|];
  }

  lemma {:induction false} PathHead(sg: Subgraph, p: seq<nat>, ss: seq<Stage>)
    requires InRange(sg, p) && PathMatches(sg, p, ss) && p != []
    ensures NodeMatches(sg.nodes[p[0]], ss, 0) && MatchWidth(sg.nodes[p[0]]) <= |ss|
    ensures PathMatches(sg, p[1..], ss[MatchWidth(sg.nodes[p[0]])..])
  {
  }

  lemma {:induction false} CallsHead(sg: Subgraph, p: seq<nat>, m: nat)
    requires InRange(sg, p) && 0 < m <= |p|
    ensures CallsOf(sg, p[..m]) == NodeCalls(sg.nodes[p[0]]) + CallsOf(sg, p[1..][..m - 1])
  {
    hide NodeCalls;
    TakeDropTail(p, m);
  }

  lemma {:induction false} DropTwice(ss: seq<Stage>, a: nat, b: nat)
    requires a + b <= |ss|
    ensures ss[a..][b..] == ss[a + b..]
    ensures b > 0 ==> ss[a..][b - 1] == ss[a + b - 1]
  {
  }

  /** The calls of a run of matched map nodes are the stages the run accounts for. */
  lemma {:induction false} RunMatches(sg: Subgraph, p: seq<nat>, ss: seq<Stage>, m: nat)
    requires InRange(sg, p) && PathMatches(sg, p, ss) && m <= |p|
    requires forall i :: 0 <= i < m ==> MapLike(sg.nodes[p[i]])
    ensures var w := |CallsOf(sg, p[..m])|;
            && w <= |ss| && ChainMatches(CallsOf(sg, p[..m]), ss[..w])
            && PathMatches(sg, p[m..], ss[w..])
            && (m > 0 ==> TypeEqual(sg.nodes[p[m - 1]].outputType, ss[w - 1].outputType))
    decreases m
  {
    hide NodeMatches, MatchWidth, ChainMatches, TypeEqual, MapLike, NodeCalls, PathMatches;
    if m == 0 {
      assert p[m..] == p && ss[0..] == ss;
      EmptyChain(ss);
    } else {
      var n := sg.nodes[p[0]];
      var w0 := MatchWidth(n);
      PathHead(sg, p, ss);
      TakeDropTail(p, m);
      RunMatches(sg, p[1..], ss[w0..], m - 1);
      var rest := CallsOf(sg, p[1..][..m - 1]);
      RunStep(n, ss, rest);
      CallsHead(sg, p, m);
      DropTwice(ss, w0, |rest|);
    }
  }

  lemma {:induction false} TakeDropTail<T>(p: seq<T>, m: nat)
    requires 0 < m <= |p|
    ensures p[..m][0] == p[0] && p[..m][1..] == p[1..][..m - 1] && p[m..] == p[1..][m - 1..]
    ensures m > 1 ==> p[1..][m - 2] == p[m - 1]
  {
  }

  lemma {:induction false} EmptyChain(ss: seq<Stage>)
    ensures ChainMatches([], ss[..0])
  {
  }

  // ----- the recorded events replay

  lemma {:induction false} ReplayConcat(stages: seq<Stage>, cs: seq<Coordinate>, root: nat, removed: seq<bool>, a: seq<Event>, b: seq<Event>)
    requires |removed| == |stages| && Replay(stages, cs, root, removed, a).Some?
    ensures Replay(stages, cs, root, removed, a + b) ==
            Replay(stages, cs, root, Replay(stages, cs, root, removed, a).value, b)
    decreases |a|
  {
    if a == [] {
      assert a + b == b;
    } else {
      assert (a + b)[0] == a[0] && (a + b)[1..] == a[1..] + b;
      ReplayConcat(stages, cs, root, removed[EventStage(cs, a[0].removed).value := true], a[1..], b);
    }
  }

  predicate DistinctCoordinates(cs: seq<Coordinate>) {
    forall i, j :: 0 <= i < j < |cs| ==> cs[i] != cs[j]
  }

  lemma {:induction false} FindsItself(cs: seq<Coordinate>, i: nat, k: nat)
    requires DistinctCoordinates(cs) && k <= i < |cs|
    ensures FindFrom(cs, cs[i], k) == Some(i)
    decreases i - k
  {
    if k < i {
      FindsItself(cs, i, k + 1);
    }
  }

  lemma {:induction false} RedundantPair(passes: Passes, stages: seq<Stage>, k: nat, calls: seq<Callable>, last: nat, i: nat)
    requires k + |calls| <= |stages| && ChainMatches(calls, stages[k..k + |calls|])
    requires last < i < |calls| && Redundant(passes, calls, last, i)
    ensures IdempotentPair(stages[k + last], stages[k + i])
  {
  }

  lemma {:induction false} ReplayStep(stages: seq<Stage>, cs: seq<Coordinate>, root: nat, removed: seq<bool>, r: nat, d: nat, rest: seq<Event>)
    requires |removed| == |stages| == |cs| && DistinctCoordinates(cs)
    requires Justified(stages, removed, r, d)
    ensures Replay(stages, cs, root, removed, [Event(IdempotentMapElimination, root, cs[r], cs[d])] + rest) ==
            Replay(stages, cs, root, removed[d := true], rest)
  {
    hide DistinctCoordinates, IdempotentPair;
    FindsItself(cs, r, 0);
    FindsItself(cs, d, 0);
    var e := Event(IdempotentMapElimination, root, cs[r], cs[d]);
    assert EventJustified(stages, cs, root, removed, e);
    assert ([e] + rest)[1..] == rest;
  }

  /** Within one run, whose calls stand for the stages from `k` on. */
  lemma {:induction false} RunReplays(passes: Passes, stages: seq<Stage>, cs: seq<Coordinate>, root: nat, removed: seq<bool>,
                                      k: nat, calls: seq<Callable>, at: seq<Coordinate>, last: nat, i: nat)
    requires |removed| == |stages| == |cs| && DistinctCoordinates(cs)
    requires last < i <= |calls| == |at| && k + |calls| <= |stages|
    requires ChainMatches(calls, stages[k..k + |calls|]) && at == cs[k..k + |calls|]
    requires !removed[k + last] && (forall j :: k + last < j < k + i ==> removed[j])
    requires forall j :: k + i <= j < |stages| ==> !removed[j]
    ensures Replay(stages, cs, root, removed, Events(passes, calls, at, root, last, i)) ==
            Some(removed[..k + i] + Marks(passes, calls, last, i) + removed[k + |calls|..])
    decreases |calls| - i
  {
    hide Redundant, IdempotentPair, ChainMatches, DistinctCoordinates, EventJustified;
    var end := k + |calls|;
    if i == |calls| {
      assert removed == removed[..k + i] + [] + removed[end..];
    } else if Redundant(passes, calls, last, i) {
      var rest := Events(passes, calls, at, root, last, i + 1);
      var e := Event(IdempotentMapElimination, root, at[last], at[i]);
      RedundantPair(passes, stages, k, calls, last, i);
      RunReplays(passes, stages, cs, root, removed[k + i := true], k, calls, at, last, i + 1);
      ReplayStep(stages, cs, root, removed, k + last, k + i, rest);
      MarkOne(removed, k + i, true, Marks(passes, calls, last, i + 1), end);
    } else {
      RunReplays(passes, stages, cs, root, removed, k, calls, at, i, i + 1);
      MarkOne(removed, k + i, false, Marks(passes, calls, i, i + 1), end);
      assert removed[k + i := false] == removed;
    }
  }

  lemma {:induction false} MarkOne(removed: seq<bool>, at: nat, m: bool, rest: seq<bool>, end: nat)
    requires at < end <= |removed|
    ensures var after := removed[at := m];
            after[..at + 1] + rest + after[end..] == removed[..at] + ([m] + rest) + removed[end..]
  {
    var after := removed[at := m];
    assert after[..at + 1] == removed[..at] + [m];
    assert after[end..] == removed[end..];
    assert (removed[..at] + [m]) + rest == removed[..at] + ([m] + rest);
  }

  lemma {:induction false} CoordinatesSplit(sg: Subgraph, p: seq<nat>, m: nat)
    requires InRange(sg, p) && m <= |p|
    ensures CoordinatesOf(sg, p) == CoordinatesOf(sg, p[..m]) + CoordinatesOf(sg, p[m..])
    decreases m
  {
    if m == 0 {
      assert p[0..] == p;
    } else {
      CoordinatesSplit(sg, p[1..], m - 1);
      assert p[1..][..m - 1] == p[..m][1..] && p[1..][m - 1..] == p[m..];
    }
  }

  /** A whole run. */
  lemma {:induction false} RunReplaysWhole(passes: Passes, stages: seq<Stage>, cs: seq<Coordinate>, root: nat, removed: seq<bool>,
                        k: nat, calls: seq<Callable>, at: seq<Coordinate>)
    requires |removed| == |stages| == |cs| && DistinctCoordinates(cs)
    requires 0 < |calls| == |at| && k + |calls| <= |stages|
    requires ChainMatches(calls, stages[k..k + |calls|]) && at == cs[k..k + |calls|]
    requires forall j :: k <= j < |stages| ==> !removed[j]
    ensures Replay(stages, cs, root, removed, Events(passes, calls, at, root, 0, 1)) ==
            Some(removed[..k] + ([false] + Marks(passes, calls, 0, 1)) + removed[k + |calls|..])
  {
    hide Replay, Events, Marks, DistinctCoordinates, ChainMatches;
    RunReplays(passes, stages, cs, root, removed, k, calls, at, 0, 1);
    MarkOne(removed, k, false, Marks(passes, calls, 0, 1), k + |calls|);
    assert removed[k := false] == removed;
  }

  lemma {:induction false} SplitSuffix<T>(s: seq<T>, k: nat, a: seq<T>, b: seq<T>)
    requires k <= |s| && s[k..] == a + b
    ensures k + |a| <= |s| && a == s[k..k + |a|] && b == s[k + |a|..]
  {
    assert s[k..][..|a|] == s[k..k + |a|] && s[k..][|a|..] == s[k + |a|..];
  }

  /** One run at the front of the walk. */
  lemma {:induction false} RunReplaysAt(passes: Passes, sg: Subgraph, root: nat, p: seq<nat>, stages: seq<Stage>,
                     cs: seq<Coordinate>, removed: seq<bool>, k: nat, m: nat)
    requires InRange(sg, p) && |removed| == |stages| == |cs| && k <= |stages| && DistinctCoordinates(cs)
    requires PathMatches(sg, p, stages[k..]) && CoordinatesOf(sg, p) == cs[k..]
    requires forall j :: k <= j < |stages| ==> !removed[j]
    requires 0 < m <= |p| && forall i :: 0 <= i < m ==> MapLike(sg.nodes[p[i]])
    ensures var calls, at := CallsOf(sg, p[..m]), CoordinatesOf(sg, p[..m]);
            var w := |calls|;
            && |at| == w && k + w <= |stages|
            && PathMatches(sg, p[m..], stages[k + w..]) && CoordinatesOf(sg, p[m..]) == cs[k + w..]
            && Replay(stages, cs, root, removed, Events(passes, calls, at, root, 0, 1)) ==
               Some(removed[..k] + ([false] + Marks(passes, calls, 0, 1)) + removed[k + w..])
  {
    hide Replay, Events, Marks, DistinctCoordinates, ChainMatches, TypeEqual, MapLike, PathMatches, CoordinatesOf, CallsOf;
    var calls, at := CallsOf(sg, p[..m]), CoordinatesOf(sg, p[..m]);
    var w := |calls|;
    RunShape(sg, p[..m]);
    RunMatches(sg, p, stages[k..], m);
    CoordinatesSplit(sg, p, m);
    SplitSuffix(stages, k, stages[k..][..w], stages[k..][w..]);
    SplitSuffix(cs, k, at, CoordinatesOf(sg, p[m..]));
    RunReplaysWhole(passes, stages, cs, root, removed, k, calls, at);
  }

  lemma {:induction false} MarksThenRest(a: seq<bool>, b: seq<bool>, c: seq<bool>, d: seq<bool>)
    ensures (a + b + c)[..|a| + |b|] + d == a + (b + d)
  {
    assert (a + b + c)[..|a| + |b|] == a + b;
  }

  /** Every event recorded along the walk is justified when its turn comes, and together they
      delete exactly the stages the passes dropped. */
  lemma {:induction false} OptimizerReplays(passes: Passes, sg: Subgraph, root: nat, p: seq<nat>, stages: seq<Stage>,
                                            cs: seq<Coordinate>, removed: seq<bool>, k: nat)
    requires InRange(sg, p) && |removed| == |stages| == |cs| && k <= |stages| && DistinctCoordinates(cs)
    requires PathMatches(sg, p, stages[k..]) && CoordinatesOf(sg, p) == cs[k..]
    requires forall j :: k <= j < |stages| ==> !removed[j]
    ensures |OptMarks(passes, sg, p)| == |stages| - k
    ensures Replay(stages, cs, root, removed, OptEvents(passes, sg, root, p)) == Some(removed[..k] + OptMarks(passes, sg, p))
    decreases |p|
  {
    hide NodeMatches, MatchWidth, StartsRun, EventJustified, DistinctCoordinates, MapLike, NodePure;
    if p == [] {
      assert removed[..k] + [] == removed;
    } else if StartsRun(passes, sg.nodes[p[0]]) {
      StartOfRun(passes, sg, p);
      var m := RunLength(sg, p);
      RunReplaysAt(passes, sg, root, p, stages, cs, removed, k, m);
      var calls, at := CallsOf(sg, p[..m]), CoordinatesOf(sg, p[..m]);
      var w, marks := |calls|, [false] + Marks(passes, calls, 0, 1);
      var after := removed[..k] + marks + removed[k + w..];
      OptimizerReplays(passes, sg, root, p[m..], stages, cs, after, k + w);
      ReplayConcat(stages, cs, root, removed, Events(passes, calls, at, root, 0, 1), OptEvents(passes, sg, root, p[m..]));
      MarksThenRest(removed[..k], marks, removed[k + w..], OptMarks(passes, sg, p[m..]));
    } else {
      var w := MatchWidth(sg.nodes[p[0]]);
      assert stages[k..][w..] == stages[k + w..];
      assert CoordinatesOf(sg, p[1..]) == cs[k..][w..] == cs[k + w..];
      OptimizerReplays(passes, sg, root, p[1..], stages, cs, removed, k + w);
      assert removed == removed[..k] + NoneRemoved(w) + removed[k + w..];
      MarksThenRest(removed[..k], NoneRemoved(w), removed[k + w..], OptMarks(passes, sg, p[1..]));
    }
  }

  lemma {:induction false} StartOfRun(passes: Passes, sg: Subgraph, p: seq<nat>)
    requires InRange(sg, p) && p != [] && StartsRun(passes, sg.nodes[p[0]])
    ensures RunLength(sg, p) > 0
  {
  }

  // ----- coordinates are unambiguous

  lemma {:induction false} CoordinateNodes(sg: Subgraph, p: seq<nat>, i: nat)
    requires InRange(sg, p) && i < |CoordinatesOf(sg, p)|
    ensures CoordinatesOf(sg, p)[i].node in p
  {
    var w := MatchWidth(sg.nodes[p[0]]);
    if i >= w {
      CoordinateNodes(sg, p[1..], i - w);
    }
  }

  lemma {:induction false} CoordinatesDistinct(sg: Subgraph, p: seq<nat>)
    requires InRange(sg, p) && forall i, j :: 0 <= i < j < |p| ==> p[i] != p[j]
    ensures DistinctCoordinates(CoordinatesOf(sg, p))
  {
    if p != [] {
      CoordinatesDistinct(sg, p[1..]);
      var cs, w := CoordinatesOf(sg, p), MatchWidth(sg.nodes[p[0]]);
      forall i, j | 0 <= i < j < |cs| ensures cs[i] != cs[j] {
        if i < w <= j {
          CoordinateNodes(sg, p[1..], j - w);
        }
      }
    }
  }

  // ----- the optimized nodes match the stages that were kept

  predicate NodesMatch(ns: seq<Node>, ss: seq<Stage>)
    decreases |ns|
  {
    if ns == [] then ss == []
    else NodeMatches(ns[0], ss, 0) && NodesMatch(ns[1..], ss[MatchWidth(ns[0])..])
  }

  /** Stages that satisfy their own contracts. */
  predicate ContractsHold(ss: seq<Stage>) {
    forall i :: 0 <= i < |ss| ==> StageContractValid(ss[i], ss[i].inputType)
  }

  lemma {:induction false} RedundantTypes(passes: Passes, calls: seq<Callable>, ss: seq<Stage>, last: nat, i: nat)
    requires ChainMatches(calls, ss) && last < i < |calls| && ContractsHold(ss)
    requires Redundant(passes, calls, last, i)
    ensures TypeEqual(ss[last].outputType, ss[i].outputType)
  {
    assert StageContractValid(ss[i], ss[i].inputType) && StageContractValid(ss[last], ss[last].inputType);
    assert Same(calls[i], ss[i].callable) && Same(calls[last], ss[last].callable);
  }

  lemma {:induction false} OwnType(ss: seq<Stage>, i: nat)
    requires ContractsHold(ss) && i < |ss|
    ensures TypeEqual(ss[i].outputType, ss[i].outputType)
  {
    assert StageContractValid(ss[i], ss[i].inputType);
  }

  lemma {:induction false} RetainedMatch(passes: Passes, calls: seq<Callable>, ss: seq<Stage>, last: nat, i: nat)
    requires ChainMatches(calls, ss) && last < i <= |calls| == |ss| && ContractsHold(ss)
    requires TypeEqual(ss[last].outputType, ss[i - 1].outputType)
    ensures var ks := Kept(ss[i..], Marks(passes, calls, last, i));
            && ChainMatches(Retained(passes, calls, last, i), ks)
            && |Retained(passes, calls, last, i)| == |ks|
            && TypeEqual(([ss[last]] + ks)[|ks|].outputType, ss[|ss| - 1].outputType)
    decreases |calls| - i
  {
    hide ContractsHold, Same, Redundant, ChainMatches;
    if i == |calls| {
      EmptyChain(ss);
      assert ss[i..] == ss[..0];
    } else if Redundant(passes, calls, last, i) {
      RedundantTypes(passes, calls, ss, last, i);
      RetainedMatch(passes, calls, ss, last, i + 1);
      KeptCons(ss, i, true, Marks(passes, calls, last, i + 1));
    } else {
      OwnType(ss, i);
      RetainedMatch(passes, calls, ss, i, i + 1);
      var rest := Marks(passes, calls, i, i + 1);
      KeptCons(ss, i, false, rest);
      var ks := Kept(ss[i + 1..], rest);
      assert ([ss[last]] + ([ss[i]] + ks))[|ks| + 1] == ([ss[i]] + ks)[|ks|];
      ChainCons(calls, ss, i, Retained(passes, calls, i, i + 1), ks);
    }
  }

  lemma {:induction false} KeptCons(ss: seq<Stage>, i: nat, m: bool, rest: seq<bool>)
    requires i < |ss| && |rest| == |ss| - i - 1
    ensures Kept(ss[i..], [m] + rest) == if m then Kept(ss[i + 1..], rest) else [ss[i]] + Kept(ss[i + 1..], rest)
  {
    assert ss[i..][1..] == ss[i + 1..] && ([m] + rest)[1..] == rest;
  }

  lemma {:induction false} ChainCons(calls: seq<Callable>, ss: seq<Stage>, i: nat, cs: seq<Callable>, ks: seq<Stage>)
    requires ChainMatches(calls, ss) && i < |calls| && ChainMatches(cs, ks)
    ensures ChainMatches([calls[i]] + cs, [ss[i]] + ks)
  {
    hide Same;
  }

  lemma {:induction false} FusedMatches(passes: Passes, calls: seq<Callable>, ss: seq<Stage>, out: TypeDesc)
    requires calls != [] && ChainMatches(calls, ss) && ContractsHold(ss)
    requires TypeEqual(out, ss[|ss| - 1].outputType) && UnaryValue(calls[0])
    ensures var chain := [calls[0]] + Retained(passes, calls, 0, 1);
            var ks := Kept(ss, [false] + Marks(passes, calls, 0, 1));
            NodeMatches(FusedNode(chain, out), ks, 0) && MatchWidth(FusedNode(chain, out)) == |ks|
  {
    hide Same, Retained, ContractsHold;
    OwnType(ss, 0);
    RetainedMatch(passes, calls, ss, 0, 1);
    var ms := Marks(passes, calls, 0, 1);
    KeptCons(ss, 0, false, ms);
    assert ss[0..] == ss;
    var ks := Kept(ss, [false] + ms);
    ChainCons(calls, ss, 0, Retained(passes, calls, 0, 1), Kept(ss[1..], ms));
    OwnInput(calls, ss);
    assert ks[0..|ks|] == ks;
  }

  lemma {:induction false} OwnInput(calls: seq<Callable>, ss: seq<Stage>)
    requires calls != [] && ChainMatches(calls, ss) && ContractsHold(ss) && UnaryValue(calls[0])
    ensures TypeEqual(calls[0].sig.value.params[0], ss[0].inputType)
  {
    assert StageContractValid(ss[0], ss[0].inputType) && Same(calls[0], ss[0].callable);
  }

  lemma {:induction false} MatchedUnary(sg: Subgraph, p: seq<nat>, ss: seq<Stage>)
    requires InRange(sg, p) && PathMatches(sg, p, ss) && ContractsHold(ss)
    ensures Fusible(sg, p)
    decreases |p|
  {
    if p != [] {
      var n := sg.nodes[p[0]];
      assert StageContractValid(ss[0], ss[0].inputType);
      if n.op.MapOp? {
        assert ss[0..MatchWidth(n)][0] == ss[0];
      }
      MatchedUnary(sg, p[1..], ss[MatchWidth(n)..]);
      forall i | 0 <= i < |p| && MapLike(sg.nodes[p[i]]) ensures UnaryValue(NodeCalls(sg.nodes[p[i]])[0]) {
        if i > 0 {
          assert p[i] == p[1..][i - 1];
        }
      }
    }
  }

  /** A fused run in front of nodes that match. */
  lemma {:induction false} RunThenRest(passes: Passes, sg: Subgraph, p: seq<nat>, ss: seq<Stage>, m: nat, ns: seq<Node>, ms: seq<bool>)
    requires InRange(sg, p) && PathMatches(sg, p, ss) && ContractsHold(ss) && Fusible(sg, p)
    requires 0 < m <= |p| && forall i :: 0 <= i < m ==> MapLike(sg.nodes[p[i]])
    requires |CallsOf(sg, p[..m])| <= |ss| && |ms| == |ss| - |CallsOf(sg, p[..m])|
    requires NodesMatch(ns, Kept(ss[|CallsOf(sg, p[..m])|..], ms))
    ensures var calls := CallsOf(sg, p[..m]);
            && UnaryValue(calls[0])
            && NodesMatch([FusedNode([calls[0]] + Retained(passes, calls, 0, 1), sg.nodes[p[m - 1]].outputType)] + ns,
                          Kept(ss, [false] + Marks(passes, calls, 0, 1) + ms))
  {
    hide NodeMatches, MatchWidth, ContractsHold, NodesMatch, TypeEqual, ChainMatches, UnaryValue, PathMatches, Retained, FusedNode;
    var calls := CallsOf(sg, p[..m]);
    CallsFirst(sg, p, m);
    RunMatches(sg, p, ss, m);
    var front, rest := ss[..|calls|], ss[|calls|..];
    SplitContracts(ss, |calls|);
    var marks, out := [false] + Marks(passes, calls, 0, 1), sg.nodes[p[m - 1]].outputType;
    FusedMatches(passes, calls, front, out);
    KeptConcat(front, marks, rest, ms);
    assert ss == front + rest;
    Prepend(FusedNode([calls[0]] + Retained(passes, calls, 0, 1), out), ns, Kept(front, marks), Kept(rest, ms));
  }

  lemma {:induction false} OptimizedMatches(passes: Passes, sg: Subgraph, p: seq<nat>, ss: seq<Stage>)
    requires InRange(sg, p) && PathMatches(sg, p, ss) && ContractsHold(ss) && Fusible(sg, p)
    ensures |OptMarks(passes, sg, p)| == |ss|
    ensures NodesMatch(OptNodes(passes, sg, p), Kept(ss, OptMarks(passes, sg, p)))
    decreases |p|
  {
    hide NodeMatches, MatchWidth, StartsRun, ContractsHold, MapLike, NodePure, UnaryValue, NodesMatch, TypeEqual, ChainMatches, Kept, FusedNode, PlainNode;
    if p == [] {
      NoNodesMatch();
      KeptAll(ss);
      assert NoneRemoved(0) == [];
    } else if StartsRun(passes, sg.nodes[p[0]]) {
      StartOfRun(passes, sg, p);
      var m := RunLength(sg, p);
      RunMatches(sg, p, ss, m);
      var w := |CallsOf(sg, p[..m])|;
      SplitContracts(ss, w);
      OptimizedMatches(passes, sg, p[m..], ss[w..]);
      RunThenRest(passes, sg, p, ss, m, OptNodes(passes, sg, p[m..]), OptMarks(passes, sg, p[m..]));
    } else {
      var n := sg.nodes[p[0]];
      var w := MatchWidth(n);
      var front, rest := ss[..w], ss[w..];
      assert ss == front + rest;
      SplitContracts(ss, w);
      OptimizedMatches(passes, sg, p[1..], rest);
      KeptAll(front);
      KeptConcat(front, NoneRemoved(w), rest, OptMarks(passes, sg, p[1..]));
      PlainMatches(passes, n, ss);
      Prepend(PlainNode(passes, n), OptNodes(passes, sg, p[1..]), front, Kept(rest, OptMarks(passes, sg, p[1..])));
    }
  }

  lemma {:induction false} NoNodesMatch()
    ensures NodesMatch([], [])
  {
  }

  lemma {:induction false} SplitContracts(ss: seq<Stage>, w: nat)
    requires ContractsHold(ss) && w <= |ss|
    ensures ContractsHold(ss[..w]) && ContractsHold(ss[w..])
  {
    hide StageContractValid;
    assert forall i :: 0 <= i < |ss[w..]| ==> ss[w..][i] == ss[w + i];
  }

  lemma {:induction false} PlainMatches(passes: Passes, n: Node, ss: seq<Stage>)
    requires NodeMatches(n, ss, 0)
    ensures NodeMatches(PlainNode(passes, n), ss[..MatchWidth(n)], 0)
    ensures MatchWidth(PlainNode(passes, n)) == MatchWidth(n)
  {
    hide Same;
    var w := MatchWidth(n);
    assert ss[..w][0..w] == ss[0..w];
  }

  lemma {:induction false} Prepend(n: Node, ns: seq<Node>, a: seq<Stage>, b: seq<Stage>)
    requires NodeMatches(n, a, 0) && MatchWidth(n) == |a| && NodesMatch(ns, b)
    ensures NodesMatch([n] + ns, a + b)
  {
    NodeMatchesPrefix(n, a, b);
    assert ([n] + ns)[1..] == ns && (a + b)[|a|..] == b;
  }

  // ----- assembling and re-normalizing

  lemma {:induction false} AssembledWalk(t: TypeDesc, ns: seq<Node>, ss: seq<Stage>, i: nat, k: nat)
    requires i <= |ns| && k <= |ss| && NodesMatch(ns[i..], ss[k..])
    ensures WalkMatches(Assemble(t, ns), ss, i, k)
    decreases |ns| - i
  {
    hide NodeMatches, MatchWidth, ChainEdges, Targets;
    var sg := Assemble(t, ns);
    ChainTargets(|ns|, i);
    if i < |ns| {
      assert sg.nodes[i + 1] == ns[i] && ns[i..][0] == ns[i] && ns[i..][1..] == ns[i + 1..];
      NodeMatchesShift(ns[i], ss, k);
      assert ss[k..][MatchWidth(ns[i])..] == ss[k + MatchWidth(ns[i])..];
      AssembledWalk(t, ns, ss, i + 1, k + MatchWidth(ns[i]));
    } else {
      assert ss[k..] == [];
    }
  }

  /** Every chain of nodes that accounts for the stages of a valid IR is accepted. */
  lemma {:induction false} AssembledMatches(ir: PipelineIr, t: TypeDesc, ns: seq<Node>)
    requires ValidIr(ir) && NodesMatch(ns, ir.stages) && TypeEqual(t, ir.inputType)
    ensures RootMatches(ir, Assemble(t, ns))
  {
    hide StageContractValid, NodesMatch, WalkMatches, Follow;
    assert ns[0..] == ns && ir.stages[0..] == ir.stages;
    AssembledWalk(t, ns, ir.stages, 0, 0);
    LastOutput(ns, ir.stages);
    assert FlowType(ir, |ir.stages|) == ir.stages[|ir.stages| - 1].outputType;
  }

  lemma {:induction false} LastOutput(ns: seq<Node>, ss: seq<Stage>)
    requires NodesMatch(ns, ss) && ss != []
    ensures ns != [] && TypeEqual(ns[|ns| - 1].outputType, ss[|ss| - 1].outputType)
    decreases |ns|
  {
    var w := MatchWidth(ns[0]);
    if w < |ss| {
      LastOutput(ns[1..], ss[w..]);
    } else {
      assert ns[1..] == [];
    }
  }

  /** The nodes of an optimized chain are already in lowered form. */
  predicate LoweredForm(n: Node) {
    && n.op in {FilterOp, MapOp} && n.hasFn && !n.hasRelation && n.subgraphs == []
    && UnaryValue(n.fn) && TypeEqual(n.inputType, n.fn.sig.value.params[0])
  }

  /** The node's own callable, which for a fused node none of its calls need be, takes the
      node's input. */
  predicate TakesInput(n: Node) {
    && UnaryValue(n.fn)
    && (n.fn.sig.value.params[0] == n.inputType || TypeEqual(n.inputType, n.fn.sig.value.params[0]))
  }

  lemma {:induction false} MatchedNodesLowered(ns: seq<Node>, ss: seq<Stage>, i: nat)
    requires NodesMatch(ns, ss) && ContractsHold(ss) && i < |ns|
    requires forall j :: 0 <= j < |ns| ==> ns[j].fnChain != [] ==> TakesInput(ns[j])
    ensures LoweredForm(ns[i])
    decreases |ns|
  {
    var w := MatchWidth(ns[0]);
    if i > 0 {
      MatchedNodesLowered(ns[1..], ss[w..], i - 1);
    } else {
      assert StageContractValid(ss[0], ss[0].inputType);
      if ns[0].op.MapOp? {
        assert ss[0..w][0] == ss[0];
      }
    }
  }

  lemma {:induction false} LowerLowered(sg: Subgraph, ns: seq<Node>, i: nat, flow: TypeDesc)
    requires sg == Assemble(sg.inputType, ns) && ValidRoot(sg) && i <= |ns|
    requires forall j :: 0 <= j < |ns| ==> LoweredForm(ns[j])
    requires i < |ns| ==> TypeEqual(flow, ns[i].inputType)
    ensures LowerNodes(sg, Iota(|ns| + 1)[i + 1..], flow) == Some(ns[i..])
    decreases |ns| - i
  {
    hide Follow, Targets, NodeMetadataValid, UnaryValue, ChainEdges;
    var q := Iota(|ns| + 1)[i + 1..];
    if i < |ns| {
      assert q[0] == i + 1 && q[1..] == Iota(|ns| + 1)[i + 2..];
      assert sg.nodes[i + 1] == ns[i];
      if i + 1 < |ns| {
        var e := sg.edges[i + 1];
        assert e == Edge(i + 1, i + 2);
        assert sg.nodes[i + 2] == ns[i + 1];
      }
      LowerLowered(sg, ns, i + 1, ns[i].outputType);
      assert ns[i..] == [ns[i]] + ns[i + 1..];
    } else {
      assert q == [] && ns[i..] == [];
    }
  }

  /** Normalizing an assembled chain of lowered nodes gives the chain back. */
  lemma {:induction false} NormalizeAssembled(t: TypeDesc, ns: seq<Node>)
    requires ValidRoot(Assemble(t, ns)) && forall j :: 0 <= j < |ns| ==> LoweredForm(ns[j])
    ensures Normalize(Assemble(t, ns)) == Some(Assemble(t, ns))
  {
    var sg := Assemble(t, ns);
    ValidRootIsLinear(sg);
    AssembleIsLinear(t, ns);
    ThroughWalkUnique(sg, Iota(|ns| + 1), Follow(sg.edges, sg.entry, |sg.nodes|));
    if ns != [] {
      assert sg.edges[0] == Edge(0, 1);
      assert sg.nodes[1] == ns[0];
    }
    LowerLowered(sg, ns, 0, t);
    assert ns[0..] == ns;
  }

  // ----- an assembled chain is a valid Graph

  /** The stages accept values of type `flow`, each in turn. */
  predicate StagesFlow(ss: seq<Stage>, flow: TypeDesc) {
    ss == [] || (StageContractValid(ss[0], flow) && StagesFlow(ss[1..], ss[0].outputType))
  }

  lemma {:induction false} ValidFlows(ir: PipelineIr, k: nat)
    requires ValidIr(ir) && k <= |ir.stages|
    ensures StagesFlow(ir.stages[k..], FlowType(ir, k))
    decreases |ir.stages| - k
  {
    hide StageContractValid, DirectEligible, TypeEqual;
    if k < |ir.stages| {
      ValidFlows(ir, k + 1);
      var rest := ir.stages[k..];
      assert rest[1..] == ir.stages[k + 1..] && rest[0] == ir.stages[k];
      assert FlowType(ir, k + 1) == ir.stages[k].outputType;
    }
  }

  lemma {:induction false} FlowsAfter(ss: seq<Stage>, flow: TypeDesc, w: nat)
    requires StagesFlow(ss, flow) && 0 < w <= |ss|
    ensures StagesFlow(ss[w..], ss[w - 1].outputType) && StagesFlow(ss[..w], flow)
    decreases w
  {
    hide StageContractValid;
    if w > 1 {
      FlowsAfter(ss[1..], ss[0].outputType, w - 1);
      assert ss[1..][w - 1..] == ss[w..] && ss[..w][1..] == ss[1..][..w - 1];
    } else {
      assert ss[..1][1..] == [];
    }
  }

  lemma {:induction false} ChainTyped(cs: seq<Callable>, ss: seq<Stage>, flow: TypeDesc, from: TypeDesc)
    requires ChainMatches(cs, ss) && StagesFlow(ss, flow) && TypeEqual(flow, from)
    ensures ChainType(cs, from).Some?
    ensures cs != [] ==> TypeEqual(ChainType(cs, from).value, ss[|ss| - 1].outputType)
  {
    if cs != [] {
      var s := ss[0];
      assert Same(cs[0], s.callable) && StageContractValid(s, flow);
      assert ChainMatches(cs[1..], ss[1..]);
      OwnOutput(s, flow);
      ChainTyped(cs[1..], ss[1..], s.outputType, cs[0].sig.value.ret);
    }
  }

  lemma {:induction false} OwnOutput(s: Stage, flow: TypeDesc)
    requires StageContractValid(s, flow)
    ensures s.kind.MapStage? ==> TypeEqual(s.callable.sig.value.ret, s.outputType)
  {
  }

  lemma {:induction false} NodeFlows(n: Node, ss: seq<Stage>, flow: TypeDesc)
    requires NodeMatches(n, ss, 0) && StagesFlow(ss, flow) && (n.fnChain != [] ==> TakesInput(n))
    ensures NodeMetadataValid(n) && TypeEqual(flow, n.inputType)
    ensures var w := MatchWidth(n); TypeEqual(n.outputType, ss[w - 1].outputType) && StagesFlow(ss[w..], ss[w - 1].outputType)
  {
    var w := MatchWidth(n);
    FlowsAfter(ss, flow, w);
    assert StageContractValid(ss[0], flow);
    if n.op.MapOp? {
      assert ss[0..w] == ss[..w];
      ChainTyped(NodeCalls(n), ss[..w], flow, n.inputType);
    }
  }

  /** Type of the value in front of node `j`. */
  function NodeFlowType(ns: seq<Node>, t: TypeDesc, j: nat): TypeDesc
    requires j <= |ns|
  {
    if j == 0 then t else ns[j - 1].outputType
  }

  lemma {:induction false} NodesFlow(ns: seq<Node>, ss: seq<Stage>, t: TypeDesc, flow: TypeDesc, j: nat)
    requires NodesMatch(ns, ss) && StagesFlow(ss, flow) && TypeEqual(t, flow) && j < |ns|
    requires forall i :: 0 <= i < |ns| ==> ns[i].fnChain != [] ==> TakesInput(ns[i])
    ensures NodeMetadataValid(ns[j]) && TypeEqual(NodeFlowType(ns, t, j), ns[j].inputType)
    decreases |ns|
  {
    hide NodeMatches, MatchWidth, StageContractValid, StagesFlow, NodeMetadataValid;
    NodeFlows(ns[0], ss, flow);
    if j > 0 {
      var w := MatchWidth(ns[0]);
      NodesFlow(ns[1..], ss[w..], ns[0].outputType, ss[w - 1].outputType, j - 1);
    }
  }

  lemma {:induction false} FollowChain(n: nat, i: nat, fuel: nat)
    requires i <= n <= i + fuel
    ensures |Follow(ChainEdges(n), i, fuel)| == n - i + 1
    decreases fuel
  {
    ChainTargets(n, i);
    if i < n {
      FollowChain(n, i + 1, fuel - 1);
    }
  }

  lemma {:induction false} AssembledEdge(t: TypeDesc, ns: seq<Node>, i: nat)
    requires i < |ns| && TypeEqual(NodeFlowType(ns, t, i), ns[i].inputType)
    ensures var sg := Assemble(t, ns);
            sg.edges[i] == Edge(i, i + 1) && TypeEqual(sg.nodes[i].outputType, sg.nodes[i + 1].inputType)
  {
    hide ChainEdges;
  }

  predicate EdgesTyped(sg: Subgraph) {
    forall i :: 0 <= i < |sg.edges| ==>
      && sg.edges[i].from < |sg.nodes| && sg.edges[i].to < |sg.nodes|
      && TypeEqual(sg.nodes[sg.edges[i].from].outputType, sg.nodes[sg.edges[i].to].inputType)
  }

  predicate NodesSound(sg: Subgraph) {
    forall n :: 0 <= n < |sg.nodes| ==> NodeMetadataValid(sg.nodes[n]) && |Targets(sg.edges, n)| <= 1
  }

  lemma {:induction false} AssembledEdges(ss: seq<Stage>, t: TypeDesc, ns: seq<Node>)
    requires NodesMatch(ns, ss) && StagesFlow(ss, t)
    requires TypeEqual(t, t)
    requires forall i :: 0 <= i < |ns| ==> ns[i].fnChain != [] ==> TakesInput(ns[i])
    ensures EdgesTyped(Assemble(t, ns))
  {
    hide NodesMatch, StagesFlow, NodeMetadataValid, ChainEdges;
    var sg := Assemble(t, ns);
    forall i | 0 <= i < |sg.edges|
      ensures sg.edges[i].from < |sg.nodes| && sg.edges[i].to < |sg.nodes|
      ensures TypeEqual(sg.nodes[sg.edges[i].from].outputType, sg.nodes[sg.edges[i].to].inputType)
    {
      NodesFlow(ns, ss, t, t, i);
      AssembledEdge(t, ns, i);
    }
  }

  lemma {:induction false} AssembledNodes(ss: seq<Stage>, t: TypeDesc, ns: seq<Node>)
    requires NodesMatch(ns, ss) && StagesFlow(ss, t)
    requires TypeEqual(t, t)
    requires forall i :: 0 <= i < |ns| ==> ns[i].fnChain != [] ==> TakesInput(ns[i])
    ensures NodesSound(Assemble(t, ns))
  {
    hide NodesMatch, StagesFlow, NodeMetadataValid, ChainEdges, Targets, SourceNode;
    var sg := Assemble(t, ns);
    SourceValid(t);
    forall n | 0 <= n < |sg.nodes| ensures NodeMetadataValid(sg.nodes[n]) && |Targets(sg.edges, n)| <= 1 {
      ChainTargets(|ns|, n);
      if n > 0 {
        NodesFlow(ns, ss, t, t, n - 1);
        assert sg.nodes[n] == ns[n - 1];
      }
    }
  }

  lemma {:induction false} AssembledEnds(t: TypeDesc, ns: seq<Node>)
    requires TypeEqual(t, t) && ns != [] && TypeEqual(ns[|ns| - 1].outputType, ns[|ns| - 1].outputType)
    requires EdgesTyped(Assemble(t, ns)) && NodesSound(Assemble(t, ns))
    ensures ValidRoot(Assemble(t, ns))
  {
    hide NodeMetadataValid, Follow, ChainEdges, Targets;
    ChainTargets(|ns|, |ns|);
    FollowChain(|ns|, 0, |Assemble(t, ns).nodes|);
  }

  lemma {:induction false} FlowsFrom(ss: seq<Stage>, a: TypeDesc, b: TypeDesc)
    requires StagesFlow(ss, a) && TypeEqual(a, b)
    ensures StagesFlow(ss, b)
  {
  }

  /** A chain of nodes that accounts for the stages of a valid IR passes validation. */
  lemma {:induction false} AssembledValid(ir: PipelineIr, t: TypeDesc, ns: seq<Node>)
    requires ValidIr(ir) && NodesMatch(ns, ir.stages) && TypeEqual(t, ir.inputType)
    requires forall i :: 0 <= i < |ns| ==> ns[i].fnChain != [] ==> TakesInput(ns[i])
    ensures ValidRoot(Assemble(t, ns))
  {
    hide NodesMatch, StageContractValid, StagesFlow, ValidRoot, Assemble, EdgesTyped, NodesSound;
    ValidFlows(ir, 0);
    assert ir.stages[0..] == ir.stages;
    FlowsFrom(ir.stages, ir.inputType, t);
    LastOutput(ns, ir.stages);
    AssembledEdges(ir.stages, t, ns);
    AssembledNodes(ir.stages, t, ns);
    AssembledEnds(t, ns);
  }

  lemma {:induction false} SourceValid(t: TypeDesc)
    ensures NodeMetadataValid(SourceNode(t))
  {
  }

  /** Every linear Graph built from a valid stage list, with any grouping of maps into fused
      nodes, is accepted by the whole matcher, validation and normalization included. */
  lemma {:induction false} AssembledAccepted(ir: PipelineIr, t: TypeDesc, ns: seq<Node>, version: nat)
    requires ValidIr(ir) && NodesMatch(ns, ir.stages) && TypeEqual(t, ir.inputType)
    requires forall i :: 0 <= i < |ns| ==> ns[i].fnChain != [] ==> TakesInput(ns[i])
    ensures GraphMatches(ir, Graph([Assemble(t, ns)], 0, version))
    ensures Normalize(Assemble(t, ns)) == Some(Assemble(t, ns))
  {
    hide ValidIr, ValidRoot, RootMatches, Normalize, NodesMatch, Assemble, ContractsHold, LoweredForm;
    AssembledMatches(ir, t, ns);
    AssembledValid(ir, t, ns);
    ValidContracts(ir);
    forall i | 0 <= i < |ns| ensures LoweredForm(ns[i]) {
      MatchedNodesLowered(ns, ir.stages, i);
    }
    NormalizeAssembled(t, ns);
    GraphMatchesRoot(ir, Graph([Assemble(t, ns)], 0, version));
  }

  // ----- any numbering of the nodes

  function NodesOf(sg: Subgraph, q: seq<nat>): (ns: seq<Node>)
    requires InRange(sg, q)
    ensures |ns| == |q| && forall i :: 0 <= i < |q| ==> ns[i] == sg.nodes[q[i]]
  {
    seq(|q|, i requires 0 <= i < |q| => sg.nodes[q[i]])
  }

  lemma {:induction false} PathMatchesNodes(sg: Subgraph, q: seq<nat>, ss: seq<Stage>)
    requires InRange(sg, q)
    ensures PathMatches(sg, q, ss) <==> NodesMatch(NodesOf(sg, q), ss)
    decreases |q|
  {
    hide NodeMatches, MatchWidth;
    if q != [] {
      assert NodesOf(sg, q)[1..] == NodesOf(sg, q[1..]);
      PathMatchesNodes(sg, q[1..], ss[if MatchWidth(sg.nodes[q[0]]) <= |ss| then MatchWidth(sg.nodes[q[0]]) else 0..]);
    }
  }

  /** Each node of the path takes what the one before it gives. */
  predicate TypedPath(sg: Subgraph, q: seq<nat>, flow: TypeDesc)
    requires InRange(sg, q)
    decreases |q|
  {
    q == [] || (TypeEqual(flow, sg.nodes[q[0]].inputType) && TypedPath(sg, q[1..], sg.nodes[q[0]].outputType))
  }

  lemma {:induction false} ValidPathTyped(sg: Subgraph, p: seq<nat>, k: nat)
    requires ValidRoot(sg) && LinearPath(sg, p) && InRange(sg, p) && 0 < k <= |p|
    ensures TypedPath(sg, p[k..], sg.nodes[p[k - 1]].outputType)
    decreases |p| - k
  {
    hide Follow, Targets, NodeMetadataValid;
    if k < |p| {
      assert Targets(sg.edges, p[k - 1]) == [p[k - 1 + 1]];
      TargetsAreEdges(sg.edges, p[k - 1], p[k]);
      var i :| 0 <= i < |sg.edges| && sg.edges[i] == Edge(p[k - 1], p[k]);
      ValidPathTyped(sg, p, k + 1);
      assert p[k..][1..] == p[k + 1..];
    }
  }

  predicate MatchedForm(n: Node) {
    n.op in {FilterOp, MapOp} && n.hasFn && !n.hasRelation && n.subgraphs == []
  }

  lemma {:induction false} PathMatchedForm(sg: Subgraph, q: seq<nat>, ss: seq<Stage>, i: nat)
    requires InRange(sg, q) && PathMatches(sg, q, ss) && i < |q|
    ensures MatchedForm(sg.nodes[q[i]])
    decreases |q|
  {
    if i > 0 {
      PathMatchedForm(sg, q[1..], ss[MatchWidth(sg.nodes[q[0]])..], i - 1);
    }
  }

  predicate TakesThrough(sg: Subgraph, q: seq<nat>)
    requires InRange(sg, q)
  {
    forall i :: 0 <= i < |q| ==> TakesInput(sg.nodes[q[i]])
  }

  /** Lowering a typed path of matched nodes gives the nodes back, unless some node's own callable
      does not take the node's input. */
  lemma {:induction false} LowerPath(sg: Subgraph, q: seq<nat>, flow: TypeDesc)
    requires InRange(sg, q) && TypedPath(sg, q, flow)
    requires forall i :: 0 <= i < |q| ==> MatchedForm(sg.nodes[q[i]])
    ensures LowerNodes(sg, q, flow).Some? <==> TakesThrough(sg, q)
    ensures LowerNodes(sg, q, flow).Some? ==> LowerNodes(sg, q, flow).value == NodesOf(sg, q)
    decreases |q|
  {
    hide UnaryValue;
    if q != [] {
      var n := sg.nodes[q[0]];
      LowerPath(sg, q[1..], n.outputType);
      assert forall i :: 0 < i < |q| ==> q[i] == q[1..][i - 1];
      assert LowerNode(n, flow).Some? <==> TakesInput(n);
      assert LowerNode(n, flow).Some? ==> LowerNode(n, flow).value == n;
      assert NodesOf(sg, q) == [n] + NodesOf(sg, q[1..]);
      TakesFirst(sg, q);
    }
  }

  lemma {:induction false} TakesFirst(sg: Subgraph, q: seq<nat>)
    requires InRange(sg, q) && q != []
    ensures TakesThrough(sg, q) <==> TakesInput(sg.nodes[q[0]]) && TakesThrough(sg, q[1..])
  {
    hide TakesInput;
    assert forall i :: 0 < i < |q| ==> q[i] == q[1..][i - 1];
    if TakesThrough(sg, q) {
      forall i | 0 <= i < |q[1..]| ensures TakesInput(sg.nodes[q[1..][i]]) {
        assert q[1..][i] == q[i + 1];
      }
    }
  }

  /** The nodes behind the entry of a valid subgraph, in the order of its only walk. */
  function ValidPath(sg: Subgraph): seq<nat> {
    Follow(sg.edges, sg.entry, |sg.nodes|)[1..]
  }

  /** The walk of the subgraph accounts for the stages. */
  predicate PathAccounts(sg: Subgraph, ss: seq<Stage>) {
    InRange(sg, ValidPath(sg)) && PathMatches(sg, ValidPath(sg), ss)
  }

  lemma {:induction false} ValidPathFlow(sg: Subgraph)
    requires ValidRoot(sg) && InRange(sg, ValidPath(sg))
    requires ValidPath(sg) != [] ==> TypeEqual(sg.inputType, sg.nodes[ValidPath(sg)[0]].inputType)
    ensures TypedPath(sg, ValidPath(sg), sg.inputType)
  {
    hide ValidRoot, Follow;
    var p := Follow(sg.edges, sg.entry, |sg.nodes|);
    ValidRootIsLinear(sg);
    ValidPathTyped(sg, p, 1);
  }

  lemma {:induction false} FirstTakes(ir: PipelineIr, sg: Subgraph)
    requires ValidIr(ir) && TypeEqual(sg.inputType, ir.inputType) && PathAccounts(sg, ir.stages)
    ensures ValidPath(sg) != [] && TypeEqual(sg.inputType, sg.nodes[ValidPath(sg)[0]].inputType)
  {
    hide Follow;
    assert StageContractValid(ir.stages[0], FlowType(ir, 0));
  }

  /** What lowering makes of a valid subgraph that accounts for the stages. */
  lemma {:induction false} LowerMatched(ir: PipelineIr, sg: Subgraph)
    requires ValidIr(ir) && ValidRoot(sg) && TypeEqual(sg.inputType, ir.inputType) && PathAccounts(sg, ir.stages)
    ensures var q := ValidPath(sg);
            && (LowerNodes(sg, q, sg.inputType).Some? <==> TakesThrough(sg, q))
            && (LowerNodes(sg, q, sg.inputType).Some? ==> LowerNodes(sg, q, sg.inputType).value == NodesOf(sg, q))
  {
    hide ValidIr, ValidRoot, Follow, PathMatches, LowerNodes, TypedPath, MatchedForm;
    var q := ValidPath(sg);
    forall i | 0 <= i < |q| ensures MatchedForm(sg.nodes[q[i]]) {
      PathMatchedForm(sg, q, ir.stages, i);
    }
    FirstTakes(ir, sg);
    ValidPathFlow(sg);
    LowerPath(sg, q, sg.inputType);
  }

  lemma {:induction false} NormalizeIs(sg: Subgraph)
    requires ValidRoot(sg)
    ensures InRange(sg, ValidPath(sg))
    ensures Normalize(sg) ==
            match LowerNodes(sg, ValidPath(sg), sg.inputType)
            case None => None
            case Some(ns) => if ValidRoot(Assemble(sg.inputType, ns)) then Some(Assemble(sg.inputType, ns)) else None
  {
    hide ValidRoot, Follow, LowerNodes, Assemble;
    ValidRootIsLinear(sg);
  }

  /** A valid Graph, however its nodes are numbered, whose walk accounts for the stages is
      accepted exactly when the callable of each node takes the node's input. */
  lemma {:induction false} ValidAccepted(ir: PipelineIr, sg: Subgraph, version: nat)
    requires ValidIr(ir) && ValidRoot(sg) && TypeEqual(sg.inputType, ir.inputType) && PathAccounts(sg, ir.stages)
    ensures GraphMatches(ir, Graph([sg], 0, version)) <==> TakesThrough(sg, ValidPath(sg))
  {
    hide ValidIr, ValidRoot, Follow, PathMatches, LowerNodes, Assemble, RootMatches, Normalize, TakesInput, NodesMatch;
    var q := ValidPath(sg);
    NormalizeIs(sg);
    LowerMatched(ir, sg);
    if TakesThrough(sg, q) {
      var ns := NodesOf(sg, q);
      PathMatchesNodes(sg, q, ir.stages);
      AssembledValid(ir, sg.inputType, ns);
      AssembledMatches(ir, sg.inputType, ns);
    }
  }

  // ----- the remaining IR stays valid

  lemma {:induction false} ReplayValid(ir: PipelineIr, cs: seq<Coordinate>, root: nat, removed: seq<bool>, events: seq<Event>)
    requires |removed| == |ir.stages| && Replay(ir.stages, cs, root, removed, events).Some?
    requires ValidIr(RemainingIr(ir, removed))
    ensures ValidIr(RemainingIr(ir, Replay(ir.stages, cs, root, removed, events).value))
    decreases |events|
  {
    if events != [] {
      var r, d := EventStage(cs, events[0].retained).value, EventStage(cs, events[0].removed).value;
      KeptAround(ir.stages, removed, r, d);
      DeleteValid(RemainingIr(ir, removed), Kept(ir.stages[..r], removed[..r]), ir.stages[r], ir.stages[d],
                  Kept(ir.stages[d + 1..], removed[d + 1..]));
      ReplayValid(ir, cs, root, removed[d := true], events[1..]);
    }
  }

  lemma {:induction false} DeleteValid(ir: PipelineIr, a: seq<Stage>, r: Stage, d: Stage, b: seq<Stage>)
    requires ValidIr(ir) && ir.stages == a + ([r, d] + b) && IdempotentPair(r, d)
    ensures ValidIr(ir.(stages := a + ([r] + b)))
  {
    var small := ir.(stages := a + ([r] + b));
    var n := |a|;
    assert ir.stages[n] == r && ir.stages[n + 1] == d;
    assert StageContractValid(r, FlowType(ir, n)) && StageContractValid(d, FlowType(ir, n + 1));
    assert TypeEqual(r.outputType, d.outputType);
    forall k | 0 <= k < |small.stages| ensures StageContractValid(small.stages[k], FlowType(small, k)) {
      if k <= n {
        assert small.stages[k] == ir.stages[k];
        assert FlowType(small, k) == FlowType(ir, k);
      } else {
        assert small.stages[k] == ir.stages[k + 1];
        assert StageContractValid(ir.stages[k + 1], FlowType(ir, k + 1));
        assert FlowType(ir, k + 1) == if k == n + 1 then d.outputType else ir.stages[k].outputType;
        assert FlowType(small, k) == if k == n + 1 then r.outputType else small.stages[k - 1].outputType;
      }
    }
    assert b == [] ==> FlowType(ir, |ir.stages|) == d.outputType && FlowType(small, |small.stages|) == r.outputType;
    assert b != [] ==> FlowType(ir, |ir.stages|) == b[|b| - 1].outputType == FlowType(small, |small.stages|);
  }

  // ----- completeness

  lemma {:induction false} OptNodesChains(passes: Passes, sg: Subgraph, p: seq<nat>)
    requires InRange(sg, p) && Fusible(sg, p)
    requires forall i :: 0 <= i < |p| ==> var n := sg.nodes[p[i]]; n.fnChain != [] ==> TakesInput(n)
    ensures var ns := OptNodes(passes, sg, p);
            forall j :: 0 <= j < |ns| ==> ns[j].fnChain != [] ==> TakesInput(ns[j])
    decreases |p|
  {
    if p != [] {
      if StartsRun(passes, sg.nodes[p[0]]) {
        var m := RunLength(sg, p);
        OptNodesChains(passes, sg, p[m..]);
        var ns := OptNodes(passes, sg, p);
        assert ns[1..] == OptNodes(passes, sg, p[m..]);
        assert forall j :: 1 <= j < |ns| ==> ns[j] == ns[1..][j - 1];
      } else {
        var n := sg.nodes[p[0]];
        assert n.fnChain != [] ==> TakesInput(n);
        OptNodesChains(passes, sg, p[1..]);
        var ns := OptNodes(passes, sg, p);
        assert ns[0] == PlainNode(passes, n) && ns[1..] == OptNodes(passes, sg, p[1..]);
        assert forall j :: 1 <= j < |ns| ==> ns[j] == ns[1..][j - 1];
      }
    }
  }

  /** The path the passes follow, and the Graph and trace they produce. */
  function SourcePath(g: Graph): seq<nat>
    requires |g.subgraphs| == 1
  {
    ValidPath(g.subgraphs[0])
  }

  function OptimizedGraph(passes: Passes, g: Graph, version: nat): Graph
    requires |g.subgraphs| == 1 && InRange(g.subgraphs[0], SourcePath(g)) && Fusible(g.subgraphs[0], SourcePath(g))
  {
    Graph([Assemble(g.subgraphs[0].inputType, OptNodes(passes, g.subgraphs[0], SourcePath(g)))], 0, version)
  }

  function OptimizerTrace(passes: Passes, g: Graph, version: nat): Trace
    requires |g.subgraphs| == 1 && InRange(g.subgraphs[0], SourcePath(g)) && Fusible(g.subgraphs[0], SourcePath(g))
  {
    Trace(g, OptimizedGraph(passes, g, version), g.version, version, OptEvents(passes, g.subgraphs[0], g.root, SourcePath(g)))
  }

  /** The walk the checker follows is the walk the passes follow. */
  lemma {:induction false} SourcePathIsWalk(ir: PipelineIr, g: Graph)
    requires GraphMatches(ir, g) && WalkMatches(g.subgraphs[0], ir.stages, g.subgraphs[0].entry, 0)
    ensures var sg := g.subgraphs[0];
            var whole := Follow(sg.edges, sg.entry, |sg.nodes|);
            LinearPath(sg, whole) && whole == WalkPath(sg, ir.stages, sg.entry, 0)
  {
    hide WalkMatches, Follow, Targets, ValidIr, RootMatches;
    var sg := g.subgraphs[0];
    ValidRootIsLinear(sg);
    WalkPathLinear(sg, ir.stages, sg.entry, 0);
    ThroughWalkUnique(sg, Follow(sg.edges, sg.entry, |sg.nodes|), WalkPath(sg, ir.stages, sg.entry, 0));
  }

  lemma {:induction false} ValidContracts(ir: PipelineIr)
    requires ValidIr(ir)
    ensures ContractsHold(ir.stages)
  {
    forall i | 0 <= i < |ir.stages| ensures StageContractValid(ir.stages[i], ir.stages[i].inputType) {
      assert StageContractValid(ir.stages[i], FlowType(ir, i));
    }
  }

  lemma {:induction false} SourceFacts(ir: PipelineIr, g: Graph)
    requires GraphMatches(ir, g) && WalkMatches(g.subgraphs[0], ir.stages, g.subgraphs[0].entry, 0)
    ensures var sg, p := g.subgraphs[0], SourcePath(g);
            && InRange(sg, p) && PathMatches(sg, p, ir.stages) && ContractsHold(ir.stages) && Fusible(sg, p)
            && CoordinatesOf(sg, p) == Coordinates(sg, ir.stages, sg.entry, 0)
            && DistinctCoordinates(CoordinatesOf(sg, p))
  {
    hide GraphMatches, WalkMatches, Follow, Targets, ValidIr, WalkPath, PathMatches, ContractsHold, Fusible, CoordinatesOf, Coordinates;
    var sg, p := g.subgraphs[0], SourcePath(g);
    SourcePathIsWalk(ir, g);
    var whole := Follow(sg.edges, sg.entry, |sg.nodes|);
    assert ir.stages[0..] == ir.stages;
    WalkIsPath(sg, ir.stages, sg.entry, 0);
    ValidContracts(ir);
    MatchedUnary(sg, p, ir.stages);
    forall i, j | 0 <= i < j < |p| ensures p[i] != p[j] {
      LinearPathDistinct(sg, whole, i + 1, j + 1);
    }
    CoordinatesDistinct(sg, p);
  }

  /** What the passes leave of a matched Graph matches what is left of the stage list. */
  lemma {:induction false} OptimizedAccepted(passes: Passes, ir: PipelineIr, remaining: PipelineIr, sg: Subgraph, p: seq<nat>, version: nat)
    requires InRange(sg, p) && PathMatches(sg, p, ir.stages) && ContractsHold(ir.stages) && Fusible(sg, p)
    requires forall i :: 0 <= i < |p| ==> var n := sg.nodes[p[i]]; n.fnChain != [] ==> TakesInput(n)
    requires |OptMarks(passes, sg, p)| == |ir.stages| && remaining == RemainingIr(ir, OptMarks(passes, sg, p))
    requires ValidIr(remaining) && TypeEqual(sg.inputType, ir.inputType)
    ensures GraphMatches(remaining, Graph([Assemble(sg.inputType, OptNodes(passes, sg, p))], 0, version))
  {
    hide PathMatches, ContractsHold, Fusible, OptMarks, OptNodes, ValidIr, NodesMatch, Assemble, GraphMatches;
    OptimizedMatches(passes, sg, p, ir.stages);
    OptNodesChains(passes, sg, p);
    AssembledAccepted(remaining, sg.inputType, OptNodes(passes, sg, p), version);
  }

  /** Each deletion removes one stage, and the first stage is never deleted. */
  lemma {:induction false} TraceIsShort(stages: seq<Stage>, cs: seq<Coordinate>, root: nat, removed: seq<bool>, events: seq<Event>)
    requires |removed| == |stages| && Replay(stages, cs, root, removed, events).Some?
    ensures |Kept(stages, Replay(stages, cs, root, removed, events).value)| == |Kept(stages, removed)| - |events|
    decreases |events|
  {
    if events != [] {
      var r, d := EventStage(cs, events[0].retained).value, EventStage(cs, events[0].removed).value;
      KeptAround(stages, removed, r, d);
      TraceIsShort(stages, cs, root, removed[d := true], events[1..]);
    }
  }

  /** Completeness of the checker for this optimizer: every run of the passes over a matched
      normalized Graph leaves a result and a trace that the checker accepts. */
  lemma {:induction false} OptimizerIsCertified(passes: Passes, ir: PipelineIr, g: Graph, version: nat)
    requires GraphMatches(ir, g) && IsNormalized(g)
    requires WalkMatches(g.subgraphs[0], ir.stages, g.subgraphs[0].entry, 0)
    ensures InRange(g.subgraphs[0], SourcePath(g)) && Fusible(g.subgraphs[0], SourcePath(g))
    ensures Certified(ir, g, OptimizedGraph(passes, g, version), OptimizerTrace(passes, g, version))
  {
    hide GraphMatches, WalkMatches, Follow, SourcePath, PathMatches, ContractsHold, Fusible, Coordinates, CoordinatesOf,
      OptMarks, OptNodes, OptEvents, ValidIr, ValidRoot, RootMatches, Normalize, Replay, Kept, DistinctCoordinates;
    var sg, p, stages := g.subgraphs[0], SourcePath(g), ir.stages;
    SourceFacts(ir, g);
    var cs, none, events := CoordinatesOf(sg, p), NoneRemoved(|stages|), OptEvents(passes, sg, g.root, p);
    assert stages[0..] == stages && cs[0..] == cs;
    OptimizerReplays(passes, sg, g.root, p, stages, cs, none, 0);
    var marks := OptMarks(passes, sg, p);
    assert none[..0] + marks == marks;
    KeptAll(stages);
    ReplayValid(ir, cs, g.root, none, events);
    TraceIsShort(stages, cs, g.root, none, events);
    var remaining := RemainingIr(ir, marks);
    MatchedBoundary(ir, g);
    SourceTakes(ir, g);
    ValidNonEmpty(remaining);
    OptimizedAccepted(passes, ir, remaining, sg, p, version);
  }

  lemma {:induction false} MatchedBoundary(ir: PipelineIr, g: Graph)
    requires GraphMatches(ir, g)
    ensures TypeEqual(g.subgraphs[0].inputType, ir.inputType)
  {
  }

  /** The nodes of an accepted Graph take their inputs, fused ones included. */
  lemma {:induction false} SourceTakes(ir: PipelineIr, g: Graph)
    requires GraphMatches(ir, g) && TypeEqual(g.subgraphs[0].inputType, ir.inputType)
    requires InRange(g.subgraphs[0], SourcePath(g)) && PathMatches(g.subgraphs[0], SourcePath(g), ir.stages)
    ensures TakesThrough(g.subgraphs[0], SourcePath(g))
  {
    hide ValidIr, ValidRoot, Follow, PathMatches, RootMatches, TakesThrough;
    NormalizedValid(g.subgraphs[0]);
    ValidAccepted(ir, g.subgraphs[0], g.version);
  }

  lemma {:induction false} NormalizedValid(sg: Subgraph)
    requires Normalize(sg).Some?
    ensures ValidRoot(sg)
  {
    hide ValidRoot;
  }

  lemma {:induction false} ValidNonEmpty(ir: PipelineIr)
    requires ValidIr(ir)
    ensures ir.stages != []
  {
  }

  lemma {:induction false} GraphMatchesRoot(ir: PipelineIr, g: Graph)
    requires ValidIr(ir) && |g.subgraphs| == 1 && g.root == 0
    requires Normalize(g.subgraphs[0]) == Some(g.subgraphs[0]) && RootMatches(ir, g.subgraphs[0])
    ensures GraphMatches(ir, g)
  {
  }
}
