/** The effect analysis of a Graph: a depth-first search over nested subgraphs that may be
shared, missing or cyclic, with a state and a memo per subgraph. */
module EffectAnalysis {
  import opened Basics
  import opened Callables

  /** Declared effects of a callable; flags outside the known mask make them unusable. */
  datatype FnEffects = KnownFn(effects: set<Effect>) | InvalidFn

  datatype FnChain = NoChain | MissingChain | Chain(fns: seq<FnEffects>)

  /** A node as the analysis sees it. `structural` marks sources and relations; `schema` is
      the intrinsic effect of the operator, if the operator is known. */
  datatype Node = Node(
    structural: bool,
    schema: Option<set<Effect>>,
    chain: FnChain,
    hasFn: bool,
    fn: FnEffects,
    subgraphs: seq<nat>)

  type Graph = seq<seq<Node>>

  // ----- effects of one node, nested subgraphs aside

  function FnEffectsOf(f: FnEffects): set<Effect> {
    if f.KnownFn? then f.effects else {Unknown}
  }

  function ChainEffects(fns: seq<FnEffects>): set<Effect> {
    if fns == [] then {} else ChainEffects(fns[..|fns| - 1]) + FnEffectsOf(fns[|fns| - 1])
  }

  function Local(n: Node): set<Effect> {
    (if n.structural then {} else if n.schema.Some? then n.schema.value else {Unknown})
    + match n.chain {
        case MissingChain => {Unknown}
        case Chain(fns) => ChainEffects(fns)
        case NoChain => if n.hasFn then FnEffectsOf(n.fn) else {}
      }
  }

  /** A callable has the effects it declares, or an unknown one if its declaration is invalid. */
  predicate FnHas(f: FnEffects, e: Effect) {
    match f
    case KnownFn(effects) => e in effects
    case InvalidFn => e == Unknown
  }

  /** The node has effect `e` of its own: its operator has it, or is not known; its chain is not
      there; some callable of its chain has it; or, without a chain, its one callable does. */
  ghost predicate Has(n: Node, e: Effect) {
    || (!n.structural && n.schema.Some? && e in n.schema.value)
    || (!n.structural && n.schema.None? && e == Unknown)
    || (n.chain.MissingChain? && e == Unknown)
    || (n.chain.Chain? && exists i :: 0 <= i < |n.chain.fns| && FnHas(n.chain.fns[i], e))
    || (n.chain.NoChain? && n.hasFn && FnHas(n.fn, e))
  }

  lemma {:induction false} ChainEffectsExact(fns: seq<FnEffects>, e: Effect)
    ensures e in ChainEffects(fns) <==> exists i :: 0 <= i < |fns| && FnHas(fns[i], e)
  {
    if fns != [] {
      var front := fns[..|fns| - 1];
      ChainEffectsExact(front, e);
      if e in ChainEffects(front) {
        var i :| 0 <= i < |front| && FnHas(front[i], e);
        assert FnHas(fns[i], e);
      }
      if i :| 0 <= i < |fns| && FnHas(fns[i], e) {
        assert i < |front| ==> FnHas(front[i], e);
      }
    }
  }

  lemma {:induction false} LocalExact(n: Node)
    ensures forall e :: e in Local(n) <==> Has(n, e)
  {
    forall e ensures e in Local(n) <==> Has(n, e) {
      if n.chain.Chain? {
        ChainEffectsExact(n.chain.fns, e);
      }
    }
  }

  method LocalEffects(n: Node) returns (effects: set<Effect>)
    ensures effects == Local(n)
    ensures forall e :: e in effects <==> Has(n, e)
  {
    LocalExact(n);
    effects := {};
    if !n.structural {
      effects := effects + (if n.schema.Some? then n.schema.value else {Unknown});
    }
    match n.chain
    case MissingChain => effects := effects + {Unknown};
    case Chain(fns) =>
      ghost var before := effects;
      var i := 0;
      while i < |fns|
        invariant 0 <= i <= |fns|
        invariant effects == before + ChainEffects(fns[..i])
      {
        assert fns[..i + 1][..i] == fns[..i];
        effects := effects + FnEffectsOf(fns[i]);
        i := i + 1;
      }
      assert fns[..i] == fns;
    case NoChain =>
      if n.hasFn {
        effects := effects + FnEffectsOf(n.fn);
      }
  }

  // ----- what the analysis is to compute

  function LocalOf(nodes: seq<Node>): set<Effect> {
    if nodes == [] then {} else LocalOf(nodes[..|nodes| - 1]) + Local(nodes[|nodes| - 1])
  }

  function Refs(nodes: seq<Node>): seq<nat> {
    if nodes == [] then [] else Refs(nodes[..|nodes| - 1]) + nodes[|nodes| - 1].subgraphs
  }

  predicate Edge(g: Graph, a: nat, b: nat) {
    a < |g| && b in Refs(g[a])
  }

  /** The edges are the references: some node of the one subgraph names the other. */
  lemma {:induction false} EdgeExact(g: Graph, a: nat, b: nat)
    ensures Edge(g, a, b) <==> a < |g| && exists n :: 0 <= n < |g[a]| && b in g[a][n].subgraphs
  {
    if a < |g| {
      RefsExact(g[a], b);
    }
  }

  lemma {:induction false} RefsExact(nodes: seq<Node>, b: nat)
    ensures b in Refs(nodes) <==> exists n :: 0 <= n < |nodes| && b in nodes[n].subgraphs
  {
    if nodes != [] {
      var front := nodes[..|nodes| - 1];
      RefsExact(front, b);
      if b in Refs(front) {
        var n :| 0 <= n < |front| && b in front[n].subgraphs;
        assert b in nodes[n].subgraphs;
      }
      if n :| 0 <= n < |nodes| && b in nodes[n].subgraphs {
        assert n < |front| ==> b in front[n].subgraphs;
      }
    }
  }

  predicate IsPath(g: Graph, p: seq<nat>) {
    && |p| > 0
    && (forall i :: 0 <= i < |p| ==> p[i] < |g|)
    && (forall i :: 0 <= i < |p| - 1 ==> Edge(g, p[i], p[i + 1]))
  }

  ghost predicate PathBetween(g: Graph, p: seq<nat>, roots: set<nat>, v: nat) {
    IsPath(g, p) && p[0] in roots && p[|p| - 1] == v
  }

  /** Subgraph `v` is nested, at any depth, in one of `roots`. */
  ghost predicate Reachable(g: Graph, roots: set<nat>, v: nat) {
    exists p :: PathBetween(g, p, roots, v)
  }

  /** A reachable subgraph, or a root itself, is not there. */
  ghost predicate MissingReachable(g: Graph, roots: set<nat>) {
    || (exists r: nat :: r in roots && r >= |g|)
    || (exists v: nat, s: nat :: Reachable(g, roots, v) && Edge(g, v, s) && s >= |g|)
  }

  ghost predicate IsCycle(g: Graph, p: seq<nat>) {
    IsPath(g, p) && |p| >= 2 && p[0] == p[|p| - 1]
  }

  ghost predicate CycleReachable(g: Graph, roots: set<nat>) {
    exists p :: IsCycle(g, p) && Reachable(g, roots, p[0])
  }

  ghost predicate LocalReachable(g: Graph, roots: set<nat>, e: Effect) {
    exists v: nat, n: nat :: Reachable(g, roots, v) && n < |g[v]| && Has(g[v][n], e)
  }

  /** Effect `e` belongs to the roots. */
  ghost predicate Explained(g: Graph, roots: set<nat>, e: Effect) {
    LocalReachable(g, roots, e) || (e == Unknown && (MissingReachable(g, roots) || CycleReachable(g, roots)))
  }

  // ----- the search

  /** Facts about the search: `stack` holds the subgraphs in progress, a path from a root;
      `order` the finished ones, in the order they finished. */
  ghost predicate Search(g: Graph, roots: set<nat>, state: seq<nat>, memo: seq<set<Effect>>, stack: seq<nat>, order: seq<nat>) {
    && |state| == |g| && |memo| == |g|
    && (forall v :: 0 <= v < |g| ==> state[v] <= 2 && (state[v] == 1 <==> v in stack) && (state[v] == 2 <==> v in order))
    && (stack == [] || (IsPath(g, stack) && stack[0] in roots))
    && (forall i :: 0 <= i < |order| ==> order[i] < |g|)
    && (forall i, j :: 0 <= i < j < |order| ==> order[i] != order[j])
    && (forall i :: 0 <= i < |order| ==> Finished(g, roots, memo, stack, order, i))
  }

  /** What holds of the `i`-th finished subgraph. */
  ghost predicate Finished(g: Graph, roots: set<nat>, memo: seq<set<Effect>>, stack: seq<nat>, order: seq<nat>, i: nat)
    requires i < |order| && order[i] < |g| == |memo|
  {
    var v := order[i];
    && Reachable(g, roots, v)
    && LocalOf(g[v]) <= memo[v]
    && (forall e :: e in memo[v] ==> Explained(g, roots, e))
    && (forall s :: s in Refs(g[v]) ==> s in order[..i] || Unknown in memo[v])
    && (forall s :: s in Refs(g[v]) && s < |g| ==> s in order || s in stack)
  }

  /** Subgraphs not met yet. */
  ghost function White(state: seq<nat>): set<nat> {
    set v | 0 <= v < |state| && state[v] == 0
  }

  /** What a visit of `id` that returns `effects` has achieved. */
  ghost predicate Visited(g: Graph, roots: set<nat>, memo: seq<set<Effect>>, stack: seq<nat>, before: seq<nat>, order: seq<nat>,
                          id: nat, effects: set<Effect>)
    requires |memo| == |g| && forall i :: 0 <= i < |order| ==> order[i] < |g|
  {
    && before <= order
    && (forall i :: |before| <= i < |order| ==> memo[order[i]] <= effects)
    && (forall e :: e in effects ==> Explained(g, roots, e))
    && (id < |g| ==> id in order || id in stack)
    && (id in order || Unknown in effects)
  }

  method VisitSubgraph(g: Graph, id: nat, state: array<nat>, memo: array<set<Effect>>,
                       ghost roots: set<nat>, ghost stack: seq<nat>, ghost before: seq<nat>)
    returns (effects: set<Effect>, ghost order: seq<nat>)
    requires Search(g, roots, state[..], memo[..], stack, before)
    requires if stack == [] then id in roots else Edge(g, stack[|stack| - 1], id)
    modifies state, memo
    ensures Search(g, roots, state[..], memo[..], stack, order)
    ensures White(state[..]) <= old(White(state[..]))
    ensures Visited(g, roots, memo[..], stack, before, order, id, effects)
    ensures forall i :: 0 <= i < |before| ==> memo[before[i]] == old(memo[before[i]])
    decreases |White(state[..])|, 0
  {
    hide Explained, Finished;
    order := before;
    if id >= |g| {
      effects := {Unknown};
      MissingIsExplained(g, roots, stack, id);
      return;
    }
    if state[id] == 2 {
      effects := memo[id];
      FinishedIsExplained(g, roots, state[..], memo[..], stack, before, id);
      return;
    }
    if state[id] == 1 {
      effects := {Unknown};
      BackEdgeIsExplained(g, roots, stack, id);
      return;
    }
    assert id in White(state[..]);
    state[id] := 1;
    EnterKeeps(g, roots, old(state[..]), state[..], memo[..], stack, before, id);
    SubsetCount(White(state[..]), old(White(state[..])) - {id});
    effects, order := VisitNodes(g, id, state, memo, roots, stack + [id], before);
    ghost var st, me := state[..], memo[..];
    state[id] := 2;
    memo[id] := effects;
    LeaveKeeps(g, roots, st, state[..], me, memo[..], stack, order, id, effects);
    order := order + [id];
  }

  /** The nodes of one subgraph. */
  method VisitNodes(g: Graph, id: nat, state: array<nat>, memo: array<set<Effect>>,
                    ghost roots: set<nat>, ghost stack: seq<nat>, ghost before: seq<nat>)
    returns (effects: set<Effect>, ghost order: seq<nat>)
    requires Search(g, roots, state[..], memo[..], stack, before)
    requires stack != [] && stack[|stack| - 1] == id
    modifies state, memo
    ensures Search(g, roots, state[..], memo[..], stack, order)
    ensures White(state[..]) <= old(White(state[..]))
    ensures before <= order
    ensures forall i :: |before| <= i < |order| ==> memo[order[i]] <= effects
    ensures forall e :: e in effects ==> Explained(g, roots, e)
    ensures LocalOf(g[id]) <= effects && RefsMet(g, Refs(g[id]), stack, order, effects)
    ensures forall i :: 0 <= i < |before| ==> memo[before[i]] == old(memo[before[i]])
    decreases |White(state[..])|, 2
  {
    hide Explained, Finished, Local;
    effects, order := {}, before;
    var n := 0;
    while n < |g[id]|
      invariant 0 <= n <= |g[id]|
      invariant Search(g, roots, state[..], memo[..], stack, order)
      invariant White(state[..]) <= old(White(state[..]))
      invariant before <= order
      invariant forall i :: |before| <= i < |order| ==> memo[order[i]] <= effects
      invariant forall i :: 0 <= i < |before| ==> memo[before[i]] == old(memo[before[i]])
      invariant LocalOf(g[id][..n]) <= effects
      invariant forall e :: e in effects ==> Explained(g, roots, e)
      invariant RefsMet(g, Refs(g[id][..n]), stack, order, effects)
    {
      assert g[id][..n + 1][..n] == g[id][..n];
      var local := LocalEffects(g[id][n]);
      LocalIsExplained(g, roots, stack, id, n);
      effects := effects + local;
      ghost var prior := order;
      SubsetCount(White(state[..]), old(White(state[..])));
      var nested;
      nested, order := VisitRefs(g, id, n, state, memo, roots, stack, prior);
      effects := effects + nested;
      RefsMetMore(g, Refs(g[id][..n]), stack, prior, order, effects, g[id][n].subgraphs);
      n := n + 1;
    }
    assert g[id][..n] == g[id];
  }

  /** The references of one node. */
  method VisitRefs(g: Graph, id: nat, n: nat, state: array<nat>, memo: array<set<Effect>>,
                   ghost roots: set<nat>, ghost stack: seq<nat>, ghost before: seq<nat>)
    returns (effects: set<Effect>, ghost order: seq<nat>)
    requires Search(g, roots, state[..], memo[..], stack, before)
    requires stack != [] && stack[|stack| - 1] == id && n < |g[id]|
    modifies state, memo
    ensures Search(g, roots, state[..], memo[..], stack, order)
    ensures White(state[..]) <= old(White(state[..]))
    ensures before <= order
    ensures forall i :: |before| <= i < |order| ==> memo[order[i]] <= effects
    ensures forall e :: e in effects ==> Explained(g, roots, e)
    ensures RefsMet(g, g[id][n].subgraphs, stack, order, effects)
    ensures forall i :: 0 <= i < |before| ==> memo[before[i]] == old(memo[before[i]])
    decreases |White(state[..])|, 1
  {
    hide Explained, Finished;
    var refs := g[id][n].subgraphs;
    effects, order := {}, before;
    var i := 0;
    while i < |refs|
      invariant 0 <= i <= |refs|
      invariant Search(g, roots, state[..], memo[..], stack, order)
      invariant White(state[..]) <= old(White(state[..]))
      invariant before <= order
      invariant forall k :: |before| <= k < |order| ==> memo[order[k]] <= effects
      invariant forall e :: e in effects ==> Explained(g, roots, e)
      invariant RefsMet(g, refs[..i], stack, order, effects)
      invariant forall k :: 0 <= k < |before| ==> memo[before[k]] == old(memo[before[k]])
    {
      RefIsEdge(g, id, n, refs[i]);
      SubsetCount(White(state[..]), old(White(state[..])));
      ghost var prior := order;
      var nested;
      nested, order := VisitSubgraph(g, refs[i], state, memo, roots, stack, prior);
      effects := effects + nested;
      RefsMetMore(g, refs[..i], stack, prior, order, effects, [refs[i]]);
      assert refs[..i + 1] == refs[..i] + [refs[i]];
      i := i + 1;
    }
    assert refs[..i] == refs;
  }

  /** Every reference in `refs` is finished before the current subgraph, or unknown is noted;
      and those that exist are finished or in progress. */
  ghost predicate RefsMet(g: Graph, refs: seq<nat>, stack: seq<nat>, order: seq<nat>, effects: set<Effect>) {
    && (forall s :: s in refs ==> s in order || Unknown in effects)
    && (forall s :: s in refs && s < |g| ==> s in order || s in stack)
  }

  lemma {:induction false} RefsMetMore(g: Graph, refs: seq<nat>, stack: seq<nat>, prior: seq<nat>, order: seq<nat>, effects: set<Effect>, more: seq<nat>)
    requires prior <= order
    requires forall s :: s in refs ==> s in prior || Unknown in effects
    requires forall s :: s in refs && s < |g| ==> s in prior || s in stack
    requires RefsMet(g, more, stack, order, effects)
    ensures RefsMet(g, refs + more, stack, order, effects)
  {
  }

  lemma {:induction false} RefIsEdge(g: Graph, id: nat, n: nat, s: nat)
    requires id < |g| && n < |g[id]| && s in g[id][n].subgraphs
    ensures Edge(g, id, s)
  {
    RefInRefs(g[id], n, s);
  }

  lemma {:induction false} RefInRefs(nodes: seq<Node>, n: nat, s: nat)
    requires n < |nodes| && s in nodes[n].subgraphs
    ensures s in Refs(nodes)
  {
    if n < |nodes| - 1 {
      RefInRefs(nodes[..|nodes| - 1], n, s);
    }
  }

  lemma {:induction false} LocalInLocalOf(nodes: seq<Node>, n: nat)
    requires n < |nodes|
    ensures Local(nodes[n]) <= LocalOf(nodes)
  {
    if n < |nodes| - 1 {
      LocalInLocalOf(nodes[..|nodes| - 1], n);
    }
  }

  // ----- why each flag is justified

  lemma {:induction false} StackReachable(g: Graph, roots: set<nat>, stack: seq<nat>, i: nat)
    requires IsPath(g, stack) && stack[0] in roots && i < |stack|
    ensures Reachable(g, roots, stack[i])
  {
    assert PathBetween(g, stack[..i + 1], roots, stack[i]);
  }

  lemma {:induction false} MissingIsExplained(g: Graph, roots: set<nat>, stack: seq<nat>, id: nat)
    requires stack == [] || (IsPath(g, stack) && stack[0] in roots)
    requires if stack == [] then id in roots else Edge(g, stack[|stack| - 1], id)
    requires id >= |g|
    ensures Explained(g, roots, Unknown)
  {
    if stack != [] {
      StackReachable(g, roots, stack, |stack| - 1);
    }
  }

  lemma {:induction false} BackEdgeIsExplained(g: Graph, roots: set<nat>, stack: seq<nat>, id: nat)
    requires stack == [] || (IsPath(g, stack) && stack[0] in roots)
    requires id in stack && Edge(g, stack[|stack| - 1], id)
    ensures Explained(g, roots, Unknown)
  {
    var i :| 0 <= i < |stack| && stack[i] == id;
    var cycle := stack[i..] + [id];
    assert IsCycle(g, cycle);
    StackReachable(g, roots, stack, i);
  }

  lemma {:induction false} LocalIsExplained(g: Graph, roots: set<nat>, stack: seq<nat>, id: nat, n: nat)
    requires IsPath(g, stack) && stack[0] in roots && stack[|stack| - 1] == id && n < |g[id]|
    ensures forall e :: e in Local(g[id][n]) ==> Explained(g, roots, e)
  {
    StackReachable(g, roots, stack, |stack| - 1);
    LocalInLocalOf(g[id], n);
    forall e | e in Local(g[id][n]) ensures Explained(g, roots, e) {
      LocalExact(g[id][n]);
      assert Reachable(g, roots, id) && n < |g[id]| && Has(g[id][n], e);
    }
  }

  // ----- entering and leaving a subgraph

  lemma {:induction false} EnterKeeps(g: Graph, roots: set<nat>, st: seq<nat>, st': seq<nat>, memo: seq<set<Effect>>, stack: seq<nat>, order: seq<nat>, id: nat)
    requires Search(g, roots, st, memo, stack, order) && id < |g| && st[id] == 0
    requires st' == st[id := 1]
    requires if stack == [] then id in roots else Edge(g, stack[|stack| - 1], id)
    ensures Search(g, roots, st', memo, stack + [id], order)
    ensures White(st') == White(st) - {id}
  {
    var inner := stack + [id];
    assert IsPath(g, inner);
    forall i | 0 <= i < |order| ensures Finished(g, roots, memo, inner, order, i) {
      assert Finished(g, roots, memo, stack, order, i);
    }
  }

  lemma {:induction false} LeaveKeeps(g: Graph, roots: set<nat>, st: seq<nat>, st': seq<nat>, me: seq<set<Effect>>, me': seq<set<Effect>>,
                   stack: seq<nat>, order: seq<nat>, id: nat, effects: set<Effect>)
    requires Search(g, roots, st, me, stack + [id], order) && id < |g| && id !in order && id !in stack
    requires st' == st[id := 2] && me' == me[id := effects]
    requires LocalOf(g[id]) <= effects && (forall e :: e in effects ==> Explained(g, roots, e))
    requires RefsMet(g, Refs(g[id]), stack + [id], order, effects)
    ensures Search(g, roots, st', me', stack, order + [id])
    ensures White(st') <= White(st)
  {
    var inner, after := stack + [id], order + [id];
    StackReachable(g, roots, inner, |stack|);
    forall i | 0 <= i < |after| ensures Finished(g, roots, me', stack, after, i) {
      if i < |order| {
        assert Finished(g, roots, me, inner, order, i);
        assert after[..i] == order[..i];
      } else {
        assert after[..i] == order;
      }
    }
    if stack != [] {
      assert forall i :: 0 <= i < |stack| ==> inner[i] == stack[i];
    }
  }

  lemma {:induction false} FinishedIsExplained(g: Graph, roots: set<nat>, state: seq<nat>, memo: seq<set<Effect>>, stack: seq<nat>, order: seq<nat>, id: nat)
    requires Search(g, roots, state, memo, stack, order) && id < |g| && state[id] == 2
    ensures id in order && forall e :: e in memo[id] ==> Explained(g, roots, e)
  {
    var k :| 0 <= k < |order| && order[k] == id;
    assert Finished(g, roots, memo, stack, order, k);
  }

  // ----- the finished search is exact

  lemma {:induction false} PathFinished(g: Graph, roots: set<nat>, state: seq<nat>, memo: seq<set<Effect>>, order: seq<nat>, p: seq<nat>)
    requires Search(g, roots, state, memo, [], order)
    requires IsPath(g, p) && p[0] in order
    ensures p[|p| - 1] in order
    decreases |p|
  {
    if |p| > 1 {
      var q := p[..|p| - 1];
      PathFinished(g, roots, state, memo, order, q);
      var k :| 0 <= k < |order| && order[k] == q[|q| - 1];
      assert Finished(g, roots, memo, [], order, k);
      assert Edge(g, p[|p| - 2], p[|p| - 1]);
    }
  }

  /** Without the unknown flag, a path only leads to subgraphs that finished earlier. */
  lemma {:induction false} PathsDescend(g: Graph, roots: set<nat>, state: seq<nat>, memo: seq<set<Effect>>, order: seq<nat>, p: seq<nat>, k: nat)
      returns (j: nat)
    requires Search(g, roots, state, memo, [], order)
    requires forall i :: 0 <= i < |order| ==> Unknown !in memo[order[i]]
    requires IsPath(g, p) && k < |order| && order[k] == p[0]
    ensures j < |order| && order[j] == p[|p| - 1]
    ensures j <= k && (|p| > 1 ==> j < k)
    decreases |p|
  {
    if |p| == 1 {
      j := k;
    } else {
      assert Finished(g, roots, memo, [], order, k);
      assert Edge(g, p[0], p[1]);
      var i :| 0 <= i < |order[..k]| && order[..k][i] == p[1];
      assert IsPath(g, p[1..]) by {
        forall m | 0 <= m < |p[1..]| - 1 ensures Edge(g, p[1..][m], p[1..][m + 1]) {
          assert Edge(g, p[m + 1], p[m + 2]);
        }
      }
      j := PathsDescend(g, roots, state, memo, order, p[1..], i);
    }
  }

  /** All roots finished, the union of the memos is exactly what the roots have. */
  lemma {:induction false} SearchIsExact(g: Graph, roots: set<nat>, state: seq<nat>, memo: seq<set<Effect>>, order: seq<nat>, effects: set<Effect>)
    requires Search(g, roots, state, memo, [], order)
    requires forall r :: r in roots ==> r in order || (r >= |g| && Unknown in effects)
    requires forall i :: 0 <= i < |order| ==> memo[order[i]] <= effects
    requires forall e :: e in effects ==> Explained(g, roots, e)
    ensures forall e :: e in effects <==> Explained(g, roots, e)
  {
    forall e | Explained(g, roots, e) ensures e in effects {
      if LocalReachable(g, roots, e) {
        var v: nat, n: nat :| Reachable(g, roots, v) && n < |g[v]| && Has(g[v][n], e);
        LocalExact(g[v][n]);
        LocalInLocalOf(g[v], n);
        ReachableFinished(g, roots, state, memo, order, effects, v);
      } else if MissingReachable(g, roots) {
        if v: nat, s: nat :| Reachable(g, roots, v) && Edge(g, v, s) && s >= |g| {
          ReachableFinished(g, roots, state, memo, order, effects, v);
          var k :| 0 <= k < |order| && order[k] == v;
          assert Finished(g, roots, memo, [], order, k);
        }
      } else {
        var p :| IsCycle(g, p) && Reachable(g, roots, p[0]);
        ReachableFinished(g, roots, state, memo, order, effects, p[0]);
        var k :| 0 <= k < |order| && order[k] == p[0];
        if Unknown !in effects {
          var j := PathsDescend(g, roots, state, memo, order, p, k);
        }
      }
    }
  }

  lemma {:induction false} ReachableFinished(g: Graph, roots: set<nat>, state: seq<nat>, memo: seq<set<Effect>>, order: seq<nat>, effects: set<Effect>, v: nat)
    requires Search(g, roots, state, memo, [], order) && Reachable(g, roots, v)
    requires forall r :: r in roots ==> r in order || (r >= |g| && Unknown in effects)
    requires forall i :: 0 <= i < |order| ==> memo[order[i]] <= effects
    ensures v in order && LocalOf(g[v]) <= effects
  {
    var p :| PathBetween(g, p, roots, v);
    PathFinished(g, roots, state, memo, order, p);
    var k :| 0 <= k < |order| && order[k] == v;
    assert Finished(g, roots, memo, [], order, k);
  }

  // ----- entry points

  /** The effects of a subgraph: exactly the local effects of everything nested in it, and
      unknown exactly when a nested reference is missing or nesting is cyclic. */
  method SubgraphEffects(g: Graph, id: nat) returns (effects: set<Effect>)
    ensures forall e :: e in effects <==> Explained(g, {id}, e)
  {
    if id >= |g| {
      effects := {Unknown};
      OnlyMissing(g, id);
      return;
    }
    var state := new nat[|g|](_ => 0);
    var memo := new set<Effect>[|g|](_ => {});
    ghost var order;
    effects, order := VisitSubgraph(g, id, state, memo, {id}, [], []);
    SearchIsExact(g, {id}, state[..], memo[..], order, effects);
  }

  lemma {:induction false} OnlyMissing(g: Graph, id: nat)
    requires id >= |g|
    ensures forall e :: e == Unknown <==> Explained(g, {id}, e)
  {
    assert MissingReachable(g, {id});
    forall p, v ensures !PathBetween(g, p, {id}, v) {
    }
  }

  /** The effects of a node: its own and those of everything nested in it. */
  method NodeEffects(g: Graph, n: Node) returns (effects: set<Effect>)
    ensures var roots := set r | r in n.subgraphs;
            forall e :: e in effects <==> Has(n, e) || (roots != {} && Explained(g, roots, e))
  {
    hide Explained, Finished, Local, Has;
    ghost var roots := set r | r in n.subgraphs;
    effects := LocalEffects(n);
    if n.subgraphs == [] {
      return;
    }
    var state := new nat[|g|](_ => 0);
    var memo := new set<Effect>[|g|](_ => {});
    ghost var order: seq<nat> := [];
    var nested: set<Effect> := {};
    var i := 0;
    while i < |n.subgraphs|
      invariant 0 <= i <= |n.subgraphs|
      invariant Search(g, roots, state[..], memo[..], [], order)
      invariant forall k :: 0 <= k < |order| ==> memo[order[k]] <= nested
      invariant forall e :: e in nested ==> Explained(g, roots, e)
      invariant forall k :: 0 <= k < i ==> n.subgraphs[k] in order || (n.subgraphs[k] >= |g| && Unknown in nested)
      invariant effects == Local(n) + nested
    {
      ghost var prior := order;
      var more;
      more, order := VisitSubgraph(g, n.subgraphs[i], state, memo, roots, [], prior);
      effects := effects + more;
      nested := nested + more;
      i := i + 1;
    }
    assert n.subgraphs[0] in roots;
    SearchIsExact(g, roots, state[..], memo[..], order, nested);
  }
}
