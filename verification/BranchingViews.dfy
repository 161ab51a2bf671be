/** Views of an edge list that group edges by source: compressed rows built in place, spans by
source, and chained links. Each is shown to hold every source's targets in edge order. */
module BranchingViews {
  import opened Basics
  import opened DataGraph

  predicate ValidEdges(edges: seq<Edge>, count: nat) {
    forall i :: 0 <= i < |edges| ==> edges[i].from < count && edges[i].to < count
  }

  /** How many edges leave a source below `k`. */
  function Below(edges: seq<Edge>, k: nat): nat {
    if edges == [] then 0
    else Below(edges[..|edges| - 1], k) + (if edges[|edges| - 1].from < k then 1 else 0)
  }

  lemma {:induction false} BelowStep(edges: seq<Edge>, k: nat)
    ensures Below(edges, k + 1) == Below(edges, k) + |Targets(edges, k)|
  {
    if edges != [] {
      BelowStep(edges[..|edges| - 1], k);
    }
  }

  lemma {:induction false} BelowZero(edges: seq<Edge>)
    ensures Below(edges, 0) == 0
  {
    if edges != [] {
      BelowZero(edges[..|edges| - 1]);
    }
  }

  lemma {:induction false} BelowAll(edges: seq<Edge>, count: nat)
    requires ValidEdges(edges, count)
    ensures Below(edges, count) == |edges|
  {
    if edges != [] {
      BelowAll(edges[..|edges| - 1], count);
    }
  }

  lemma {:induction false} BelowMonotone(edges: seq<Edge>, a: nat, b: nat)
    requires a <= b
    ensures Below(edges, a) <= Below(edges, b)
    decreases b
  {
    if a < b {
      BelowMonotone(edges, a, b - 1);
      BelowStep(edges, b - 1);
    }
  }

  lemma {:induction false} TargetsGrow(edges: seq<Edge>, e: nat, n: nat)
    requires e <= |edges|
    ensures Targets(edges[..e], n) <= Targets(edges, n)
    decreases |edges|
  {
    if e < |edges| {
      var front := edges[..|edges| - 1];
      assert front[..e] == edges[..e];
      TargetsGrow(front, e, n);
    } else {
      assert edges[..e] == edges;
    }
  }

  lemma {:induction false} CountsNext(edges: seq<Edge>, e: nat)
    requires e < |edges|
    ensures forall n :: |Targets(edges[..e + 1], n)| == |Targets(edges[..e], n)| + (if edges[e].from == n then 1 else 0)
  {
    forall n ensures |Targets(edges[..e + 1], n)| == |Targets(edges[..e], n)| + (if edges[e].from == n then 1 else 0) {
      TargetsNext(edges, e, n);
    }
  }

  lemma {:induction false} TargetsNext(edges: seq<Edge>, e: nat, n: nat)
    requires e < |edges|
    ensures Targets(edges[..e + 1], n) == Targets(edges[..e], n) + (if edges[e].from == n then [edges[e].to] else [])
    ensures Below(edges[..e + 1], n) == Below(edges[..e], n) + (if edges[e].from < n then 1 else 0)
  {
    assert edges[..e + 1][..e] == edges[..e];
  }

  /** The row of a source has room for one more target as long as an edge from it is to come. */
  lemma {:induction false} RoomLeft(edges: seq<Edge>, e: nat)
    requires e < |edges|
    ensures var n := edges[e].from; Below(edges, n) + |Targets(edges[..e], n)| < Below(edges, n + 1)
  {
    var n := edges[e].from;
    BelowStep(edges, n);
    TargetsNext(edges, e, n);
    TargetsGrow(edges, e + 1, n);
  }

  // ----- compressed rows

  method BuildPrefixOffsets(offsets: array<nat>, edges: seq<Edge>, count: nat)
    requires offsets.Length == count + 1 && ValidEdges(edges, count)
    modifies offsets
    ensures forall k :: 0 <= k <= count ==> offsets[k] == Below(edges, k)
  {
    var k := 0;
    while k <= count
      invariant 0 <= k <= count + 1
      invariant forall j :: 0 <= j < k ==> offsets[j] == 0
    {
      offsets[k] := 0;
      k := k + 1;
    }
    var e := 0;
    while e < |edges|
      invariant 0 <= e <= |edges|
      invariant offsets[0] == 0
      invariant forall j :: 1 <= j <= count ==> offsets[j] == |Targets(edges[..e], j - 1)|
    {
      CountsNext(edges, e);
      offsets[edges[e].from + 1] := offsets[edges[e].from + 1] + 1;
      e := e + 1;
    }
    assert edges[..e] == edges;
    BelowZero(edges);
    var s := 1;
    while s <= count
      invariant 1 <= s <= count + 1
      invariant forall j :: 0 <= j < s ==> offsets[j] == Below(edges, j)
      invariant forall j :: s <= j <= count ==> offsets[j] == |Targets(edges, j - 1)|
    {
      BelowStep(edges, s - 1);
      offsets[s] := offsets[s] + offsets[s - 1];
      s := s + 1;
    }
  }

  method RestoreOffsets(offsets: array<nat>, count: nat)
    requires offsets.Length == count + 1
    modifies offsets
    ensures offsets[0] == 0 && forall k :: 1 <= k <= count ==> offsets[k] == old(offsets[k - 1])
  {
    var previous, s := 0, 0;
    while s <= count
      invariant 0 <= s <= count + 1
      invariant previous == if s == 0 then 0 else old(offsets[s - 1])
      invariant forall j :: s <= j <= count ==> offsets[j] == old(offsets[j])
      invariant s > 0 ==> offsets[0] == 0
      invariant forall j :: 1 <= j < s ==> offsets[j] == old(offsets[j - 1])
    {
      var current := offsets[s];
      offsets[s] := previous;
      previous := current;
      s := s + 1;
    }
  }

  /** Row `n` holds the targets of the first `e` edges that leave `n`, from its start on. */
  ghost predicate RowFilled(targets: seq<nat>, edges: seq<Edge>, e: nat, n: nat) {
    && e <= |edges|
    && Below(edges, n) + |Targets(edges[..e], n)| <= |targets|
    && targets[Below(edges, n)..Below(edges, n) + |Targets(edges[..e], n)|] == Targets(edges[..e], n)
  }

  /** Writing the next target of one source leaves every row filled. */
  lemma {:induction false} RowsFilledNext(before: seq<nat>, after: seq<nat>, edges: seq<Edge>, e: nat, n: nat)
    requires e < |edges| && RowFilled(before, edges, e, n)
    requires var m := edges[e].from;
             var at := Below(edges, m) + |Targets(edges[..e], m)|;
             at < |before| && after == before[at := edges[e].to]
    ensures RowFilled(after, edges, e + 1, n)
  {
    var m := edges[e].from;
    var at := Below(edges, m) + |Targets(edges[..e], m)|;
    var a, b := Below(edges, n), Below(edges, n) + |Targets(edges[..e], n)|;
    hide Below, Targets;
    TargetsNext(edges, e, n);
    RoomLeft(edges, e);
    if n == m {
      assert after[a..b + 1] == before[a..b] + [edges[e].to];
    } else {
      RowsApart(edges, e, n);
      assert after[a..b] == before[a..b];
    }
  }

  lemma {:induction false} RowsApart(edges: seq<Edge>, e: nat, n: nat)
    requires e < |edges| && n != edges[e].from
    ensures var m := edges[e].from;
            var at := Below(edges, m) + |Targets(edges[..e], m)|;
            at < Below(edges, n) || Below(edges, n) + |Targets(edges[..e], n)| <= at
  {
    hide Below, Targets;
    var m := edges[e].from;
    RoomLeft(edges, e);
    BelowStep(edges, n);
    TargetsGrow(edges, e, n);
    if m < n {
      BelowMonotone(edges, m + 1, n);
    } else {
      BelowMonotone(edges, n + 1, m);
    }
  }

  method StableGroupTargets(offsets: array<nat>, targets: array<nat>, edges: seq<Edge>, count: nat)
    requires offsets.Length == count + 1 && targets.Length == |edges| && ValidEdges(edges, count) && offsets != targets
    requires forall k :: 0 <= k <= count ==> offsets[k] == Below(edges, k)
    modifies offsets, targets
    ensures forall k :: 0 <= k <= count ==> offsets[k] == Below(edges, k)
    ensures forall n :: 0 <= n < count ==> RowFilled(targets[..], edges, |edges|, n)
  {
    hide Below, Targets, RowFilled;
    EmptyRows(edges, count, targets[..]);
    var e := 0;
    while e < |edges|
      invariant 0 <= e <= |edges|
      invariant forall n :: 0 <= n < count ==> offsets[n] == Below(edges, n) + |Targets(edges[..e], n)|
      invariant forall n :: 0 <= n < count ==> RowFilled(targets[..], edges, e, n)
    {
      var edge := edges[e];
      GroupStep(edges, e, count, targets[..]);
      ghost var before := targets[..];
      targets[offsets[edge.from]] := edge.to;
      offsets[edge.from] := offsets[edge.from] + 1;
      e := e + 1;
      forall n | 0 <= n < count ensures RowFilled(targets[..], edges, e, n) {
        RowsFilledNext(before, targets[..], edges, e - 1, n);
      }
    }
    RowsFull(edges, count);
    RestoreOffsets(offsets, count);
  }

  lemma {:induction false} EmptyRows(edges: seq<Edge>, count: nat, targets: seq<nat>)
    requires ValidEdges(edges, count) && |targets| == |edges|
    ensures forall n :: 0 <= n < count ==> |Targets(edges[..0], n)| == 0 && RowFilled(targets, edges, 0, n)
  {
    forall n | 0 <= n < count ensures RowFilled(targets, edges, 0, n) {
      BelowAll(edges, count);
      BelowMonotone(edges, n, count);
    }
  }

  lemma {:induction false} GroupStep(edges: seq<Edge>, e: nat, count: nat, targets: seq<nat>)
    requires ValidEdges(edges, count) && e < |edges| == |targets|
    ensures forall n :: 0 <= n < count ==>
              |Targets(edges[..e + 1], n)| == |Targets(edges[..e], n)| + (if edges[e].from == n then 1 else 0)
    ensures var m := edges[e].from; Below(edges, m) + |Targets(edges[..e], m)| < |targets|
  {
    CountsNext(edges, e);
    RoomLeft(edges, e);
    BelowMonotone(edges, edges[e].from + 1, count);
    BelowAll(edges, count);
  }

  lemma {:induction false} RowsFull(edges: seq<Edge>, count: nat)
    ensures edges[..|edges|] == edges && Below(edges, 0) == 0
    ensures forall k :: 1 <= k <= count ==> Below(edges, k) == Below(edges, k - 1) + |Targets(edges[..|edges|], k - 1)|
  {
    BelowZero(edges);
    assert edges[..|edges|] == edges;
    forall k | 1 <= k <= count ensures Below(edges, k) == Below(edges, k - 1) + |Targets(edges, k - 1)| {
      BelowStep(edges, k - 1);
    }
  }

  /** The rows of a compressed view are the targets of each source, in edge order. */
  ghost predicate Rows(offsets: seq<nat>, targets: seq<nat>, edges: seq<Edge>, count: nat) {
    && |offsets| == count + 1 && offsets[0] == 0 && offsets[count] == |targets| == |edges|
    && forall n :: 0 <= n < count ==> Row(offsets, targets, edges, n)
  }

  ghost predicate Row(offsets: seq<nat>, targets: seq<nat>, edges: seq<Edge>, n: nat)
    requires n + 1 < |offsets|
  {
    offsets[n] <= offsets[n + 1] <= |targets| && targets[offsets[n]..offsets[n + 1]] == Targets(edges, n)
  }

  method BuildCsr(edges: seq<Edge>, count: nat) returns (ok: bool, offsets: array<nat>, targets: array<nat>)
    ensures ok == ValidEdges(edges, count)
    ensures ok ==> Rows(offsets[..], targets[..], edges, count)
    ensures fresh(offsets) && fresh(targets)
  {
    offsets, targets := new nat[count + 1], new nat[|edges|];
    ok := CheckEdges(edges, count);
    if !ok {
      return;
    }
    BuildPrefixOffsets(offsets, edges, count);
    if |edges| != 0 {
      StableGroupTargets(offsets, targets, edges, count);
    }
    RowsBuilt(offsets[..], targets[..], edges, count);
  }

  // ----- spans by source

  datatype Span = Span(offset: nat, count: nat)

  /** The span of a source is its targets in edge order; a source without edges has none. */
  ghost predicate SpanOf(spans: map<nat, Span>, targets: seq<nat>, edges: seq<Edge>, n: nat) {
    if Targets(edges, n) == [] then n !in spans
    else
      && n in spans && spans[n].offset + spans[n].count <= |targets|
      && targets[spans[n].offset..spans[n].offset + spans[n].count] == Targets(edges, n)
  }

  ghost predicate Spans(spans: map<nat, Span>, targets: seq<nat>, edges: seq<Edge>, count: nat) {
    |targets| == |edges| && forall n :: 0 <= n < count ==> SpanOf(spans, targets, edges, n)
  }

  /** The keyed form of the rows; the hash table is a map. */
  method BuildHash(edges: seq<Edge>, count: nat) returns (ok: bool, spans: map<nat, Span>, targets: array<nat>)
    ensures ok == ValidEdges(edges, count)
    ensures ok ==> Spans(spans, targets[..], edges, count)
    ensures fresh(targets)
  {
    hide Targets;
    var offsets;
    spans := map[];
    ok, offsets, targets := BuildCsr(edges, count);
    if !ok {
      return;
    }
    var n := 0;
    while n < count
      invariant 0 <= n <= count
      invariant Rows(offsets[..], targets[..], edges, count)
      invariant forall k :: k in spans ==> k < n
      invariant forall k :: 0 <= k < n ==> SpanOf(spans, targets[..], edges, k)
    {
      ghost var before := spans;
      assert Row(offsets[..], targets[..], edges, n);
      if offsets[n] != offsets[n + 1] {
        spans := spans[n := Span(offsets[n], offsets[n + 1] - offsets[n])];
      }
      SpanFromRow(spans, offsets[..], targets[..], edges, n);
      forall k | 0 <= k < n ensures SpanOf(spans, targets[..], edges, k) {
        assert SpanOf(before, targets[..], edges, k);
      }
      n := n + 1;
    }
  }

  lemma {:induction false} SpanFromRow(spans: map<nat, Span>, offsets: seq<nat>, targets: seq<nat>, edges: seq<Edge>, n: nat)
    requires n + 1 < |offsets| && Row(offsets, targets, edges, n)
    requires n in spans <==> offsets[n] != offsets[n + 1]
    requires n in spans ==> spans[n] == Span(offsets[n], offsets[n + 1] - offsets[n])
    ensures SpanOf(spans, targets, edges, n)
  {
    hide Targets;
    assert |targets[offsets[n]..offsets[n + 1]]| == offsets[n + 1] - offsets[n];
  }

  lemma {:induction false} RowsBuilt(offsets: seq<nat>, targets: seq<nat>, edges: seq<Edge>, count: nat)
    requires |offsets| == count + 1 && |targets| == |edges| && ValidEdges(edges, count)
    requires forall k :: 0 <= k <= count ==> offsets[k] == Below(edges, k)
    requires |edges| > 0 ==> forall n :: 0 <= n < count ==> RowFilled(targets, edges, |edges|, n)
    ensures Rows(offsets, targets, edges, count)
  {
    hide Below, Targets;
    BelowAll(edges, count);
    RowsFull(edges, count);
    forall n | 0 <= n < count ensures Row(offsets, targets, edges, n) {
      BelowStep(edges, n);
      BelowMonotone(edges, n + 1, count);
      if |edges| > 0 {
        assert RowFilled(targets, edges, |edges|, n);
      } else {
        assert |Targets(edges, n)| == 0;
      }
    }
  }

  method CheckEdges(edges: seq<Edge>, count: nat) returns (ok: bool)
    ensures ok == ValidEdges(edges, count)
  {
    var e := 0;
    while e < |edges|
      invariant 0 <= e <= |edges| && ValidEdges(edges[..e], count)
    {
      if edges[e].from >= count || edges[e].to >= count {
        return false;
      }
      e := e + 1;
    }
    assert edges[..e] == edges;
    return true;
  }

  // ----- chained links

  /** The edges that leave `n`, by their numbers. */
  function Ids(edges: seq<Edge>, n: nat): (ids: seq<nat>)
    ensures forall j :: 0 <= j < |ids| ==> ids[j] < |edges| && edges[ids[j]].from == n
  {
    if edges == [] then []
    else
      var k := |edges| - 1;
      Ids(edges[..k], n) + (if edges[k].from == n then [k] else [])
  }

  lemma {:induction false} IdsTargets(edges: seq<Edge>, n: nat)
    ensures |Ids(edges, n)| == |Targets(edges, n)|
    ensures forall j :: 0 <= j < |Ids(edges, n)| ==> Targets(edges, n)[j] == edges[Ids(edges, n)[j]].to
  {
    if edges != [] {
      IdsTargets(edges[..|edges| - 1], n);
    }
  }

  lemma {:induction false} IdsNext(edges: seq<Edge>, e: nat, n: nat)
    requires e < |edges|
    ensures Ids(edges[..e + 1], n) == Ids(edges[..e], n) + (if edges[e].from == n then [e] else [])
  {
    assert edges[..e + 1][..e] == edges[..e];
  }

  /** Following `next` from `first` visits exactly `ids`. */
  predicate Linked(first: Option<nat>, last: Option<nat>, next: seq<Option<nat>>, ids: seq<nat>) {
    && (forall j :: 0 <= j < |ids| ==> ids[j] < |next|)
    && first == (if ids == [] then None else Some(ids[0]))
    && last == (if ids == [] then None else Some(ids[|ids| - 1]))
    && (forall j :: 0 <= j < |ids| ==> next[ids[j]] == After(ids, j))
  }

  function After(ids: seq<nat>, j: nat): Option<nat> {
    if j + 1 < |ids| then Some(ids[j + 1]) else None
  }

  lemma {:induction false} LinkedOther(first: Option<nat>, last: Option<nat>, next: seq<Option<nat>>, next': seq<Option<nat>>, ids: seq<nat>)
    requires Linked(first, last, next, ids) && |next'| == |next|
    requires forall j :: 0 <= j < |ids| ==> next'[ids[j]] == next[ids[j]]
    ensures Linked(first, last, next', ids)
  {
  }

  lemma {:induction false} LinkedMore(first: Option<nat>, last: Option<nat>, next: seq<Option<nat>>, ids: seq<nat>, e: nat)
    requires Linked(first, last, next, ids) && e < |next|
    requires forall j :: 0 <= j < |ids| ==> ids[j] < e
    requires forall i, j :: 0 <= i < j < |ids| ==> ids[i] < ids[j]
    ensures var next' := (if ids == [] then next else next[ids[|ids| - 1] := Some(e)])[e := None];
            Linked(if ids == [] then Some(e) else first, Some(e), next', ids + [e])
  {
    var n, ids' := |ids|, ids + [e];
    var next' := (if ids == [] then next else next[ids[n - 1] := Some(e)])[e := None];
    forall j | 0 <= j < |ids'| ensures next'[ids'[j]] == After(ids', j) {
      if j < n - 1 {
        assert ids[j] < ids[n - 1];
        assert next'[ids[j]] == next[ids[j]] == After(ids, j);
      }
    }
  }

  lemma {:induction false} IdsIncrease(edges: seq<Edge>, n: nat)
    ensures forall i, j :: 0 <= i < j < |Ids(edges, n)| ==> Ids(edges, n)[i] < Ids(edges, n)[j]
  {
    if edges != [] {
      IdsIncrease(edges[..|edges| - 1], n);
    }
  }

  /** Every source's chain runs through its edges among the first `e`. */
  ghost predicate Chained(edges: seq<Edge>, e: nat, count: nat, first: seq<Option<nat>>, last: seq<Option<nat>>, target: seq<nat>, next: seq<Option<nat>>) {
    && e <= |edges| == |target| == |next| && |first| == |last| == count
    && (forall i :: 0 <= i < e ==> target[i] == edges[i].to)
    && forall n :: 0 <= n < count ==> Linked(first[n], last[n], next, Ids(edges[..e], n))
  }

  lemma {:induction false} ChainedStep(edges: seq<Edge>, e: nat, count: nat, first: seq<Option<nat>>, last: seq<Option<nat>>, target: seq<nat>, next: seq<Option<nat>>)
    requires Chained(edges, e, count, first, last, target, next) && e < |edges| && edges[e].from < count
    ensures var m := edges[e].from;
            && (last[m].Some? ==> last[m].value < |next|)
            && var next' := (if last[m].Some? then next[last[m].value := Some(e)] else next)[e := None];
               var first' := if last[m].Some? then first else first[m := Some(e)];
               Chained(edges, e + 1, count, first', last[m := Some(e)], target[e := edges[e].to], next')
  {
    hide Ids, Linked;
    var m := edges[e].from;
    LinkedEnds(first[m], last[m], next, Ids(edges[..e], m));
    var next' := (if last[m].Some? then next[last[m].value := Some(e)] else next)[e := None];
    var first' := if last[m].Some? then first else first[m := Some(e)];
    forall n | 0 <= n < count ensures Linked(first'[n], last[m := Some(e)][n], next', Ids(edges[..e + 1], n)) {
      var ids := Ids(edges[..e], n);
      IdsNext(edges, e, n);
      if n == m {
        IdsIncrease(edges[..e], n);
        LinkedMore(first[n], last[n], next, ids, e);
      } else {
        assert ids + [] == ids;
        LinkedEnds(first[n], last[n], next, ids);
        forall j | 0 <= j < |ids| ensures next'[ids[j]] == next[ids[j]] {
          assert edges[..e][ids[j]].from == n;
          assert last[m].Some? ==> edges[..e][last[m].value].from == m;
        }
        LinkedOther(first[n], last[n], next, next', ids);
      }
    }
  }

  lemma {:induction false} LinkedEnds(first: Option<nat>, last: Option<nat>, next: seq<Option<nat>>, ids: seq<nat>)
    requires Linked(first, last, next, ids)
    ensures last.Some? <==> ids != []
    ensures ids != [] ==> last.value == ids[|ids| - 1]
    ensures forall j :: 0 <= j < |ids| ==> ids[j] < |next|
  {
  }

  method BuildPointers(edges: seq<Edge>, count: nat)
    returns (ok: bool, first: array<Option<nat>>, last: array<Option<nat>>, target: array<nat>, next: array<Option<nat>>)
    ensures ok == ValidEdges(edges, count)
    ensures ok ==> Chained(edges, |edges|, count, first[..], last[..], target[..], next[..])
    ensures fresh(first) && fresh(last) && fresh(target) && fresh(next)
  {
    hide Chained;
    first, last := new Option<nat>[count](_ => None), new Option<nat>[count](_ => None);
    target, next := new nat[|edges|], new Option<nat>[|edges|];
    ok := CheckEdges(edges, count);
    if !ok {
      return;
    }
    var e := 0;
    NothingChained(edges, count, first[..], last[..], target[..], next[..]);
    while e < |edges|
      invariant 0 <= e <= |edges|
      invariant Chained(edges, e, count, first[..], last[..], target[..], next[..])
    {
      var m := edges[e].from;
      ChainedStep(edges, e, count, first[..], last[..], target[..], next[..]);
      target[e] := edges[e].to;
      if last[m].Some? {
        next[last[m].value] := Some(e);
      } else {
        first[m] := Some(e);
      }
      next[e] := None;
      last[m] := Some(e);
      e := e + 1;
    }
  }

  lemma {:induction false} NothingChained(edges: seq<Edge>, count: nat, first: seq<Option<nat>>, last: seq<Option<nat>>, target: seq<nat>, next: seq<Option<nat>>)
    requires |edges| == |target| == |next| && |first| == |last| == count
    requires forall n :: 0 <= n < count ==> first[n].None? && last[n].None?
    ensures Chained(edges, 0, count, first, last, target, next)
  {
  }
}
