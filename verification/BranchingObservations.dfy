/** Observing a graph through each of its views: the number of nodes and edges and a checksum of
every source's targets in order. All views of one edge list are observed alike. */
module BranchingObservations {
  import opened Basics
  import opened DataGraph
  import opened BranchingViews

  /** The checksum's seed and its mixing step; nothing depends on which they are. */
  datatype Mixer = Mixer(seed: nat, mix: (nat, nat) -> nat)

  datatype Observation = Observation(nodes: nat, edges: nat, checksum: nat, ok: bool)

  function Fold(m: Mixer, ts: seq<nat>): nat {
    if ts == [] then m.seed else m.mix(Fold(m, ts[..|ts| - 1]), ts[|ts| - 1] + 1)
  }

  lemma {:induction false} FoldNext(m: Mixer, ts: seq<nat>, j: nat)
    requires j < |ts|
    ensures Fold(m, ts[..j + 1]) == m.mix(Fold(m, ts[..j]), ts[j] + 1)
  {
    assert ts[..j + 1][..j] == ts[..j];
  }

  function Checksum(m: Mixer, edges: seq<Edge>, k: nat): nat {
    if k == 0 then m.seed
    else m.mix(m.mix(Checksum(m, edges, k - 1), k - 1), Fold(m, Targets(edges, k - 1)))
  }

  function Expected(m: Mixer, edges: seq<Edge>, count: nat): Observation {
    Observation(count, |edges|, Checksum(m, edges, count), true)
  }

  method ObserveFlatLookup(m: Mixer, edges: seq<Edge>, count: nat) returns (o: Observation)
    ensures o.ok == ValidEdges(edges, count)
    ensures o.ok ==> o == Expected(m, edges, count)
  {
    hide Fold, Targets, Below;
    o := Observation(count, 0, m.seed, true);
    BelowZero(edges);
    NoFolds(m, edges);
    var n := 0;
    while n < count
      invariant 0 <= n <= count && o.nodes == count && (n > 0 ==> ValidEdges(edges, count))
      invariant o.checksum == Checksum(m, edges, n) && o.edges == Below(edges, n)
    {
      var sum, observed, e := m.seed, 0, 0;
      while e < |edges|
        invariant 0 <= e <= |edges| && ValidEdges(edges[..e], count)
        invariant sum == Fold(m, Targets(edges[..e], n)) && observed == |Targets(edges[..e], n)|
      {
        if edges[e].from >= count || edges[e].to >= count {
          o := o.(ok := false);
          return;
        }
        TargetsFold(m, edges, e, n);
        if edges[e].from == n {
          sum := m.mix(sum, edges[e].to + 1);
          observed := observed + 1;
        }
        e := e + 1;
      }
      assert edges[..e] == edges;
      BelowStep(edges, n);
      o := o.(edges := o.edges + observed, checksum := m.mix(m.mix(o.checksum, n), sum));
      n := n + 1;
    }
    if ValidEdges(edges, count) {
      BelowAll(edges, count);
    }
    o := o.(ok := o.edges == |edges|);
  }

  method ObserveFlatOnce(m: Mixer, sums: array<nat>, edges: seq<Edge>, count: nat) returns (o: Observation)
    requires sums.Length == count
    modifies sums
    ensures o.ok == ValidEdges(edges, count)
    ensures o.ok ==> o == Expected(m, edges, count)
  {
    hide Fold, Targets;
    o := Observation(count, 0, m.seed, true);
    NoFolds(m, edges);
    var n := 0;
    while n < count
      invariant 0 <= n <= count && forall k :: 0 <= k < n ==> sums[k] == m.seed
    {
      sums[n] := m.seed;
      n := n + 1;
    }
    var e := 0;
    while e < |edges|
      invariant 0 <= e <= |edges| && ValidEdges(edges[..e], count)
      invariant o == Observation(count, e, m.seed, true)
      invariant forall k :: 0 <= k < count ==> sums[k] == Fold(m, Targets(edges[..e], k))
    {
      if edges[e].from >= count || edges[e].to >= count {
        o := o.(ok := false);
        return;
      }
      FoldsNext(m, edges, e);
      sums[edges[e].from] := m.mix(sums[edges[e].from], edges[e].to + 1);
      o := o.(edges := o.edges + 1);
      e := e + 1;
    }
    assert edges[..e] == edges;
    n := 0;
    while n < count
      invariant 0 <= n <= count && o == Observation(count, |edges|, Checksum(m, edges, n), true)
    {
      o := o.(checksum := m.mix(m.mix(o.checksum, n), sums[n]));
      n := n + 1;
    }
  }

  lemma {:induction false} TargetsFold(m: Mixer, edges: seq<Edge>, e: nat, n: nat)
    requires e < |edges|
    ensures Fold(m, Targets(edges[..e + 1], n)) ==
              if edges[e].from == n then m.mix(Fold(m, Targets(edges[..e], n)), edges[e].to + 1)
              else Fold(m, Targets(edges[..e], n))
    ensures |Targets(edges[..e + 1], n)| == |Targets(edges[..e], n)| + (if edges[e].from == n then 1 else 0)
  {
    hide Targets;
    var ts := Targets(edges[..e], n);
    TargetsNext(edges, e, n);
    if edges[e].from == n {
      assert (ts + [edges[e].to])[..|ts|] == ts;
    } else {
      assert ts + [] == ts;
    }
  }

  lemma {:induction false} FoldsNext(m: Mixer, edges: seq<Edge>, e: nat)
    requires e < |edges|
    ensures forall k :: Fold(m, Targets(edges[..e + 1], k)) ==
                          if edges[e].from == k then m.mix(Fold(m, Targets(edges[..e], k)), edges[e].to + 1)
                          else Fold(m, Targets(edges[..e], k))
  {
    forall k ensures Fold(m, Targets(edges[..e + 1], k)) ==
                       if edges[e].from == k then m.mix(Fold(m, Targets(edges[..e], k)), edges[e].to + 1)
                       else Fold(m, Targets(edges[..e], k))
    {
      TargetsFold(m, edges, e, k);
    }
  }

  lemma {:induction false} NoFolds(m: Mixer, edges: seq<Edge>)
    ensures forall k :: Fold(m, Targets(edges[..0], k)) == m.seed && Targets(edges[..0], k) == []
  {
  }

  /** Observing rows of any content stays within bounds; rows of an edge list are observed as
      that list. */
  method ObserveCsr(m: Mixer, offsets: array<nat>, targets: array<nat>, count: nat, ghost edges: seq<Edge>) returns (o: Observation)
    requires offsets.Length == count + 1
    ensures Rows(offsets[..], targets[..], edges, count) && ValidEdges(edges, count) ==> o == Expected(m, edges, count)
  {
    hide Fold, Targets, Below;
    ghost var rows := Rows(offsets[..], targets[..], edges, count) && ValidEdges(edges, count);
    o := Observation(0, 0, m.seed, true);
    if offsets[0] != 0 || offsets[count] != targets.Length {
      o := o.(ok := false);
      return;
    }
    o := o.(nodes := count);
    var n := 0;
    while n < count
      invariant 0 <= n <= count && o.nodes == count && o.ok
      invariant rows ==> o.checksum == Checksum(m, edges, n) && o.edges == offsets[n]
    {
      assert rows ==> Row(offsets[..], targets[..], edges, n);
      if offsets[n] > offsets[n + 1] || offsets[n + 1] > targets.Length {
        o := o.(ok := false);
        return;
      }
      var sum, e := m.seed, offsets[n];
      FoldNone(m);
      ghost var row := targets[offsets[n]..offsets[n + 1]];
      if rows {
        TargetsBelow(edges, count, n);
      }
      while e < offsets[n + 1]
        invariant offsets[n] <= e <= offsets[n + 1] && o.nodes == count && o.ok
        invariant sum == Fold(m, row[..e - offsets[n]])
        invariant rows ==> o.checksum == Checksum(m, edges, n) && o.edges == e
      {
        assert targets[e] == row[e - offsets[n]];
        if targets[e] >= count {
          o := o.(ok := false);
          return;
        }
        FoldNext(m, row, e - offsets[n]);
        sum := m.mix(sum, targets[e] + 1);
        o := o.(edges := o.edges + 1);
        e := e + 1;
      }
      assert row[..e - offsets[n]] == row;
      o := o.(checksum := m.mix(m.mix(o.checksum, n), sum));
      n := n + 1;
    }
    o := o.(ok := o.edges == targets.Length);
  }

  /** Observing spans of any content stays within bounds; spans of an edge list are observed as
      that list. */
  method ObserveHash(m: Mixer, spans: map<nat, Span>, targets: array<nat>, count: nat, ghost edges: seq<Edge>) returns (o: Observation)
    ensures Spans(spans, targets[..], edges, count) && ValidEdges(edges, count) ==> o == Expected(m, edges, count)
  {
    hide Fold, Targets, Below, Checksum, SpanOf;
    ghost var good := Spans(spans, targets[..], edges, count) && ValidEdges(edges, count);
    o := Observation(count, 0, m.seed, true);
    BelowZero(edges);
    ChecksumNext(m, edges, 0);
    var n := 0;
    while n < count
      invariant 0 <= n <= count && o.nodes == count && o.ok
      invariant good ==> o.checksum == Checksum(m, edges, n) && o.edges == Below(edges, n)
    {
      if good {
        SpanFacts(spans, targets[..], edges, count, n);
      }
      FoldNone(m);
      BelowStep(edges, n);
      ChecksumNext(m, edges, n);
      var sum := m.seed;
      if n in spans {
        var span := spans[n];
        var end := span.offset + span.count;
        if end > targets.Length {
          o := o.(ok := false);
          return;
        }
        ghost var row, start := targets[span.offset..end], o.edges;
        var e := span.offset;
        while e < end
          invariant span.offset <= e <= end && o.nodes == count && o.ok && o.edges == start + (e - span.offset)
          invariant sum == Fold(m, row[..e - span.offset])
          invariant good ==> o.checksum == Checksum(m, edges, n)
        {
          assert targets[e] == row[e - span.offset];
          if targets[e] >= count {
            o := o.(ok := false);
            return;
          }
          FoldNext(m, row, e - span.offset);
          sum := m.mix(sum, targets[e] + 1);
          o := o.(edges := o.edges + 1);
          e := e + 1;
        }
        assert row[..e - span.offset] == row;
      }
      o := o.(checksum := m.mix(m.mix(o.checksum, n), sum));
      n := n + 1;
    }
    if good {
      BelowAll(edges, count);
    }
    o := o.(ok := o.edges == targets.Length);
  }

  lemma {:induction false} SpanFacts(spans: map<nat, Span>, targets: seq<nat>, edges: seq<Edge>, count: nat, n: nat)
    requires Spans(spans, targets, edges, count) && ValidEdges(edges, count) && n < count
    ensures n !in spans ==> Targets(edges, n) == []
    ensures n in spans ==>
              && spans[n].offset + spans[n].count <= |targets|
              && var row := targets[spans[n].offset..spans[n].offset + spans[n].count];
                 row == Targets(edges, n) && forall j :: 0 <= j < |row| ==> row[j] < count
  {
    assert SpanOf(spans, targets, edges, n);
    TargetsBelow(edges, count, n);
  }

  lemma {:induction false} FoldNone(m: Mixer)
    ensures Fold(m, []) == m.seed
  {
  }

  lemma {:induction false} TargetsBelow(edges: seq<Edge>, count: nat, n: nat)
    requires ValidEdges(edges, count)
    ensures forall j :: 0 <= j < |Targets(edges, n)| ==> Targets(edges, n)[j] < count
  {
    if edges != [] {
      TargetsBelow(edges[..|edges| - 1], count, n);
    }
  }

  /** Following the chains of an edge list observes that list. */
  method ObservePointer(m: Mixer, first: array<Option<nat>>, last: array<Option<nat>>, target: array<nat>, next: array<Option<nat>>, count: nat, edges: seq<Edge>)
    returns (o: Observation)
    requires ValidEdges(edges, count) && Chained(edges, |edges|, count, first[..], last[..], target[..], next[..])
    ensures o == Expected(m, edges, count)
  {
    hide Fold, Targets, Below, Ids, Chained, ValidEdges, Checksum;
    o := Observation(count, 0, m.seed, true);
    BelowZero(edges);
    ChecksumNext(m, edges, 0);
    var n := 0;
    while n < count
      invariant 0 <= n <= count && o == Observation(count, Below(edges, n), Checksum(m, edges, n), true)
    {
      Walk(edges, count, n, first[..], last[..], target[..], next[..]);
      var link, sum := first[n], m.seed;
      ghost var ids, ts, j := Ids(edges, n), Targets(edges, n), 0;
      FoldNone(m);
      assert ts[..0] == [];
      while link.Some?
        invariant 0 <= j <= |ids| && link == (if j < |ids| then Some(ids[j]) else None)
        invariant sum == Fold(m, ts[..j])
        invariant o == Observation(count, Below(edges, n) + j, Checksum(m, edges, n), true)
        decreases |ids| - j
      {
        assert target[link.value] == ts[j];
        if target[link.value] >= count {
          o := o.(ok := false);
          return;
        }
        FoldNext(m, ts, j);
        sum := m.mix(sum, target[link.value] + 1);
        o := o.(edges := o.edges + 1);
        link := next[link.value];
        j := j + 1;
      }
      assert ts[..j] == ts;
      BelowStep(edges, n);
      ChecksumNext(m, edges, n);
      o := o.(checksum := m.mix(m.mix(o.checksum, n), sum));
      n := n + 1;
    }
    BelowAll(edges, count);
    o := o.(ok := o.edges == |edges|);
  }

  lemma {:induction false} ChecksumNext(m: Mixer, edges: seq<Edge>, n: nat)
    ensures Checksum(m, edges, 0) == m.seed
    ensures Checksum(m, edges, n + 1) == m.mix(m.mix(Checksum(m, edges, n), n), Fold(m, Targets(edges, n)))
  {
  }

  lemma {:induction false} Walk(edges: seq<Edge>, count: nat, n: nat, first: seq<Option<nat>>, last: seq<Option<nat>>, target: seq<nat>, next: seq<Option<nat>>)
    requires ValidEdges(edges, count) && Chained(edges, |edges|, count, first, last, target, next) && n < count
    ensures var ids, ts := Ids(edges, n), Targets(edges, n);
            && |first| == count && |target| == |next| == |edges| && |ts| == |ids|
            && first[n] == (if ids == [] then None else Some(ids[0]))
            && (forall j :: 0 <= j < |ids| ==> target[ids[j]] == ts[j] < count)
            && (forall j :: 0 <= j < |ids| ==> next[ids[j]] == After(ids, j))
  {
    hide Ids, Targets;
    assert edges[..|edges|] == edges;
    assert Linked(first[n], last[n], next, Ids(edges, n));
    IdsTargets(edges, n);
  }

  // ----- the dense index

  const INVALID_ID: nat := 0xFFFF_FFFF

  datatype DenseStatus = DenseOk | DenseInvalidArgument | DenseInvalidEdge

  /** Each node's first successor, and the least node with two. */
  method BuildDense(edges: seq<Edge>, count: nat) returns (status: DenseStatus, successors: array<nat>, fanout: Option<nat>)
    ensures status.DenseInvalidArgument? <==> count > INVALID_ID
    ensures status.DenseOk? <==> count <= INVALID_ID && ValidEdges(edges, count)
    ensures status.DenseOk? ==> successors.Length == count
    ensures status.DenseOk? ==>
              forall n :: 0 <= n < count ==> successors[n] == if Targets(edges, n) == [] then INVALID_ID else Targets(edges, n)[0]
    ensures status.DenseOk? && fanout.Some? ==>
              && fanout.value < count && |Targets(edges, fanout.value)| >= 2
              && forall n :: 0 <= n < fanout.value ==> |Targets(edges, n)| < 2
    ensures status.DenseOk? && fanout.None? ==> forall n :: 0 <= n < count ==> |Targets(edges, n)| < 2
    ensures fresh(successors)
  {
    hide Targets;
    fanout := None;
    if count > INVALID_ID {
      successors := new nat[0];
      return DenseInvalidArgument, successors, fanout;
    }
    successors := new nat[count](_ => INVALID_ID);
    var e := 0;
    NoTargets(edges);
    while e < |edges|
      invariant 0 <= e <= |edges| && ValidEdges(edges[..e], count)
      invariant forall n :: 0 <= n < count ==> successors[n] == DenseAt(edges, e, n)
      invariant fanout.Some? ==> fanout.value < count && |Targets(edges[..e], fanout.value)| >= 2
      invariant forall n :: 0 <= n < count && (fanout.Some? ==> n < fanout.value) ==> |Targets(edges[..e], n)| < 2
    {
      var edge := edges[e];
      if edge.from >= count || edge.to >= count {
        return DenseInvalidEdge, successors, fanout;
      }
      DenseNext(edges, e, count);
      if successors[edge.from] == INVALID_ID {
        successors[edge.from] := edge.to;
      } else if fanout.None? || edge.from < fanout.value {
        fanout := Some(edge.from);
      }
      e := e + 1;
      forall n | 0 <= n < count && (fanout.Some? ==> n < fanout.value) ensures |Targets(edges[..e], n)| < 2 {
        if n == edge.from {
          assert |Targets(edges[..e - 1], n)| == 0;
        } else {
          assert |Targets(edges[..e], n)| == |Targets(edges[..e - 1], n)|;
        }
      }
    }
    assert edges[..e] == edges;
    status := DenseOk;
  }

  function DenseAt(edges: seq<Edge>, e: nat, n: nat): nat
    requires e <= |edges|
  {
    if Targets(edges[..e], n) == [] then INVALID_ID else Targets(edges[..e], n)[0]
  }

  lemma {:induction false} NoTargets(edges: seq<Edge>)
    ensures forall n :: Targets(edges[..0], n) == []
  {
  }

  lemma {:induction false} DenseNext(edges: seq<Edge>, e: nat, count: nat)
    requires e < |edges| && ValidEdges(edges[..e], count) && edges[e].to < count <= INVALID_ID
    ensures var m := edges[e].from;
            && (DenseAt(edges, e, m) == INVALID_ID <==> Targets(edges[..e], m) == [])
            && DenseAt(edges, e + 1, m) == (if Targets(edges[..e], m) == [] then edges[e].to else DenseAt(edges, e, m))
            && |Targets(edges[..e + 1], m)| == |Targets(edges[..e], m)| + 1
    ensures forall n :: n != edges[e].from ==> DenseAt(edges, e + 1, n) == DenseAt(edges, e, n)
    ensures forall n :: n != edges[e].from ==> |Targets(edges[..e + 1], n)| == |Targets(edges[..e], n)|
  {
    var m := edges[e].from;
    TargetsNext(edges, e, m);
    TargetsBelow(edges[..e], count, m);
    forall n | n != m
      ensures DenseAt(edges, e + 1, n) == DenseAt(edges, e, n) && |Targets(edges[..e + 1], n)| == |Targets(edges[..e], n)|
    {
      TargetsNext(edges, e, n);
    }
  }
}
