/** Typed Filter/Map stage lists (the ahead-of-time pipeline IR), their validation
and their meaning on a stream of values. */
module AotStages {
  import opened Basics
  import opened Callables

  datatype StageKind = FilterStage | MapStage | OtherStage

  datatype StageDispatch = StaticTarget | CanonicalRawBatch | AdapterDispatch | UnknownDispatch

  datatype Stage = Stage(
    kind: StageKind,
    dispatch: StageDispatch,
    inputType: TypeDesc,
    outputType: TypeDesc,
    callable: Callable,
    targetName: string)

  datatype PipelineIr = PipelineIr(stages: seq<Stage>, inputType: TypeDesc, outputType: TypeDesc)

  const STAGE_LIMIT: nat := 16

  // ----- validation

  predicate DispatchValid(s: Stage)
    requires Bindable(s.callable)
  {
    match s.dispatch
    case StaticTarget => s.callable.capture == [] && s.targetName != ""
    case CanonicalRawBatch => s.callable.capture == [] && s.callable.dispatch.CanonicalRaw?
    case AdapterDispatch => s.callable.invoke.Some?
    case UnknownDispatch => false
  }

  /** The contract of one stage that receives values of type `flow`. */
  predicate StageContractValid(s: Stage, flow: TypeDesc) {
    && !s.kind.OtherStage?
    && DirectEligible(s.inputType) && DirectEligible(s.outputType)
    && TypeEqual(s.inputType, flow)
    && Bindable(s.callable)
    && Pure(s.callable)
    && {Deterministic, Total, NoAlias} <= s.callable.properties
    && s.callable.sig.value.protocol.ValueProtocol?
    && |s.callable.sig.value.params| == 1
    && TypeEqual(s.callable.sig.value.params[0], s.inputType)
    && (if s.kind.FilterStage?
        then TypeEqual(s.callable.sig.value.ret, BOOL_TYPE) && TypeEqual(s.outputType, s.inputType)
        else TypeEqual(s.callable.sig.value.ret, s.outputType))
    && DispatchValid(s)
  }

  /** The type in front of stage `k` (behind the last one when `k` is the length). */
  function FlowType(ir: PipelineIr, k: nat): TypeDesc
    requires k <= |ir.stages|
  {
    if k == 0 then ir.inputType else ir.stages[k - 1].outputType
  }

  predicate ValidIr(ir: PipelineIr) {
    && 0 < |ir.stages| <= STAGE_LIMIT
    && DirectEligible(ir.inputType) && DirectEligible(ir.outputType)
    && (forall k :: 0 <= k < |ir.stages| ==> StageContractValid(ir.stages[k], FlowType(ir, k)))
    && TypeEqual(FlowType(ir, |ir.stages|), ir.outputType)
  }

  method Validate(ir: PipelineIr) returns (ok: bool)
    ensures ok <==> ValidIr(ir)
  {
    hide StageContractValid;
    if |ir.stages| == 0 || |ir.stages| > STAGE_LIMIT ||
       !DirectEligible(ir.inputType) || !DirectEligible(ir.outputType) {
      return false;
    }
    var flowType := ir.inputType;
    var index := 0;
    while index < |ir.stages|
      invariant 0 <= index <= |ir.stages|
      invariant flowType == FlowType(ir, index)
      invariant forall k :: 0 <= k < index ==> StageContractValid(ir.stages[k], FlowType(ir, k))
    {
      if !StageContractValid(ir.stages[index], flowType) {
        return false;
      }
      flowType := ir.stages[index].outputType;
      index := index + 1;
    }
    return TypeEqual(flowType, ir.outputType);
  }

  // ----- which pipelines are accepted

  /** The callable is a plain function from one type to another. */
  ghost predicate Arrow(c: Callable, from: nat, to: nat) {
    exists p: TypeDesc, q: TypeDesc ::
      c.sig == Some(Signature(ValueProtocol, [p], q)) && p.valid && q.valid && p.identity == from && q.identity == to
  }

  /** The callable may run ahead of time: it can be bound, does nothing but compute, and always
      gives the same fresh result. */
  predicate Plain(c: Callable) {
    && Bindable(c) && (forall e :: e in c.effects ==> false)
    && Deterministic in c.properties && Total in c.properties && NoAlias in c.properties
  }

  /** The way the stage is to be called exists. */
  predicate Reachable(s: Stage) {
    && (s.dispatch.StaticTarget? ==> |s.targetName| > 0)
    && (s.dispatch.CanonicalRawBatch? ==> s.callable.dispatch.CanonicalRaw?)
    && (s.dispatch.AdapterDispatch? ==> s.callable.invoke.Some?)
    && (s.dispatch.StaticTarget? || s.dispatch.CanonicalRawBatch? ==> |s.callable.capture| == 0)
    && !s.dispatch.UnknownDispatch?
  }

  /** A filter is a predicate on the type in front of it and passes that type on; a map is a
      function from the type in front of it to the type behind it. */
  ghost predicate Fits(s: Stage, from: nat, to: nat) {
    && s.inputType.identity == from && s.outputType.identity == to
    && DirectEligible(s.inputType) && DirectEligible(s.outputType)
    && (if s.kind.FilterStage? then Arrow(s.callable, from, BOOL_TYPE.identity) && to == from
        else s.kind.MapStage? && Arrow(s.callable, from, to))
    && Plain(s.callable) && Reachable(s)
  }

  /** `types` are the types of the values between the stages. */
  ghost predicate Typed(ir: PipelineIr, types: seq<nat>) {
    && |types| == |ir.stages| + 1
    && types[0] == ir.inputType.identity && types[|ir.stages|] == ir.outputType.identity
    && forall k :: 0 <= k < |ir.stages| ==> Fits(ir.stages[k], types[k], types[k + 1])
  }

  lemma {:induction false} StageTyped(s: Stage, flow: TypeDesc)
    requires flow.valid
    ensures StageContractValid(s, flow) <==> Fits(s, flow.identity, s.outputType.identity)
    ensures StageContractValid(s, flow) ==> s.outputType.valid
  {
    hide Bindable, Arrow;
    if Bindable(s.callable) {
      BindableHasSignature(s.callable);
      ArrowSignature(s.callable, flow.identity, BOOL_TYPE.identity);
      ArrowSignature(s.callable, flow.identity, s.outputType.identity);
      EffectFree(s.callable);
    }
  }

  lemma {:induction false} BindableHasSignature(c: Callable)
    requires Bindable(c)
    ensures c.sig.Some?
  {
  }

  lemma {:induction false} ArrowSignature(c: Callable, from: nat, to: nat)
    requires c.sig.Some?
    ensures Arrow(c, from, to) <==>
              var sig := c.sig.value;
              && sig.protocol.ValueProtocol? && |sig.params| == 1 && sig.params[0].valid && sig.ret.valid
              && sig.params[0].identity == from && sig.ret.identity == to
  {
    if |c.sig.value.params| == 1 {
      assert c.sig.value.params == [c.sig.value.params[0]];
    }
  }

  lemma {:induction false} EffectFree(c: Callable)
    ensures Pure(c) <==> forall e :: e in c.effects ==> false
  {
  }

  lemma {:induction false} FitsMeans(s: Stage, from: nat, to: nat)
    requires Fits(s, from, to)
    ensures s.outputType.identity == to && s.outputType.valid
  {
  }

  lemma {:induction false} TypedFlow(ir: PipelineIr, types: seq<nat>, k: nat)
    requires Typed(ir, types) && ir.inputType.valid && k <= |ir.stages|
    ensures FlowType(ir, k).valid && FlowType(ir, k).identity == types[k]
  {
    hide Fits;
    if k > 0 {
      FitsMeans(ir.stages[k - 1], types[k - 1], types[k]);
    }
  }

  lemma {:induction false} FlowValid(ir: PipelineIr, k: nat)
    requires ValidIr(ir) && k < |ir.stages|
    ensures FlowType(ir, k).valid
  {
    assert k > 0 ==> StageContractValid(ir.stages[k - 1], FlowType(ir, k - 1));
  }

  lemma {:induction false} FlowFits(ir: PipelineIr, k: nat)
    requires ValidIr(ir) && k < |ir.stages|
    ensures Fits(ir.stages[k], FlowType(ir, k).identity, FlowType(ir, k + 1).identity)
  {
    hide StageContractValid, Fits;
    FlowValid(ir, k);
    StageTyped(ir.stages[k], FlowType(ir, k));
  }

  lemma {:induction false} ValidIsTyped(ir: PipelineIr) returns (types: seq<nat>)
    requires ValidIr(ir)
    ensures Typed(ir, types)
  {
    hide ValidIr, Fits, FlowType;
    ValidEnds(ir);
    types := seq(|ir.stages| + 1, k requires 0 <= k <= |ir.stages| => FlowType(ir, k).identity);
    forall k | 0 <= k < |ir.stages| ensures Fits(ir.stages[k], types[k], types[k + 1]) {
      FlowFits(ir, k);
    }
  }

  lemma {:induction false} ValidEnds(ir: PipelineIr)
    requires ValidIr(ir)
    ensures FlowType(ir, 0).identity == ir.inputType.identity && FlowType(ir, |ir.stages|).identity == ir.outputType.identity
  {
  }

  lemma {:induction false} TypedIsValid(ir: PipelineIr, types: seq<nat>)
    requires 1 <= |ir.stages| <= 16 && DirectEligible(ir.inputType) && DirectEligible(ir.outputType) && Typed(ir, types)
    ensures ValidIr(ir)
  {
    hide StageContractValid, Fits;
    forall k | 0 <= k < |ir.stages| ensures StageContractValid(ir.stages[k], FlowType(ir, k)) {
      TypedFlow(ir, types, k);
      FitsMeans(ir.stages[k], types[k], types[k + 1]);
      StageTyped(ir.stages[k], FlowType(ir, k));
    }
    TypedFlow(ir, types, |ir.stages|);
  }

  /** Main result about validation: it accepts exactly the lists of one to sixteen stages that
      can be typed from the pipeline's input to its output by plain functions. */
  lemma {:induction false} ValidMeansTyped(ir: PipelineIr)
    ensures ValidIr(ir) <==>
              && 1 <= |ir.stages| <= 16 && DirectEligible(ir.inputType) && DirectEligible(ir.outputType)
              && exists types: seq<nat> :: Typed(ir, types)
  {
    hide StageContractValid, Typed;
    if ValidIr(ir) {
      var types := ValidIsTyped(ir);
    }
    if 1 <= |ir.stages| <= 16 && DirectEligible(ir.inputType) && DirectEligible(ir.outputType) {
      forall types: seq<nat> | Typed(ir, types) ensures ValidIr(ir) {
        TypedIsValid(ir, types);
      }
    }
  }

  // ----- meaning

  function StageStep(env: Env, s: Stage, x: Value): Option<Value> {
    if s.kind.FilterStage? then (if Holds(env, s.callable, x) then Some(x) else None)
    else Some(Apply(env, s.callable, x))
  }

  /** What a stage list makes of one value: a result, or nothing when a filter rejects it. */
  function EvalStages(env: Env, ss: seq<Stage>, x: Value): Option<Value> {
    if ss == [] then Some(x)
    else
      match StageStep(env, ss[0], x)
      case None => None
      case Some(y) => EvalStages(env, ss[1..], y)
  }

  /** What a stage list makes of a stream. */
  function RunStages(env: Env, ss: seq<Stage>, xs: seq<Value>): seq<Value> {
    if xs == [] then []
    else
      match EvalStages(env, ss, xs[0])
      case None => RunStages(env, ss, xs[1..])
      case Some(y) => [y] + RunStages(env, ss, xs[1..])
  }

  lemma {:induction false} EvalConcat(env: Env, a: seq<Stage>, b: seq<Stage>, x: Value)
    ensures EvalStages(env, a + b, x) ==
            match EvalStages(env, a, x) { case None => None case Some(y) => EvalStages(env, b, y) }
  {
    if a == [] {
      assert a + b == b;
    } else {
      assert (a + b)[0] == a[0] && (a + b)[1..] == a[1..] + b;
      var step := StageStep(env, a[0], x);
      if step.Some? {
        EvalConcat(env, a[1..], b, step.value);
      }
    }
  }

  // ----- typing

  /** The stages take values of type `from` to values of type `to`. */
  predicate Chained(ss: seq<Stage>, from: nat, to: nat) {
    if ss == [] then from == to
    else
      && UnaryValue(ss[0].callable)
      && ss[0].callable.sig.value.params[0].identity == from
      && (ss[0].kind.FilterStage? ==> ss[0].outputType.identity == from)
      && (!ss[0].kind.FilterStage? ==> ss[0].outputType.identity == ss[0].callable.sig.value.ret.identity)
      && Chained(ss[1..], ss[0].outputType.identity, to)
  }

  /** The maps that occur in the list do what their descriptors declare. Nothing is assumed of
      filters, nor of code that does not occur. */
  ghost predicate Honest(env: Env, ss: seq<Stage>) {
    forall i :: 0 <= i < |ss| && !ss[i].kind.FilterStage? ==> KeepsWord(env, ss[i].callable)
  }

  lemma {:induction false} HonestParts(env: Env, a: seq<Stage>, b: seq<Stage>)
    ensures Honest(env, a + b) <==> Honest(env, a) && Honest(env, b)
  {
    hide KeepsWord;
    assert forall i :: 0 <= i < |a| ==> (a + b)[i] == a[i];
    assert forall i :: 0 <= i < |b| ==> (a + b)[|a| + i] == b[i];
    if Honest(env, a + b) {
      forall i | 0 <= i < |b| && !b[i].kind.FilterStage? ensures KeepsWord(env, b[i].callable) {
        assert (a + b)[|a| + i] == b[i];
      }
    }
  }

  lemma {:induction false} EvalTyped(env: Env, ss: seq<Stage>, from: nat, to: nat, x: Value)
    requires Honest(env, ss) && Chained(ss, from, to) && env.has(from, x)
    ensures EvalStages(env, ss, x).Some? ==> env.has(to, EvalStages(env, ss, x).value)
  {
    if ss != [] {
      var step := StageStep(env, ss[0], x);
      if step.Some? {
        assert !ss[0].kind.FilterStage? ==> KeepsWord(env, ss[0].callable);
        EvalTyped(env, ss[1..], ss[0].outputType.identity, to, step.value);
      }
    }
  }

  lemma {:induction false} ChainedConcat(a: seq<Stage>, b: seq<Stage>, from: nat, mid: nat, to: nat)
    requires Chained(a, from, mid) && Chained(b, mid, to)
    ensures Chained(a + b, from, to)
  {
    if a == [] {
      assert a + b == b;
    } else {
      assert (a + b)[0] == a[0] && (a + b)[1..] == a[1..] + b;
      ChainedConcat(a[1..], b, a[0].outputType.identity, mid, to);
    }
  }

  lemma {:induction false} ChainedSplit(a: seq<Stage>, b: seq<Stage>, from: nat, to: nat) returns (mid: nat)
    requires Chained(a + b, from, to)
    ensures Chained(a, from, mid) && Chained(b, mid, to)
  {
    if a == [] {
      assert a + b == b;
      mid := from;
    } else {
      assert (a + b)[0] == a[0] && (a + b)[1..] == a[1..] + b;
      mid := ChainedSplit(a[1..], b, a[0].outputType.identity, to);
    }
  }

  lemma {:induction false} StageChains(s: Stage, flow: TypeDesc)
    requires StageContractValid(s, flow)
    ensures UnaryValue(s.callable) && s.callable.sig.value.params[0].identity == flow.identity
    ensures s.outputType.identity == if s.kind.FilterStage? then flow.identity else s.callable.sig.value.ret.identity
  {
  }

  lemma {:induction false} ValidChainedFrom(ir: PipelineIr, k: nat)
    requires ValidIr(ir) && k <= |ir.stages|
    ensures Chained(ir.stages[k..], FlowType(ir, k).identity, ir.outputType.identity)
    decreases |ir.stages| - k
  {
    hide StageContractValid, UnaryValue;
    if k < |ir.stages| {
      assert ir.stages[k..][1..] == ir.stages[k + 1..];
      StageChains(ir.stages[k], FlowType(ir, k));
      ValidChainedFrom(ir, k + 1);
    }
  }

  /** A validated IR is well typed end to end. */
  lemma {:induction false} ValidChained(ir: PipelineIr)
    requires ValidIr(ir)
    ensures Chained(ir.stages, ir.inputType.identity, ir.outputType.identity)
  {
    ValidChainedFrom(ir, 0);
    assert ir.stages[0..] == ir.stages;
  }

  // ----- deleting a repeated idempotent map

  /** Two stages of which the second may be deleted. */
  predicate IdempotentPair(r: Stage, d: Stage) {
    && r.kind.MapStage? && d.kind.MapStage?
    && Same(r.callable, d.callable)
    && DeclaresIdempotentEndomap(r.callable) && DeclaresIdempotentEndomap(d.callable)
  }

  /** Deleting the second of two adjacent equal idempotent maps changes neither the
      typing nor the meaning of a stage list. */
  lemma {:induction false} DeleteAdjacent(env: Env, a: seq<Stage>, r: Stage, d: Stage, b: seq<Stage>, from: nat, to: nat, x: Value)
    requires Chained(a + ([r, d] + b), from, to)
    requires IdempotentPair(r, d)
    ensures Chained(a + ([r] + b), from, to)
    ensures Honest(env, a + ([r, d] + b)) && env.has(from, x) ==>
              EvalStages(env, a + ([r, d] + b), x) == EvalStages(env, a + ([r] + b), x)
  {
    var mid := ChainedSplit(a, [r, d] + b, from, to);
    assert ([r, d] + b)[1..] == [d] + b && ([d] + b)[1..] == b && ([r] + b)[1..] == b;
    ChainedConcat(a, [r] + b, from, mid, to);
    if Honest(env, a + ([r, d] + b)) && env.has(from, x) {
      HonestParts(env, a, [r, d] + b);
      assert ([r, d] + b)[0] == r && KeepsWord(env, r.callable);
      EvalConcat(env, a, [r, d] + b, x);
      EvalConcat(env, a, [r] + b, x);
      EvalTyped(env, a, from, mid, x);
      if EvalStages(env, a, x).Some? {
        var y := EvalStages(env, a, x).value;
        SameMeaning(env, r.callable, d.callable, Apply(env, r.callable, y));
        assert EvalStages(env, [r, d] + b, y) == EvalStages(env, [d] + b, Apply(env, r.callable, y));
      }
    }
  }

  // ----- the idempotence premise is needed

  const NUMBER := TypeDesc(1, true, true)

  /** A pure map that declares everything a stage needs and does not declare idempotence. */
  const SUCCESSOR := Callable(Some(Signature(ValueProtocol, [NUMBER], NUMBER)), {}, {Deterministic, Total, NoAlias},
                              Adapter, None, Some(0), None, [])

  const SUCCESSOR_STAGE := Stage(MapStage, AdapterDispatch, NUMBER, NUMBER, SUCCESSOR, "")

  function Increment(v: Value): Value {
    Value(if v.bytes == [] then [1] else [v.bytes[0] + 1])
  }

  /** An environment in which that map adds one. */
  function Counting(): Env {
    Env((t, v) => true, (c, v) => Increment(v), (c, v) => true)
  }

  lemma {:induction false} SuccessorIsStage()
    ensures Bindable(SUCCESSOR) && UnaryValue(SUCCESSOR) && StageContractValid(SUCCESSOR_STAGE, NUMBER)
    ensures Same(SUCCESSOR, SUCCESSOR) && !DeclaresIdempotentEndomap(SUCCESSOR)
    ensures KeepsWord(Counting(), SUCCESSOR)
  {
  }

  lemma {:induction false} TwiceIsValid()
    ensures ValidIr(PipelineIr([SUCCESSOR_STAGE, SUCCESSOR_STAGE], NUMBER, NUMBER))
  {
    hide StageContractValid;
    SuccessorIsStage();
    var ir := PipelineIr([SUCCESSOR_STAGE, SUCCESSOR_STAGE], NUMBER, NUMBER);
    assert FlowType(ir, 0) == FlowType(ir, 1) == FlowType(ir, 2) == NUMBER;
  }

  /** A valid pipeline that adds one twice is honest, and deleting its second stage would change
      what it computes: only the declaration of idempotence licenses a deletion. */
  lemma {:induction false} DeletionNeedsIdempotence()
    ensures var twice := [SUCCESSOR_STAGE, SUCCESSOR_STAGE];
            && ValidIr(PipelineIr(twice, NUMBER, NUMBER)) && Honest(Counting(), twice)
            && Same(SUCCESSOR, SUCCESSOR) && !DeclaresIdempotentEndomap(SUCCESSOR)
            && EvalStages(Counting(), twice, Value([0])) == Some(Value([2]))
            && EvalStages(Counting(), [SUCCESSOR_STAGE], Value([0])) == Some(Value([1]))
  {
    hide ValidIr, Same, DeclaresIdempotentEndomap, KeepsWord, UnaryValue, Bindable;
    var twice := [SUCCESSOR_STAGE, SUCCESSOR_STAGE];
    SuccessorIsStage();
    TwiceIsValid();
    assert Apply(Counting(), SUCCESSOR, Value([0])) == Value([1]);
    assert Apply(Counting(), SUCCESSOR, Value([1])) == Value([2]);
    assert twice[1..] == [SUCCESSOR_STAGE] && [SUCCESSOR_STAGE][1..] == [];
    assert EvalStages(Counting(), [SUCCESSOR_STAGE], Value([1])) == Some(Value([2]));
  }
}
