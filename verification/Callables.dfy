/** Callable values of the cmeta layer and their meaning.

A callable is a copied descriptor: a signature, declared effects and algebraic
properties, and either a raw target or an invocation adapter with captured bytes.
Whether two descriptors are "the same" is decided by `Same`; what a descriptor
computes is left to an environment (`Env`), which is only assumed to honour the
declarations made by the descriptor (`KeepsWord`). */
module Callables {
  import opened Basics

  /** A type descriptor. `trivial` stands for the trivial copy and trivial destroy traits. */
  datatype TypeDesc = TypeDesc(identity: nat, valid: bool, trivial: bool)

  const BOOL_TYPE := TypeDesc(0, true, true)

  predicate TypeEqual(a: TypeDesc, b: TypeDesc) {
    a.valid && b.valid && a.identity == b.identity
  }

  /** Types a direct (ahead-of-time) pipeline may carry. */
  predicate DirectEligible(t: TypeDesc) {
    t.valid && t.trivial
  }

  datatype Protocol = ValueProtocol | GeneratorProtocol

  datatype Signature = Signature(protocol: Protocol, params: seq<TypeDesc>, ret: TypeDesc)

  datatype Property = Deterministic | Total | Idempotent | NoAlias | Associative

  datatype Effect = Stateful | Async | Io | MayFail | Unknown

  datatype Dispatch = Adapter | CanonicalRaw | InvalidDispatch

  datatype Callable = Callable(
    sig: Option<Signature>,
    effects: set<Effect>,
    properties: set<Property>,
    dispatch: Dispatch,
    target: Option<nat>,
    invoke: Option<nat>,
    generate: Option<nat>,
    capture: seq<nat>)

  const CAPTURE_INLINE: nat := 32

  /** Declared effects, properties and signature do not contradict each other. */
  predicate ContractConsistent(c: Callable) {
    && c.sig.Some?
    && !(Total in c.properties && MayFail in c.effects)
    && (Idempotent in c.properties ==> UnaryEndo(c.sig.value))
    && (Associative in c.properties ==>
          && c.sig.value.protocol.ValueProtocol?
          && |c.sig.value.params| == 2
          && TypeEqual(c.sig.value.params[0], c.sig.value.params[1])
          && TypeEqual(c.sig.value.params[0], c.sig.value.ret))
  }

  predicate UnaryEndo(s: Signature) {
    && s.protocol.ValueProtocol?
    && |s.params| == 1
    && TypeEqual(s.params[0], s.ret)
  }

  /** Whether the descriptor can be bound (all lazily resolved parts being present). */
  predicate Bindable(c: Callable) {
    && !c.dispatch.InvalidDispatch?
    && ContractConsistent(c)
    && (c.dispatch.CanonicalRaw? ==> c.target.Some? && c.capture == [])
    && (if c.sig.value.protocol.GeneratorProtocol? then c.generate.Some? else c.invoke.Some?)
    && |c.capture| <= CAPTURE_INLINE
  }

  /** Descriptor comparison: equal declarations and the same authoritative code. */
  predicate Same(a: Callable, b: Callable) {
    && Bindable(a) && Bindable(b)
    && a.sig == b.sig && a.effects == b.effects && a.properties == b.properties
    && a.dispatch == b.dispatch && |a.capture| == |b.capture|
    && (if a.dispatch.CanonicalRaw?
        then a.target == b.target
        else a.invoke == b.invoke && a.generate == b.generate && a.capture == b.capture)
  }

  predicate Pure(c: Callable) {
    c.effects == {}
  }

  predicate DeclaresIdempotentEndomap(c: Callable) {
    && Bindable(c)
    && Pure(c)
    && {Deterministic, Total, Idempotent} <= c.properties
    && UnaryEndo(c.sig.value)
  }

  /** A bindable callable with one value parameter. */
  predicate UnaryValue(c: Callable) {
    && Bindable(c)
    && c.sig.value.protocol.ValueProtocol?
    && |c.sig.value.params| == 1
  }

  // ----- meaning

  /** Trivially copyable storage. */
  datatype Value = Value(bytes: seq<nat>)

  /** The part of a bound callable that decides what it computes. */
  datatype Code = RawCode(target: nat) | AdapterCode(invoke: nat, capture: seq<nat>)

  function CodeOf(c: Callable): Code
    requires UnaryValue(c)
  {
    if c.dispatch.CanonicalRaw? then RawCode(c.target.value) else AdapterCode(c.invoke.value, c.capture)
  }

  /** An interpretation of types (`has`), of map code (`run`) and of filter code (`test`). */
  datatype Env = Env(has: (nat, Value) -> bool, run: (Code, Value) -> Value, test: (Code, Value) -> bool)

  function Apply(env: Env, c: Callable, x: Value): Value {
    if UnaryValue(c) then env.run(CodeOf(c), x) else x
  }

  predicate Holds(env: Env, c: Callable, x: Value) {
    UnaryValue(c) && env.test(CodeOf(c), x)
  }

  /** The code of this descriptor does what the descriptor declares: results have the declared
      type, and a declared idempotent endomap is idempotent on values of its type. */
  ghost predicate KeepsWord(env: Env, c: Callable) {
    && (UnaryValue(c) ==>
          forall x :: env.has(c.sig.value.params[0].identity, x) ==> env.has(c.sig.value.ret.identity, Apply(env, c, x)))
    && (DeclaresIdempotentEndomap(c) ==>
          forall x :: env.has(c.sig.value.params[0].identity, x) ==> Apply(env, c, Apply(env, c, x)) == Apply(env, c, x))
  }

  /** Comparison is an equivalence among bindable descriptors, and equal ones declare the same. */
  lemma {:induction false} SameIsEquivalence(a: Callable, b: Callable, c: Callable)
    ensures Bindable(a) ==> Same(a, a)
    ensures Same(a, b) ==> Same(b, a)
    ensures Same(a, b) && Same(b, c) ==> Same(a, c)
    ensures Same(a, b) ==> a.sig == b.sig && a.effects == b.effects && a.properties == b.properties
    ensures Same(a, b) ==> (DeclaresIdempotentEndomap(a) <==> DeclaresIdempotentEndomap(b))
  {
    hide Bindable;
  }

  /** Descriptors that compare equal compute the same function in every environment. */
  lemma {:induction false} SameMeaning(env: Env, a: Callable, b: Callable, x: Value)
    requires Same(a, b)
    ensures Apply(env, a, x) == Apply(env, b, x)
    ensures Holds(env, a, x) == Holds(env, b, x)
  {
  }
}
