/** Why a token stream is refused: a declarative account of the first fault of a stream, and the
theorem that reading stops with exactly its status. */
module CbindFailures {
  import opened Basics
  import opened CbindScalar
  import opened CbindShape
  import opened CbindFormat

  // ----- one token

  /** The token is of a kind from which the target can take a value. */
  predicate Suits(kind: ScalarKind, t: Token) {
    match kind
    case BoolKind => t.BoolToken?
    case EnumKind(_) => t.StringToken? || t.SintToken? || t.UintToken?
    case TextKind(_) => t.StringToken?
    case BytesKind(_) => t.BytesToken?
    case _ => t.SintToken? || t.UintToken? || t.FloatToken?
  }

  /** Why a token that stores nothing is refused. */
  function Reason(kind: ScalarKind, t: Token): Status {
    if !Suits(kind, t) then TokenMismatch
    else
      match kind
      case TextKind(borrowed) => if borrowed && !t.stable then Unsupported else LimitExceeded
      case BytesKind(borrowed) => if borrowed && !t.stable then Unsupported else LimitExceeded
      case _ => ValueOutOfRange
  }

  ghost predicate Fit(ctx: Context, kind: ScalarKind, t: Token) {
    exists v :: Stores(ctx, kind, t, v)
  }

  ghost predicate RefusedAs(ctx: Context, kind: ScalarKind, t: Token, st: Status) {
    !Fit(ctx, kind, t) && st == Reason(kind, t)
  }

  ghost predicate TagRefusedAs(tag: TagKind, t: Token, st: Status) {
    && (forall n :: !TagNames(tag, t, n))
    && st == if t.SintToken? || t.UintToken? || (t.StringToken? && tag.EnumTag?) then ValueOutOfRange else TokenMismatch
  }

  lemma {:induction false} RefusalReason(ctx: Context, kind: ScalarKind, t: Token)
    requires Admit(ctx, kind, t).Refused?
    ensures Admit(ctx, kind, t).status == Reason(kind, t)
  {
    hide Pow2, ExactInBinarySpec, FirstNamed, TagValid;
  }

  /** A token is refused exactly when it stores no value, and for the reason given. */
  lemma {:induction false} RefusedExact(ctx: Context, kind: ScalarKind, t: Token, st: Status)
    ensures Admit(ctx, kind, t) == Refused(st) <==> RefusedAs(ctx, kind, t, st)
    ensures Admit(ctx, kind, t).Admitted? <==> Fit(ctx, kind, t)
  {
    hide Admit, Stores, Reason;
    if Admit(ctx, kind, t).Admitted? {
      AdmitExact(ctx, kind, t, Admit(ctx, kind, t).value);
    } else {
      RefusalReason(ctx, kind, t);
      forall v ensures !Stores(ctx, kind, t, v) {
        AdmitExact(ctx, kind, t, v);
      }
    }
  }

  lemma {:induction false} TagRefusedExact(tag: TagKind, t: Token, st: Status)
    ensures AdmitTag(tag, t) == Refused(st) <==> TagRefusedAs(tag, t, st)
  {
    hide TagNames;
    if AdmitTag(tag, t).Admitted? {
      AdmitTagExact(tag, t, AdmitTag(tag, t).value);
    } else {
      TagReason(tag, t);
      forall n ensures !TagNames(tag, t, n) {
        AdmitTagExact(tag, t, n);
      }
    }
  }

  lemma {:induction false} TagReason(tag: TagKind, t: Token)
    requires AdmitTag(tag, t).Refused?
    ensures AdmitTag(tag, t).status ==
              if t.SintToken? || t.UintToken? || (t.StringToken? && tag.EnumTag?) then ValueOutOfRange else TokenMismatch
  {
    hide FirstNamed, TagValid;
  }

  // ----- containers

  /** The next `n` tokens are elements. */
  ghost predicate ItemsRun(ctx: Context, element: ScalarKind, toks: seq<Token>, at: nat, n: nat) {
    at + n <= |toks| && forall i :: at <= i < at + n ==> Fit(ctx, element, toks[i])
  }

  /** After `n` elements the stream ends, has an element too many, or has something else than an
      element or the end of the list. */
  ghost predicate ItemFault(ctx: Context, element: ScalarKind, toks: seq<Token>, p: nat, n: nat, st: Status)
    requires p <= |toks|
  {
    if p == |toks| then st == UnexpectedEnd
    else toks[p] != ArrayEnd && if n == ctx.maxItems then st == LimitExceeded else RefusedAs(ctx, element, toks[p], st)
  }

  ghost predicate ItemsFail(ctx: Context, element: ScalarKind, toks: seq<Token>, at: nat, count: nat, st: Status) {
    exists n: nat :: ItemFailsAfter(ctx, element, toks, at, count, n, st)
  }

  ghost predicate ItemFailsAfter(ctx: Context, element: ScalarKind, toks: seq<Token>, at: nat, count: nat, n: nat, st: Status) {
    ItemsRun(ctx, element, toks, at, n) && count + n <= ctx.maxItems && ItemFault(ctx, element, toks, at + n, count + n, st)
  }

  lemma {:induction false} EndsNoItem(ctx: Context, kind: ScalarKind)
    ensures !Fit(ctx, kind, ArrayEnd) && !Fit(ctx, kind, MapEnd)
  {
    hide Stores, Admit;
    NotAdmitted(ctx, kind);
    RefusedExact(ctx, kind, ArrayEnd, Ok);
    RefusedExact(ctx, kind, MapEnd, Ok);
  }

  lemma {:induction false} ItemAfterMore(ctx: Context, element: ScalarKind, toks: seq<Token>, at: nat, count: nat, n: nat, st: Status)
    requires at < |toks| && count < ctx.maxItems && Fit(ctx, element, toks[at])
    ensures ItemFailsAfter(ctx, element, toks, at, count, n + 1, st) <==> ItemFailsAfter(ctx, element, toks, at + 1, count + 1, n, st)
    ensures !ItemFailsAfter(ctx, element, toks, at, count, 0, st)
  {
    hide Fit, RefusedAs;
    RefusedNoFit(ctx, element, toks[at], st);
    assert at + (n + 1) == at + 1 + n && count + (n + 1) == count + 1 + n;
  }

  /** With one element more in front. */
  lemma {:induction false} ItemsFailMore(ctx: Context, element: ScalarKind, toks: seq<Token>, at: nat, count: nat, st: Status)
    requires at < |toks| && count < ctx.maxItems && Fit(ctx, element, toks[at])
    ensures ItemsFail(ctx, element, toks, at, count, st) <==> ItemsFail(ctx, element, toks, at + 1, count + 1, st)
  {
    hide Fit, ItemFailsAfter;
    if ItemsFail(ctx, element, toks, at, count, st) {
      var n: nat :| ItemFailsAfter(ctx, element, toks, at, count, n, st);
      ItemAfterMore(ctx, element, toks, at, count, if n == 0 then 0 else n - 1, st);
    }
    if ItemsFail(ctx, element, toks, at + 1, count + 1, st) {
      var n: nat :| ItemFailsAfter(ctx, element, toks, at + 1, count + 1, n, st);
      ItemAfterMore(ctx, element, toks, at, count, n, st);
    }
  }

  lemma {:induction false} RefusedNoFit(ctx: Context, kind: ScalarKind, t: Token, st: Status)
    ensures RefusedAs(ctx, kind, t, st) ==> !Fit(ctx, kind, t)
  {
  }

  /** No element in front: the fault is here or nowhere. */
  lemma {:induction false} ItemsFailHere(ctx: Context, element: ScalarKind, toks: seq<Token>, at: nat, count: nat, st: Status)
    requires at <= |toks| && count <= ctx.maxItems
    requires at == |toks| || count == ctx.maxItems || !Fit(ctx, element, toks[at])
    ensures ItemsFail(ctx, element, toks, at, count, st) <==> ItemFault(ctx, element, toks, at, count, st)
  {
    hide Fit, ItemFailsAfter, ItemFault;
    ItemFailsNow(ctx, element, toks, at, count, st);
    forall n: nat | ItemFailsAfter(ctx, element, toks, at, count, n, st) ensures n == 0 {
      ItemFailsLater(ctx, element, toks, at, count, n, st);
    }
  }

  lemma {:induction false} ItemFailsNow(ctx: Context, element: ScalarKind, toks: seq<Token>, at: nat, count: nat, st: Status)
    requires at <= |toks| && count <= ctx.maxItems
    ensures ItemFailsAfter(ctx, element, toks, at, count, 0, st) <==> ItemFault(ctx, element, toks, at, count, st)
  {
    hide Fit, ItemFault;
  }

  lemma {:induction false} ItemFailsLater(ctx: Context, element: ScalarKind, toks: seq<Token>, at: nat, count: nat, n: nat, st: Status)
    requires at <= |toks| && ItemFailsAfter(ctx, element, toks, at, count, n, st)
    requires at == |toks| || count == ctx.maxItems || !Fit(ctx, element, toks[at])
    ensures n == 0
  {
    hide Fit, ItemFault;
  }

  lemma {:induction false} ItemsFailExact(ctx: Context, element: ScalarKind, toks: seq<Token>, at: nat, items: seq<Value>, st: Status)
    requires at <= |toks| && |items| <= ctx.maxItems
    ensures ParseItems(ctx, element, toks, at, items) == Stopped(st) <==> ItemsFail(ctx, element, toks, at, |items|, st)
    decreases |toks| - at
  {
    hide Admit, Fit, ItemsFail, RefusedAs;
    EndsNoItem(ctx, element);
    if at < |toks| {
      RefusedExact(ctx, element, toks[at], st);
    }
    if at < |toks| && |items| < ctx.maxItems && Fit(ctx, element, toks[at]) {
      var x := Admit(ctx, element, toks[at]).value;
      ItemsFailExact(ctx, element, toks, at + 1, items + [x], st);
      ItemsFailMore(ctx, element, toks, at, |items|, st);
    } else {
      ItemsFailHere(ctx, element, toks, at, |items|, st);
    }
  }

  /** The next `2 * n` tokens are keys and values. */
  ghost predicate EntriesRun(ctx: Context, key: ScalarKind, mapped: ScalarKind, toks: seq<Token>, at: nat, n: nat)
    decreases n
  {
    if n == 0 then at <= |toks|
    else EntryAtFits(ctx, key, mapped, toks, at) && EntriesRun(ctx, key, mapped, toks, at + 2, n - 1)
  }

  ghost predicate EntryAtFits(ctx: Context, key: ScalarKind, mapped: ScalarKind, toks: seq<Token>, p: nat) {
    p + 1 < |toks| && Fit(ctx, key, toks[p]) && Fit(ctx, mapped, toks[p + 1])
  }

  ghost predicate EntryFault(ctx: Context, key: ScalarKind, mapped: ScalarKind, toks: seq<Token>, p: nat, n: nat, st: Status)
    requires p <= |toks|
  {
    if p == |toks| then st == UnexpectedEnd
    else
      && toks[p] != MapEnd
      && if n == ctx.maxItems then st == LimitExceeded
         else if !Fit(ctx, key, toks[p]) then RefusedAs(ctx, key, toks[p], st)
         else if p + 1 == |toks| then st == UnexpectedEnd
         else RefusedAs(ctx, mapped, toks[p + 1], st)
  }

  ghost predicate EntriesFail(ctx: Context, key: ScalarKind, mapped: ScalarKind, toks: seq<Token>, at: nat, count: nat, st: Status) {
    exists n: nat :: FailsAfter(ctx, key, mapped, toks, at, count, n, st)
  }

  ghost predicate FailsAfter(ctx: Context, key: ScalarKind, mapped: ScalarKind, toks: seq<Token>, at: nat, count: nat, n: nat, st: Status) {
    && EntriesRun(ctx, key, mapped, toks, at, n) && count + n <= ctx.maxItems
    && at + 2 * n <= |toks| && EntryFault(ctx, key, mapped, toks, at + 2 * n, count + n, st)
  }

  lemma {:induction false} NoFaultHere(ctx: Context, key: ScalarKind, mapped: ScalarKind, toks: seq<Token>, at: nat, count: nat, st: Status)
    requires count < ctx.maxItems && EntryAtFits(ctx, key, mapped, toks, at)
    ensures !EntryFault(ctx, key, mapped, toks, at, count, st)
  {
    hide Fit, RefusedAs;
    RefusedNoFit(ctx, mapped, toks[at + 1], st);
  }

  lemma {:induction false} AfterMore(ctx: Context, key: ScalarKind, mapped: ScalarKind, toks: seq<Token>, at: nat, count: nat, n: nat, st: Status)
    requires count < ctx.maxItems && EntryAtFits(ctx, key, mapped, toks, at)
    ensures FailsAfter(ctx, key, mapped, toks, at, count, n + 1, st) <==> FailsAfter(ctx, key, mapped, toks, at + 2, count + 1, n, st)
    ensures !FailsAfter(ctx, key, mapped, toks, at, count, 0, st)
  {
    hide Fit, RefusedAs, EntryFault;
    NoFaultHere(ctx, key, mapped, toks, at, count, st);
    assert at + 2 * (n + 1) == at + 2 + 2 * n && count + (n + 1) == count + 1 + n;
  }

  lemma {:induction false} FailsSooner(ctx: Context, key: ScalarKind, mapped: ScalarKind, toks: seq<Token>, at: nat, count: nat, n: nat, st: Status)
    requires count < ctx.maxItems && EntryAtFits(ctx, key, mapped, toks, at) && FailsAfter(ctx, key, mapped, toks, at, count, n, st)
    ensures EntriesFail(ctx, key, mapped, toks, at + 2, count + 1, st)
  {
    hide FailsAfter, EntryAtFits;
    AfterMore(ctx, key, mapped, toks, at, count, if n == 0 then 0 else n - 1, st);
  }

  lemma {:induction false} FailsAsMuch(ctx: Context, key: ScalarKind, mapped: ScalarKind, toks: seq<Token>, at: nat, count: nat, n: nat, st: Status)
    requires count < ctx.maxItems && EntryAtFits(ctx, key, mapped, toks, at)
    requires FailsAfter(ctx, key, mapped, toks, at + 2, count + 1, n, st)
    ensures EntriesFail(ctx, key, mapped, toks, at, count, st)
  {
    hide FailsAfter, EntryAtFits;
    AfterMore(ctx, key, mapped, toks, at, count, n, st);
  }

  lemma {:induction false} EntriesFailMore(ctx: Context, key: ScalarKind, mapped: ScalarKind, toks: seq<Token>, at: nat, count: nat, st: Status)
    requires count < ctx.maxItems && EntryAtFits(ctx, key, mapped, toks, at)
    ensures EntriesFail(ctx, key, mapped, toks, at, count, st) <==> EntriesFail(ctx, key, mapped, toks, at + 2, count + 1, st)
  {
    hide FailsAfter, EntryAtFits;
    if EntriesFail(ctx, key, mapped, toks, at, count, st) {
      var n: nat :| FailsAfter(ctx, key, mapped, toks, at, count, n, st);
      FailsSooner(ctx, key, mapped, toks, at, count, n, st);
    } else if EntriesFail(ctx, key, mapped, toks, at + 2, count + 1, st) {
      var n: nat :| FailsAfter(ctx, key, mapped, toks, at + 2, count + 1, n, st);
      FailsAsMuch(ctx, key, mapped, toks, at, count, n, st);
    }
  }

  lemma {:induction false} EntriesFailHere(ctx: Context, key: ScalarKind, mapped: ScalarKind, toks: seq<Token>, at: nat, count: nat, st: Status)
    requires at <= |toks| && count <= ctx.maxItems
    requires count < ctx.maxItems ==> !EntryAtFits(ctx, key, mapped, toks, at)
    ensures EntriesFail(ctx, key, mapped, toks, at, count, st) <==> EntryFault(ctx, key, mapped, toks, at, count, st)
  {
    hide EntryAtFits, EntryFault, FailsAfter;
    FailsNow(ctx, key, mapped, toks, at, count, st);
    forall n: nat | FailsAfter(ctx, key, mapped, toks, at, count, n, st) ensures n == 0 {
      FailsLater(ctx, key, mapped, toks, at, count, n, st);
    }
  }

  lemma {:induction false} FailsNow(ctx: Context, key: ScalarKind, mapped: ScalarKind, toks: seq<Token>, at: nat, count: nat, st: Status)
    requires at <= |toks| && count <= ctx.maxItems
    ensures FailsAfter(ctx, key, mapped, toks, at, count, 0, st) <==> EntryFault(ctx, key, mapped, toks, at, count, st)
  {
    hide EntryFault, EntryAtFits;
  }

  lemma {:induction false} FailsLater(ctx: Context, key: ScalarKind, mapped: ScalarKind, toks: seq<Token>, at: nat, count: nat, n: nat, st: Status)
    requires FailsAfter(ctx, key, mapped, toks, at, count, n, st)
    requires count < ctx.maxItems ==> !EntryAtFits(ctx, key, mapped, toks, at)
    ensures n == 0
  {
    hide EntryFault, EntryAtFits;
  }

  lemma {:induction false} KeyStops(ctx: Context, key: ScalarKind, mapped: ScalarKind, toks: seq<Token>, at: nat, entries: seq<(Value, Value)>, st: Status)
    requires at < |toks| && toks[at] != MapEnd && |entries| < ctx.maxItems && !Fit(ctx, key, toks[at])
    ensures ParseEntries(ctx, key, mapped, toks, at, entries) == Stopped(st) <==> EntryFault(ctx, key, mapped, toks, at, |entries|, st)
  {
    hide Admit, Fit, RefusedAs;
    RefusedExact(ctx, key, toks[at], st);
  }

  lemma {:induction false} EndStops(ctx: Context, key: ScalarKind, mapped: ScalarKind, toks: seq<Token>, at: nat, entries: seq<(Value, Value)>, st: Status)
    requires at < |toks| && toks[at] != MapEnd && |entries| < ctx.maxItems && Fit(ctx, key, toks[at]) && at + 1 == |toks|
    ensures ParseEntries(ctx, key, mapped, toks, at, entries) == Stopped(st) <==> EntryFault(ctx, key, mapped, toks, at, |entries|, st)
  {
    hide Admit, Fit, RefusedAs;
    RefusedExact(ctx, key, toks[at], st);
  }

  lemma {:induction false} ValueStops(ctx: Context, key: ScalarKind, mapped: ScalarKind, toks: seq<Token>, at: nat, entries: seq<(Value, Value)>, st: Status)
    requires at < |toks| && toks[at] != MapEnd && |entries| < ctx.maxItems && Fit(ctx, key, toks[at])
    requires at + 1 < |toks| && !Fit(ctx, mapped, toks[at + 1])
    ensures ParseEntries(ctx, key, mapped, toks, at, entries) == Stopped(st) <==> EntryFault(ctx, key, mapped, toks, at, |entries|, st)
  {
    hide Admit, Fit, RefusedAs;
    RefusedExact(ctx, key, toks[at], st);
    RefusedExact(ctx, mapped, toks[at + 1], st);
  }

  /** The fault at the end of the stream or of the map, or when the map is full. */
  lemma {:induction false} EntriesStop(ctx: Context, key: ScalarKind, mapped: ScalarKind, toks: seq<Token>, at: nat, entries: seq<(Value, Value)>, st: Status)
    requires at <= |toks| && |entries| <= ctx.maxItems
    requires at == |toks| || toks[at] == MapEnd || |entries| == ctx.maxItems
    ensures ParseEntries(ctx, key, mapped, toks, at, entries) == Stopped(st) <==> EntryFault(ctx, key, mapped, toks, at, |entries|, st)
  {
    hide Admit, Fit, RefusedAs;
  }

  lemma {:induction false} EntriesFailExact(ctx: Context, key: ScalarKind, mapped: ScalarKind, toks: seq<Token>, at: nat, entries: seq<(Value, Value)>, st: Status)
    requires at <= |toks| && |entries| <= ctx.maxItems
    ensures ParseEntries(ctx, key, mapped, toks, at, entries) == Stopped(st) <==> EntriesFail(ctx, key, mapped, toks, at, |entries|, st)
    decreases |toks| - at
  {
    hide Admit, Fit, EntriesFail, EntryFault, RefusedAs;
    if |entries| < ctx.maxItems && EntryAtFits(ctx, key, mapped, toks, at) {
      EndsNoItem(ctx, key);
      RefusedExact(ctx, key, toks[at], st);
      RefusedExact(ctx, mapped, toks[at + 1], st);
      var x := (Admit(ctx, key, toks[at]).value, Admit(ctx, mapped, toks[at + 1]).value);
      EntriesFailExact(ctx, key, mapped, toks, at + 2, entries + [x], st);
      EntriesFailMore(ctx, key, mapped, toks, at, |entries|, st);
    } else {
      EntriesFailHere(ctx, key, mapped, toks, at, |entries|, st);
      if at == |toks| || toks[at] == MapEnd || |entries| == ctx.maxItems {
        EntriesStop(ctx, key, mapped, toks, at, entries, st);
      } else if !Fit(ctx, key, toks[at]) {
        KeyStops(ctx, key, mapped, toks, at, entries, st);
      } else if at + 1 == |toks| {
        EndStops(ctx, key, mapped, toks, at, entries, st);
      } else {
        ValueStops(ctx, key, mapped, toks, at, entries, st);
      }
    }
  }

  // ----- structs and variants

  /** At `p` stands the name of field `k`, and an encoding of it ends at `q`. */
  ghost predicate FieldRead(ctx: Context, s: Shape, toks: seq<Token>, k: nat, p: nat, q: nat)
    requires s.Struct?
  {
    && k < |s.fields| && k < |s.names| && p < |toks| && IsString(toks[p], s.names[k])
    && Readable(ctx, s.fields[k], toks, p + 1, q)
  }

  ghost predicate Readable(ctx: Context, s: Shape, toks: seq<Token>, at: nat, next: nat) {
    exists v :: Reads(ctx, s, toks, at, v, next)
  }

  /** A value is read, and what follows it is not the end of the variant. */
  ghost predicate EndsWrong(ctx: Context, s: Shape, toks: seq<Token>, at: nat, st: Status) {
    exists next :: Readable(ctx, s, toks, at, next) && EndFault(toks, next, st)
  }

  /** Distinct fields, none of them in `seen`, stand one after the other. */
  ghost predicate FieldsRun(ctx: Context, s: Shape, toks: seq<Token>, at: nat, seen: set<nat>, order: seq<nat>, ends: seq<nat>)
    requires s.Struct?
  {
    && |ends| == |order| + 1 && ends[0] == at && ends[|order|] <= |toks|
    && (forall j :: 0 <= j < |order| ==> order[j] !in seen && FieldRead(ctx, s, toks, order[j], ends[j], ends[j + 1]))
    && (forall i, j :: 0 <= i < j < |order| ==> order[i] != order[j])
  }

  function Listed(order: seq<nat>): set<nat> {
    set k | k in order
  }

  /** The first fault of a stream that is to hold a value of the shape. */
  ghost predicate Fails(ctx: Context, s: Shape, toks: seq<Token>, at: nat, st: Status)
    decreases s, 1
  {
    && at <= |toks|
    && if at == |toks| then st == UnexpectedEnd
       else
         match s
         case Scalar(kind) => RefusedAs(ctx, kind, toks[at], st)
         case Container(LinearKind(element)) =>
           if toks[at] != ArrayBegin then st == TokenMismatch else ItemsFail(ctx, element, toks, at + 1, 0, st)
         case Container(MapKind(key, mapped)) =>
           if toks[at] != MapBegin then st == TokenMismatch else EntriesFail(ctx, key, mapped, toks, at + 1, 0, st)
         case Struct(names, fields) =>
           if toks[at] != MapBegin then st == TokenMismatch
           else
             exists order, ends ::
               FieldsRun(ctx, s, toks, at + 1, {}, order, ends) && FieldFault(ctx, s, toks, ends[|order|], Listed(order), st)
         case Variant(tag, tags, cases) =>
           if toks[at] != ArrayBegin then st == TokenMismatch
           else if at + 1 == |toks| then st == UnexpectedEnd
           else
             || TagRefusedAs(tag, toks[at + 1], st)
             || (exists n :: TagNames(tag, toks[at + 1], n) && n !in tags && st == ValueOutOfRange)
             || exists k :: 0 <= k < |tags| && k < |cases| && TagNames(tag, toks[at + 1], tags[k]) && tags[k] !in tags[..k]
                  && (Fails(ctx, cases[k], toks, at + 2, st) || EndsWrong(ctx, cases[k], toks, at + 2, st))
  }

  /** After the named fields the stream ends, or ends the struct too early, or has no name, or one
      of no field, or one of a field that was named before, or a field with a fault in it. */
  ghost predicate FieldFault(ctx: Context, s: Shape, toks: seq<Token>, p: nat, seen: set<nat>, st: Status)
    requires s.Struct? && p <= |toks|
    decreases s, 0
  {
    if p == |toks| then st == UnexpectedEnd
    else
      match toks[p]
      case MapEnd => st == MissingField && exists k :: 0 <= k < |s.fields| && k !in seen
      case StringToken(text, _) =>
        if text !in s.names then st == UnknownField
        else
          exists k :: 0 <= k < |s.names| && k < |s.fields| && s.names[k] == text
            && if k in seen then st == DuplicateField else Fails(ctx, s.fields[k], toks, p + 1, st)
      case _ => st == TokenMismatch
  }

  predicate EndFault(toks: seq<Token>, next: nat, st: Status) {
    if next >= |toks| then st == UnexpectedEnd else toks[next] != ArrayEnd && st == TokenMismatch
  }

  ghost predicate FieldsFail(ctx: Context, s: Shape, toks: seq<Token>, at: nat, seen: set<nat>, st: Status)
    requires s.Struct?
  {
    exists order, ends ::
      FieldsRun(ctx, s, toks, at, seen, order, ends) && FieldFault(ctx, s, toks, ends[|order|], seen + Listed(order), st)
  }

  /** With one field more in front. */
  lemma {:induction false} RunMore(ctx: Context, s: Shape, toks: seq<Token>, at: nat, seen: set<nat>, k: nat, q: nat, order: seq<nat>, ends: seq<nat>)
    requires s.Struct? && k !in seen && FieldRead(ctx, s, toks, k, at, q)
    requires FieldsRun(ctx, s, toks, q, seen + {k}, order, ends)
    ensures FieldsRun(ctx, s, toks, at, seen, [k] + order, [at] + ends)
    ensures seen + Listed([k] + order) == (seen + {k}) + Listed(order)
  {
    hide FieldRead;
    var all, at' := [k] + order, [at] + ends;
    forall j | 0 <= j < |all| ensures all[j] !in seen && FieldRead(ctx, s, toks, all[j], at'[j], at'[j + 1]) {
      if j > 0 {
        assert all[j] == order[j - 1] && at'[j] == ends[j - 1] && at'[j + 1] == ends[j - 1 + 1];
      }
    }
    forall i, j | 0 <= i < j < |all| ensures all[i] != all[j] {
      assert all[j] == order[j - 1];
    }
  }

  lemma {:induction false} RunLess(ctx: Context, s: Shape, toks: seq<Token>, at: nat, seen: set<nat>, order: seq<nat>, ends: seq<nat>)
    requires s.Struct? && FieldsRun(ctx, s, toks, at, seen, order, ends) && order != []
    ensures order[0] !in seen && FieldRead(ctx, s, toks, order[0], at, ends[1])
    ensures FieldsRun(ctx, s, toks, ends[1], seen + {order[0]}, order[1..], ends[1..])
    ensures seen + Listed(order) == (seen + {order[0]}) + Listed(order[1..])
  {
    hide FieldRead;
    var rest, ends' := order[1..], ends[1..];
    forall j | 0 <= j < |rest| ensures rest[j] !in seen + {order[0]} && FieldRead(ctx, s, toks, rest[j], ends'[j], ends'[j + 1]) {
      assert rest[j] == order[j + 1] && ends'[j] == ends[j + 1] && ends'[j + 1] == ends[j + 1 + 1];
    }
    assert order == [order[0]] + rest;
  }

  lemma {:induction false} SameField(ctx: Context, s: Shape, toks: seq<Token>, p: nat, k: nat, q: nat, k': nat, q': nat)
    requires WellFormed(s) && s.Struct? && FieldRead(ctx, s, toks, k, p, q) && FieldRead(ctx, s, toks, k', p, q')
    ensures k == k' && q == q'
  {
    hide Readable, Parse;
    ReadableExact(ctx, s.fields[k], toks, p + 1, q);
    ReadableExact(ctx, s.fields[k'], toks, p + 1, q');
  }

  /** The fault at a name, which belongs to one field only. */
  lemma {:induction false} NamedFault(ctx: Context, s: Shape, toks: seq<Token>, p: nat, seen: set<nat>, k: nat, st: Status)
    requires WellFormed(s) && s.Struct? && p < |toks| && k < |s.names| && IsString(toks[p], s.names[k])
    ensures FieldFault(ctx, s, toks, p, seen, st) <==> if k in seen then st == DuplicateField else Fails(ctx, s.fields[k], toks, p + 1, st)
  {
    hide Fails;
    assert s.names[k] in s.names;
  }

  /** A field without a fault in front of the others. */
  lemma {:induction false} FieldsFailMore(ctx: Context, s: Shape, toks: seq<Token>, at: nat, seen: set<nat>, k: nat, q: nat, st: Status)
    requires WellFormed(s) && s.Struct? && k !in seen && FieldRead(ctx, s, toks, k, at, q)
    requires k < |s.fields| && !Fails(ctx, s.fields[k], toks, at + 1, st)
    ensures FieldsFail(ctx, s, toks, at, seen, st) <==> FieldsFail(ctx, s, toks, q, seen + {k}, st)
  {
    hide FieldRead, FieldFault, Listed, WellFormed, Fails;
    ReadIsNamed(ctx, s, toks, k, at, q);
    if FieldsFail(ctx, s, toks, q, seen + {k}, st) {
      var order, ends :| FieldsRun(ctx, s, toks, q, seen + {k}, order, ends) && FieldFault(ctx, s, toks, ends[|order|], seen + {k} + Listed(order), st);
      RunMore(ctx, s, toks, at, seen, k, q, order, ends);
      RunEnds(ctx, s, toks, q, seen + {k}, order, ends);
      assert ([at] + ends)[|[k] + order|] == ends[|order|];
    }
    if FieldsFail(ctx, s, toks, at, seen, st) {
      var order, ends :| FieldsRun(ctx, s, toks, at, seen, order, ends) && FieldFault(ctx, s, toks, ends[|order|], seen + Listed(order), st);
      RunEnds(ctx, s, toks, at, seen, order, ends);
      if order == [] {
        NothingListed(seen, order);
        NamedFault(ctx, s, toks, at, seen, k, st);
      } else {
        RunLess(ctx, s, toks, at, seen, order, ends);
        SameField(ctx, s, toks, at, k, q, order[0], ends[1]);
        assert ends[1..][|order[1..]|] == ends[|order|];
      }
    }
  }

  lemma {:induction false} ReadIsNamed(ctx: Context, s: Shape, toks: seq<Token>, k: nat, p: nat, q: nat)
    requires s.Struct? && FieldRead(ctx, s, toks, k, p, q)
    ensures k < |s.fields| && k < |s.names| && p < |toks| && IsString(toks[p], s.names[k])
  {
    hide Readable;
  }

  lemma {:induction false} RunEnds(ctx: Context, s: Shape, toks: seq<Token>, at: nat, seen: set<nat>, order: seq<nat>, ends: seq<nat>)
    requires s.Struct? && FieldsRun(ctx, s, toks, at, seen, order, ends)
    ensures |ends| == |order| + 1 && ends[0] == at && ends[|order|] <= |toks|
  {
  }

  lemma {:induction false} NothingListed(seen: set<nat>, order: seq<nat>)
    requires order == []
    ensures seen + Listed(order) == seen
  {
  }

  /** No field can be read here: the fault is here or nowhere. */
  lemma {:induction false} FieldsFailHere(ctx: Context, s: Shape, toks: seq<Token>, at: nat, seen: set<nat>, st: Status)
    requires s.Struct? && at <= |toks|
    requires forall k: nat, q: nat :: k !in seen ==> !FieldRead(ctx, s, toks, k, at, q)
    ensures FieldsFail(ctx, s, toks, at, seen, st) <==> FieldFault(ctx, s, toks, at, seen, st)
  {
    hide FieldRead, FieldFault, Listed;
    NothingListed(seen, []);
    if FieldFault(ctx, s, toks, at, seen, st) {
      var none: seq<nat> := [];
      assert FieldsRun(ctx, s, toks, at, seen, none, [at]) && [at][|none|] == at;
    }
    if FieldsFail(ctx, s, toks, at, seen, st) {
      var order, ends :| FieldsRun(ctx, s, toks, at, seen, order, ends) && FieldFault(ctx, s, toks, ends[|order|], seen + Listed(order), st);
      if order != [] {
        assert order[0] !in seen && FieldRead(ctx, s, toks, order[0], ends[0], ends[0 + 1]);
      }
    }
  }

  /** The token at `at` does not begin a field that could be read. */
  lemma {:induction false} NoFieldHere(ctx: Context, s: Shape, toks: seq<Token>, at: nat, seen: set<nat>)
    requires WellFormed(s) && s.Struct? && at <= |toks|
    requires at < |toks| && toks[at].StringToken? && FirstIndex(s.names, toks[at].text, 0).Some? ==>
               var k := FirstIndex(s.names, toks[at].text, 0).value;
               k in seen || Parse(ctx, s.fields[k], toks, at + 1).Stopped?
    ensures forall k: nat, q: nat :: k !in seen ==> !FieldRead(ctx, s, toks, k, at, q)
  {
    hide Parse, Readable;
    forall k: nat, q: nat | k !in seen ensures !FieldRead(ctx, s, toks, k, at, q) {
      if FieldRead(ctx, s, toks, k, at, q) {
        ReadableExact(ctx, s.fields[k], toks, at + 1, q);
      }
    }
  }

  lemma {:induction false} ParsedIsRead(ctx: Context, s: Shape, toks: seq<Token>, at: nat, k: nat)
    requires WellFormed(s) && s.Struct? && at < |toks| && k < |s.fields| && IsString(toks[at], s.names[k])
    requires Parse(ctx, s.fields[k], toks, at + 1).Parsed?
    ensures FieldRead(ctx, s, toks, k, at, Parse(ctx, s.fields[k], toks, at + 1).next)
  {
    hide Parse, Readable;
    ReadableExact(ctx, s.fields[k], toks, at + 1, Parse(ctx, s.fields[k], toks, at + 1).next);
  }

  lemma {:induction false} FieldsFailExact(ctx: Context, s: Shape, toks: seq<Token>, at: nat, seen: set<nat>, values: seq<Value>, st: Status)
    requires at <= |toks| && s.Struct? && WellFormed(s) && |values| == |s.fields|
    ensures ParseFields(ctx, s, toks, at, seen, values) == Stopped(st) <==> FieldsFail(ctx, s, toks, at, seen, st)
    decreases s, |toks| - at
  {
    hide Parse, Fails, FieldsFail, FieldRead;
    if at < |toks| && toks[at].StringToken? && FirstIndex(s.names, toks[at].text, 0).Some?
       && FirstIndex(s.names, toks[at].text, 0).value !in seen
    {
      var k := FirstIndex(s.names, toks[at].text, 0).value;
      var r := Parse(ctx, s.fields[k], toks, at + 1);
      FailsExact(ctx, s.fields[k], toks, at + 1, st);
      if r.Parsed? {
        ParsedIsRead(ctx, s, toks, at, k);
        FieldsFailMore(ctx, s, toks, at, seen, k, r.next, st);
        FieldsFailExact(ctx, s, toks, r.next, seen + {k}, values[k := r.value], st);
      } else {
        NoFieldHere(ctx, s, toks, at, seen);
        FieldsFailHere(ctx, s, toks, at, seen, st);
        NamedFault(ctx, s, toks, at, seen, k, st);
      }
    } else {
      NoFieldHere(ctx, s, toks, at, seen);
      FieldsFailHere(ctx, s, toks, at, seen, st);
      FaultHere(ctx, s, toks, at, seen, values, st);
    }
  }

  lemma {:induction false} FaultHere(ctx: Context, s: Shape, toks: seq<Token>, at: nat, seen: set<nat>, values: seq<Value>, st: Status)
    requires at <= |toks| && s.Struct? && WellFormed(s) && |values| == |s.fields|
    requires at < |toks| && toks[at].StringToken? && FirstIndex(s.names, toks[at].text, 0).Some? ==>
               FirstIndex(s.names, toks[at].text, 0).value in seen
    ensures ParseFields(ctx, s, toks, at, seen, values) == Stopped(st) <==> FieldFault(ctx, s, toks, at, seen, st)
  {
    hide Fails, Parse;
    if at < |toks| && toks[at].StringToken? && FirstIndex(s.names, toks[at].text, 0).Some? {
      NamedFault(ctx, s, toks, at, seen, FirstIndex(s.names, toks[at].text, 0).value, st);
    }
  }

  /** The fault of a variant whose tag was read as that of case `k`. */
  lemma {:induction false} CaseFault(ctx: Context, s: Shape, toks: seq<Token>, at: nat, k: nat, st: Status)
    requires s.Variant? && WellFormed(s) && at + 1 < |toks| && toks[at] == ArrayBegin && k < |s.cases|
    requires AdmitTag(s.tag, toks[at + 1]) == Admitted(s.tags[k]) && s.tags[k] !in s.tags[..k]
    ensures Fails(ctx, s, toks, at, st) <==>
              Fails(ctx, s.cases[k], toks, at + 2, st) || EndsWrong(ctx, s.cases[k], toks, at + 2, st)
  {
    hide EndsWrong, TagNames, AdmitTag;
    var tok := toks[at + 1];
    TagRefusedExact(s.tag, tok, st);
    forall n: int ensures TagNames(s.tag, tok, n) <==> n == s.tags[k] {
      AdmitTagExact(s.tag, tok, n);
    }
    forall j | 0 <= j < |s.tags| && s.tags[j] == s.tags[k] && s.tags[j] !in s.tags[..j] ensures j == k {
      OneFirst(s.tags, j, k);
    }
  }

  lemma {:induction false} OneFirst(tags: seq<int>, j: nat, k: nat)
    requires j < |tags| && k < |tags| && tags[j] == tags[k] && tags[j] !in tags[..j] && tags[k] !in tags[..k]
    ensures j == k
  {
    assert forall i: nat :: i < j ==> tags[..j][i] == tags[i];
    assert forall i: nat :: i < k ==> tags[..k][i] == tags[i];
  }

  lemma {:induction false} TagFault(ctx: Context, s: Shape, toks: seq<Token>, at: nat, st: Status)
    requires s.Variant? && WellFormed(s) && at + 1 < |toks| && toks[at] == ArrayBegin
    requires var a := AdmitTag(s.tag, toks[at + 1]); a.Refused? || a.value !in s.tags
    ensures var a := AdmitTag(s.tag, toks[at + 1]);
            Fails(ctx, s, toks, at, st) <==> st == if a.Refused? then a.status else ValueOutOfRange
  {
    hide EndsWrong, TagNames, AdmitTag, TagRefusedAs;
    var tok := toks[at + 1];
    var a := AdmitTag(s.tag, tok);
    TagRefusedExact(s.tag, tok, st);
    forall n: int ensures TagNames(s.tag, tok, n) <==> a == Admitted(n) {
      AdmitTagExact(s.tag, tok, n);
    }
    if a.Admitted? {
      assert TagNames(s.tag, tok, a.value) && !TagRefusedAs(s.tag, tok, st);
    }
  }

  lemma {:induction false} CaseEnds(ctx: Context, s: Shape, toks: seq<Token>, at: nat, st: Status)
    requires at <= |toks| && WellFormed(s)
    ensures var r := Parse(ctx, s, toks, at); EndsWrong(ctx, s, toks, at, st) <==> r.Parsed? && EndFault(toks, r.next, st)
  {
    hide Parse, Readable, EndFault;
    var r := Parse(ctx, s, toks, at);
    forall next: nat ensures Readable(ctx, s, toks, at, next) <==> r.Parsed? && r.next == next {
      ReadableExact(ctx, s, toks, at, next);
    }
  }

  lemma {:induction false} ReadableExact(ctx: Context, s: Shape, toks: seq<Token>, at: nat, next: nat)
    requires at <= |toks| && WellFormed(s)
    ensures var r := Parse(ctx, s, toks, at); Readable(ctx, s, toks, at, next) <==> r.Parsed? && r.next == next
  {
    hide Parse, Reads;
    var r := Parse(ctx, s, toks, at);
    if r.Parsed? {
      ParseExact(ctx, s, toks, at, r.value, r.next);
    }
    forall v | Reads(ctx, s, toks, at, v, next) ensures r == Parsed(v, next) {
      ParseExact(ctx, s, toks, at, v, next);
    }
  }

  lemma {:induction false} VariantFails(ctx: Context, s: Shape, toks: seq<Token>, at: nat, st: Status)
    requires s.Variant? && WellFormed(s) && at + 1 < |toks| && toks[at] == ArrayBegin
    ensures Parse(ctx, s, toks, at) == Stopped(st) <==> Fails(ctx, s, toks, at, st)
    decreases s, |toks| - at, 0
  {
    hide AdmitTag, Fails, EndsWrong;
    var a := AdmitTag(s.tag, toks[at + 1]);
    if a.Refused? || a.value !in s.tags {
      TagFault(ctx, s, toks, at, st);
    } else {
      var k := FirstIndex(s.tags, a.value, 0).value;
      assert s.tags[k] !in s.tags[..k];
      CaseFault(ctx, s, toks, at, k, st);
      CaseEnds(ctx, s.cases[k], toks, at + 2, st);
      FailsExact(ctx, s.cases[k], toks, at + 2, st);
    }
  }

  /** Main result: reading stops with a status exactly when that is the status of the stream's
      first fault. */
  lemma {:induction false} FailsExact(ctx: Context, s: Shape, toks: seq<Token>, at: nat, st: Status)
    requires at <= |toks| && WellFormed(s)
    ensures Parse(ctx, s, toks, at) == Stopped(st) <==> Fails(ctx, s, toks, at, st)
    decreases s, |toks| - at, 1
  {
    hide Admit, AdmitTag, ParseItems, ParseEntries, ParseFields, RefusedAs, ItemsFail, EntriesFail, FieldFault, FieldsRun, TagRefusedAs, TagNames, EndsWrong;
    if at < |toks| {
      match s
      case Scalar(kind) => RefusedExact(ctx, kind, toks[at], st);
      case Container(LinearKind(element)) =>
        if toks[at] == ArrayBegin {
          ItemsFailExact(ctx, element, toks, at + 1, [], st);
        }
      case Container(MapKind(key, mapped)) =>
        if toks[at] == MapBegin {
          EntriesFailExact(ctx, key, mapped, toks, at + 1, [], st);
        }
      case Struct(names, fields) =>
        if toks[at] == MapBegin {
          StructFails(ctx, s, toks, at, st);
          FieldsFailExact(ctx, s, toks, at + 1, {}, seq(|fields|, i requires 0 <= i < |fields| => Prepared(fields[i])), st);
        }
      case Variant(tag, tags, cases) =>
        if toks[at] == ArrayBegin && at + 1 < |toks| {
          VariantFails(ctx, s, toks, at, st);
        }
    }
  }

  lemma {:induction false} StructFails(ctx: Context, s: Shape, toks: seq<Token>, at: nat, st: Status)
    requires s.Struct? && at < |toks| && toks[at] == MapBegin
    ensures Fails(ctx, s, toks, at, st) <==> FieldsFail(ctx, s, toks, at + 1, {}, st)
  {
    hide FieldFault, FieldsRun, Listed;
    forall order ensures {} + Listed(order) == Listed(order) {
    }
  }

  /** Every stream either begins with an encoding of a value of the shape or has a first fault,
      and never both, nor two faults. */
  lemma {:induction false} ReadOrFault(ctx: Context, s: Shape, toks: seq<Token>, at: nat)
    requires at <= |toks| && WellFormed(s)
    ensures (exists v, next :: Reads(ctx, s, toks, at, v, next)) <==> !(exists st :: Fails(ctx, s, toks, at, st))
    ensures forall a, b :: Fails(ctx, s, toks, at, a) && Fails(ctx, s, toks, at, b) ==> a == b
  {
    hide Parse, Reads, Fails;
    var r := Parse(ctx, s, toks, at);
    if r.Parsed? {
      ParseExact(ctx, s, toks, at, r.value, r.next);
    } else {
      FailsExact(ctx, s, toks, at, r.status);
    }
    forall v, next | Reads(ctx, s, toks, at, v, next) ensures r == Parsed(v, next) {
      ParseExact(ctx, s, toks, at, v, next);
    }
    forall st | Fails(ctx, s, toks, at, st) ensures r == Stopped(st) {
      FailsExact(ctx, s, toks, at, st);
    }
  }
}
