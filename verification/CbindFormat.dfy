/** What a token stream says about a value of a given shape: a declarative relation between
token sequences and values, the decoder's reading of a stream as a function, and the theorem
that the two agree. */
module CbindFormat {
  import opened Basics
  import opened CbindScalar
  import opened CbindShape

  /** `Unset` and `Bound` are the states of storage that holds no value yet: zero, and zero but
      for the element types of a container. */
  datatype Value =
    | BoolVal(flag: bool)
    | IntVal(number: int)
    | FloatVal(floating: Floating)
    | EnumVal(item: int)
    | BytesVal(bytes: string)
    | SeqVal(items: seq<Value>)
    | MapVal(entries: seq<(Value, Value)>)
    | RecordVal(fields: seq<Value>)
    | CaseVal(index: nat, payload: Value)
    | Unset
    | Bound

  /** The caller's limits, and the platform's conversion of double to float. */
  datatype Context = Context(maxBytes: nat, maxItems: nat, narrow: Floating -> Floating)

  // ----- scalars

  function FirstIndex<T(==)>(xs: seq<T>, x: T, from: nat): (r: Option<nat>)
    requires from <= |xs|
    ensures r.Some? ==> from <= r.value < |xs| && xs[r.value] == x && forall i :: from <= i < r.value ==> xs[i] != x
    ensures r.None? ==> forall i :: from <= i < |xs| ==> xs[i] != x
    decreases |xs| - from
  {
    if from == |xs| then None else if xs[from] == x then Some(from) else FirstIndex(xs, x, from + 1)
  }

  const FLT_MAX: real := ((Pow2(24) - 1) * Pow2(104)) as real

  /** The largest single: 24 significant bits, one unit of its last place below `2^128`. */
  lemma {:induction false} LargestSingle()
    ensures FLT_MAX + Pow2(104) as real == Pow2(128) as real
  {
    hide Pow2;
    Pow2Add(24, 104);
    assert (Pow2(24) - 1) * Pow2(104) + Pow2(104) == Pow2(24) * Pow2(104);
  }

  function AdmitFloating(narrow: Floating -> Floating, single: bool, t: Token): (r: Admission<Floating>)
    ensures r.Refused? ==> !r.status.Ok?
  {
    var precision := if single then 24 else 53;
    match t
    case FloatToken(f) =>
      if !single then Admitted(f)
      else if f.Finite? && (f.r > FLT_MAX || f.r < 0.0 - FLT_MAX) then Refused(ValueOutOfRange)
      else if f.Finite? && f.r != 0.0 && narrow(f) == Finite(0.0) then Refused(ValueOutOfRange)
      else Admitted(narrow(f))
    case SintToken(n) =>
      if !ExactInBinarySpec(if n >= 0 then n else -(n + 1) + 1, precision) then Refused(ValueOutOfRange)
      else Admitted(Finite(n as real))
    case UintToken(n) =>
      if !ExactInBinarySpec(n, precision) then Refused(ValueOutOfRange) else Admitted(Finite(n as real))
    case _ => Refused(TokenMismatch)
  }

  function FirstNamed(items: seq<EnumItem>, text: string): Option<int> {
    if items == [] then None
    else if items[0].text == text || items[0].symbol == text then Some(items[0].value)
    else FirstNamed(items[1..], text)
  }

  /** The integer of a tag token, which is never a floating one. */
  function AdmitTag(tag: TagKind, t: Token): (r: Admission<int>)
    ensures r.Refused? ==> !r.status.Ok?
  {
    match t
    case StringToken(text, _) =>
      if !tag.EnumTag? then Refused(TokenMismatch)
      else (match FirstNamed(tag.items, text)
            case Some(n) => Admitted(n)
            case None => Refused(ValueOutOfRange))
    case SintToken(n) => if TagValid(tag, n) then Admitted(n) else Refused(ValueOutOfRange)
    case UintToken(n) =>
      if n > INT64_MAX then Refused(ValueOutOfRange)
      else if TagValid(tag, n) then Admitted(n) else Refused(ValueOutOfRange)
    case _ => Refused(TokenMismatch)
  }

  function AdmitBuffer(maxBytes: nat, borrowed: bool, content: string, stable: bool): (r: Admission<Value>)
    ensures r.Refused? ==> !r.status.Ok?
  {
    if borrowed && !stable then Refused(Unsupported)
    else if |content| > maxBytes then Refused(LimitExceeded)
    else Admitted(BytesVal(content))
  }

  /** What one token stores in scalar storage. */
  function Admit(ctx: Context, kind: ScalarKind, t: Token): (r: Admission<Value>)
    ensures r.Refused? ==> !r.status.Ok?
  {
    match kind
    case BoolKind => if t.BoolToken? then Admitted(BoolVal(t.flag)) else Refused(TokenMismatch)
    case SintKind(bits) =>
      (match AdmitSigned(bits, t) case Admitted(n) => Admitted(IntVal(n)) case Refused(e) => Refused(e))
    case UintKind(bits) =>
      (match AdmitUnsigned(bits, t) case Admitted(n) => Admitted(IntVal(n)) case Refused(e) => Refused(e))
    case FloatKind(single) =>
      (match AdmitFloating(ctx.narrow, single, t) case Admitted(f) => Admitted(FloatVal(f)) case Refused(e) => Refused(e))
    case EnumKind(items) =>
      (match AdmitTag(EnumTag(items), t) case Admitted(n) => Admitted(EnumVal(n)) case Refused(e) => Refused(e))
    case TextKind(borrowed) =>
      if t.StringToken? then AdmitBuffer(ctx.maxBytes, borrowed, t.text, t.stable) else Refused(TokenMismatch)
    case BytesKind(borrowed) =>
      if t.BytesToken? then AdmitBuffer(ctx.maxBytes, borrowed, t.bytes, t.stable) else Refused(TokenMismatch)
  }

  // ----- what a token says about a scalar

  /** The value of the first item with this text or symbol. */
  ghost predicate NamesItem(items: seq<EnumItem>, text: string, n: int) {
    exists k :: 0 <= k < |items| && FirstCalled(items, text, k) && items[k].value == n
  }

  predicate Called(item: EnumItem, text: string) {
    item.text == text || item.symbol == text
  }

  predicate FirstCalled(items: seq<EnumItem>, text: string, k: nat)
    requires k < |items|
  {
    Called(items[k], text) && forall j :: 0 <= j < k ==> !Called(items[j], text)
  }

  /** The number of an integer token that is a signed 64-bit number. */
  function PlainInt(t: Token): Option<int> {
    match t
    case SintToken(n) => Some(n)
    case UintToken(n) => if n <= INT64_MAX then Some(n) else None
    case _ => None
  }

  /** The token names tag `n`. */
  ghost predicate TagNames(tag: TagKind, t: Token, n: int) {
    match tag
    case EnumTag(items) =>
      if t.StringToken? then NamesItem(items, t.text, n)
      else PlainInt(t) == Some(n) && exists k :: 0 <= k < |items| && items[k].value == n
    case SintTag(bits) => PlainInt(t) == Some(n) && 0 - Pow2(bits - 1) <= n < Pow2(bits - 1)
    case UintTag(bits) => PlainInt(t) == Some(n) && 0 <= n < Pow2(bits)
  }

  function Magnitude(n: int): nat {
    if n < 0 then -n else n
  }

  /** A floating target takes a floating token as it is, or narrowed when that neither overflows
      nor loses a number to zero; and an integer exactly when it can represent it. */
  ghost predicate StoresFloating(narrow: Floating -> Floating, single: bool, t: Token, f: Floating) {
    match t
    case FloatToken(g) =>
      if !single then f == g
      else
        && f == narrow(g)
        && (g.Finite? ==> 0.0 - FLT_MAX <= g.r <= FLT_MAX && (g.r == 0.0 || narrow(g) != Finite(0.0)))
    case SintToken(n) => f == Finite(n as real) && Representable(Magnitude(n), if single then 24 else 53)
    case UintToken(n) => f == Finite(n as real) && Representable(n, if single then 24 else 53)
    case _ => false
  }

  /** The token says that scalar storage of this kind holds `v`. */
  ghost predicate Stores(ctx: Context, kind: ScalarKind, t: Token, v: Value) {
    match kind
    case BoolKind => t.BoolToken? && v == BoolVal(t.flag)
    case SintKind(bits) =>
      v.IntVal? && TokenInt(t) == Some(v.number) && 0 - Pow2(bits - 1) <= v.number < Pow2(bits - 1)
    case UintKind(bits) => v.IntVal? && TokenInt(t) == Some(v.number) && 0 <= v.number < Pow2(bits)
    case FloatKind(single) => v.FloatVal? && StoresFloating(ctx.narrow, single, t, v.floating)
    case EnumKind(items) => v.EnumVal? && TagNames(EnumTag(items), t, v.item)
    case TextKind(borrowed) =>
      t.StringToken? && v == BytesVal(t.text) && |t.text| <= ctx.maxBytes && (borrowed ==> t.stable)
    case BytesKind(borrowed) =>
      t.BytesToken? && v == BytesVal(t.bytes) && |t.bytes| <= ctx.maxBytes && (borrowed ==> t.stable)
  }

  lemma {:induction false} FirstNamedExact(items: seq<EnumItem>, text: string, n: int)
    ensures FirstNamed(items, text) == Some(n) <==> NamesItem(items, text, n)
  {
    if items != [] && !Called(items[0], text) {
      var rest := items[1..];
      FirstNamedExact(rest, text, n);
      if NamesItem(rest, text, n) {
        var k :| 0 <= k < |rest| && FirstCalled(rest, text, k) && rest[k].value == n;
        assert FirstCalled(items, text, k + 1) by {
          forall j | 0 <= j < k + 1 ensures !Called(items[j], text) {
            assert j > 0 ==> items[j] == rest[j - 1];
          }
        }
      }
      if NamesItem(items, text, n) {
        var k :| 0 <= k < |items| && FirstCalled(items, text, k) && items[k].value == n;
        assert FirstCalled(rest, text, k - 1) by {
          forall j | 0 <= j < k - 1 ensures !Called(rest[j], text) {
            assert rest[j] == items[j + 1];
          }
        }
      }
    } else if items != [] {
      assert FirstCalled(items, text, 0);
    }
  }

  /** Tags are admitted exactly as named. */
  lemma {:induction false} AdmitTagExact(tag: TagKind, t: Token, n: int)
    ensures AdmitTag(tag, t) == Admitted(n) <==> TagNames(tag, t, n)
  {
    hide Pow2, FirstNamed, NamesItem;
    Pow2Values();
    if t.StringToken? && tag.EnumTag? {
      FirstNamedExact(tag.items, t.text, n);
    }
  }

  lemma {:induction false} AdmitFloatingExact(narrow: Floating -> Floating, single: bool, t: Token, f: Floating)
    ensures AdmitFloating(narrow, single, t) == Admitted(f) <==> StoresFloating(narrow, single, t, f)
  {
    hide Representable, ExactInBinarySpec, Pow2;
    var precision := if single then 24 else 53;
    match t
    case SintToken(n) => ExactMeansRepresentable(Magnitude(n), precision);
    case UintToken(n) => ExactMeansRepresentable(n, precision);
    case _ =>
  }

  /** Scalar storage admits a token with a value exactly when the token says so. */
  lemma {:induction false} AdmitExact(ctx: Context, kind: ScalarKind, t: Token, v: Value)
    ensures Admit(ctx, kind, t) == Admitted(v) <==> Stores(ctx, kind, t, v)
  {
    hide AdmitSigned, AdmitUnsigned, AdmitFloating, AdmitTag, StoresFloating, TagNames, Pow2, TokenInt;
    match kind
    case SintKind(bits) =>
      if v.IntVal? {
        SignedExact(bits, t, v.number);
      }
    case UintKind(bits) =>
      if v.IntVal? {
        UnsignedExact(bits, t, v.number);
      }
    case FloatKind(single) =>
      if v.FloatVal? {
        AdmitFloatingExact(ctx.narrow, single, t, v.floating);
      }
    case EnumKind(items) =>
      if v.EnumVal? {
        AdmitTagExact(EnumTag(items), t, v.item);
      }
    case _ =>
  }

  lemma {:induction false} AdmitsAsStored(ctx: Context)
    ensures forall kind, t, v :: Stores(ctx, kind, t, v) <==> Admit(ctx, kind, t) == Admitted(v)
    ensures forall tag, t, n :: TagNames(tag, t, n) <==> AdmitTag(tag, t) == Admitted(n)
  {
    hide Stores, Admit, TagNames, AdmitTag;
    forall kind, t, v ensures Stores(ctx, kind, t, v) <==> Admit(ctx, kind, t) == Admitted(v) {
      AdmitExact(ctx, kind, t, v);
    }
    forall tag, t, n ensures TagNames(tag, t, n) <==> AdmitTag(tag, t) == Admitted(n) {
      AdmitTagExact(tag, t, n);
    }
  }

  // ----- which token sequences encode which values

  predicate IsString(t: Token, text: string) {
    t.StringToken? && t.text == text
  }

  function Concat(chunks: seq<seq<Token>>): seq<Token> {
    if chunks == [] then [] else chunks[0] + Concat(chunks[1..])
  }

  /** `order` lists every field that is not in `seen`, each once. */
  predicate ListsOthers(n: nat, seen: set<nat>, order: seq<nat>) {
    && (forall j :: 0 <= j < |order| ==> order[j] < n && order[j] !in seen)
    && (forall i, j :: 0 <= i < j < |order| ==> order[i] != order[j])
    && (forall k :: 0 <= k < n ==> k in seen || k in order)
  }

  ghost predicate Encodes(ctx: Context, s: Shape, ts: seq<Token>, v: Value)
    decreases s, 1
  {
    match s
    case Scalar(kind) => |ts| == 1 && Stores(ctx, kind, ts[0], v)
    case Container(LinearKind(element)) =>
      && |ts| >= 2 && ts[0] == ArrayBegin && ts[|ts| - 1] == ArrayEnd
      && v.SeqVal? && |v.items| == |ts| - 2 <= ctx.maxItems
      && forall i :: 0 <= i < |v.items| ==> Stores(ctx, element, ts[i + 1], v.items[i])
    case Container(MapKind(key, mapped)) =>
      && |ts| >= 2 && ts[0] == MapBegin && ts[|ts| - 1] == MapEnd
      && v.MapVal? && |v.entries| <= ctx.maxItems && 2 * |v.entries| == |ts| - 2
      && forall i :: 0 <= i < |v.entries| ==>
           && Stores(ctx, key, ts[2 * i + 1], v.entries[i].0)
           && Stores(ctx, mapped, ts[2 * i + 2], v.entries[i].1)
    case Struct(names, fields) =>
      exists order, chunks :: EncodesOthers(ctx, s, {}, order, chunks, v) && ts == [MapBegin] + Concat(chunks) + [MapEnd]
    case Variant(tag, tags, cases) =>
      && |ts| >= 3 && ts[0] == ArrayBegin && ts[|ts| - 1] == ArrayEnd
      && v.CaseVal? && v.index < |tags| && v.index < |cases|
      && TagNames(tag, ts[1], tags[v.index]) && tags[v.index] !in tags[..v.index]
      && Encodes(ctx, cases[v.index], ts[2..|ts| - 1], v.payload)
  }

  /** The chunks are a key and an encoding for each field that is not in `seen`, in any order. */
  ghost predicate EncodesOthers(ctx: Context, s: Shape, seen: set<nat>, order: seq<nat>, chunks: seq<seq<Token>>, v: Value)
    requires s.Struct?
    decreases s, 0
  {
    && v.RecordVal? && |v.fields| == |s.fields| == |s.names|
    && ListsOthers(|s.fields|, seen, order) && |chunks| == |order|
    && forall j :: 0 <= j < |order| ==>
         && |chunks[j]| > 0 && IsString(chunks[j][0], s.names[order[j]])
         && Encodes(ctx, s.fields[order[j]], chunks[j][1..], v.fields[order[j]])
  }

  // ----- reading a stream

  datatype Parsed = Parsed(value: Value, next: nat) | Stopped(status: Status)

  function Parse(ctx: Context, s: Shape, toks: seq<Token>, at: nat): (r: Parsed)
    requires at <= |toks| && WellFormed(s)
    ensures if r.Parsed? then at < r.next <= |toks| else !r.status.Ok?
    decreases s, |toks| - at
  {
    if at == |toks| then Stopped(UnexpectedEnd)
    else
      match s
      case Scalar(kind) =>
        (match Admit(ctx, kind, toks[at])
         case Admitted(v) => Parsed(v, at + 1)
         case Refused(status) => Stopped(status))
      case Container(LinearKind(element)) =>
        if toks[at] != ArrayBegin then Stopped(TokenMismatch) else ParseItems(ctx, element, toks, at + 1, [])
      case Container(MapKind(key, mapped)) =>
        if toks[at] != MapBegin then Stopped(TokenMismatch) else ParseEntries(ctx, key, mapped, toks, at + 1, [])
      case Struct(names, fields) =>
        if toks[at] != MapBegin then Stopped(TokenMismatch)
        else ParseFields(ctx, s, toks, at + 1, {}, seq(|fields|, i requires 0 <= i < |fields| => Prepared(fields[i])))
      case Variant(tag, tags, cases) =>
        if toks[at] != ArrayBegin then Stopped(TokenMismatch)
        else if at + 1 == |toks| then Stopped(UnexpectedEnd)
        else
          match AdmitTag(tag, toks[at + 1])
          case Refused(status) => Stopped(status)
          case Admitted(n) =>
            match FirstIndex(tags, n, 0)
            case None => Stopped(ValueOutOfRange)
            case Some(k) =>
              match Parse(ctx, cases[k], toks, at + 2)
              case Stopped(status) => Stopped(status)
              case Parsed(v, next) =>
                if next == |toks| then Stopped(UnexpectedEnd)
                else if toks[next] != ArrayEnd then Stopped(TokenMismatch)
                else Parsed(CaseVal(k, v), next + 1)
  }

  function ParseFields(ctx: Context, s: Shape, toks: seq<Token>, at: nat, seen: set<nat>, values: seq<Value>): (r: Parsed)
    requires at <= |toks| && s.Struct? && WellFormed(s)
    requires |values| == |s.fields|
    ensures if r.Parsed? then at < r.next <= |toks| else !r.status.Ok?
    decreases s, |toks| - at
  {
    if at == |toks| then Stopped(UnexpectedEnd)
    else if toks[at] == MapEnd then
      if forall k :: 0 <= k < |s.fields| ==> k in seen then Parsed(RecordVal(values), at + 1) else Stopped(MissingField)
    else if !toks[at].StringToken? then Stopped(TokenMismatch)
    else
      match FirstIndex(s.names, toks[at].text, 0)
      case None => Stopped(UnknownField)
      case Some(k) =>
        if k in seen then Stopped(DuplicateField)
        else
          match Parse(ctx, s.fields[k], toks, at + 1)
          case Stopped(status) => Stopped(status)
          case Parsed(v, next) => ParseFields(ctx, s, toks, next, seen + {k}, values[k := v])
  }

  function ParseItems(ctx: Context, element: ScalarKind, toks: seq<Token>, at: nat, items: seq<Value>): (r: Parsed)
    requires at <= |toks|
    ensures if r.Parsed? then at < r.next <= |toks| else !r.status.Ok?
    decreases |toks| - at
  {
    if at == |toks| then Stopped(UnexpectedEnd)
    else if toks[at] == ArrayEnd then Parsed(SeqVal(items), at + 1)
    else if |items| >= ctx.maxItems then Stopped(LimitExceeded)
    else
      match Admit(ctx, element, toks[at])
      case Refused(status) => Stopped(status)
      case Admitted(v) => ParseItems(ctx, element, toks, at + 1, items + [v])
  }

  function ParseEntries(ctx: Context, key: ScalarKind, mapped: ScalarKind, toks: seq<Token>, at: nat, entries: seq<(Value, Value)>): (r: Parsed)
    requires at <= |toks|
    ensures if r.Parsed? then at < r.next <= |toks| else !r.status.Ok?
    decreases |toks| - at
  {
    if at == |toks| then Stopped(UnexpectedEnd)
    else if toks[at] == MapEnd then Parsed(MapVal(entries), at + 1)
    else if |entries| >= ctx.maxItems then Stopped(LimitExceeded)
    else
      match Admit(ctx, key, toks[at])
      case Refused(status) => Stopped(status)
      case Admitted(k) =>
        if at + 1 == |toks| then Stopped(UnexpectedEnd)
        else
          match Admit(ctx, mapped, toks[at + 1])
          case Refused(status) => Stopped(status)
          case Admitted(v) => ParseEntries(ctx, key, mapped, toks, at + 2, entries + [(k, v)])
  }

  // ----- empty storage

  /** Zeroed storage. */
  function Zero(s: Shape): Value {
    match s
    case Scalar(BoolKind) => BoolVal(false)
    case Scalar(SintKind(_)) => IntVal(0)
    case Scalar(UintKind(_)) => IntVal(0)
    case Scalar(FloatKind(_)) => FloatVal(Finite(0.0))
    case Struct(_, fields) => RecordVal(seq(|fields|, i requires 0 <= i < |fields| => Zero(fields[i])))
    case _ => Unset
  }

  /** Zeroed storage whose containers, unless inside a variant, know their element types. */
  function Prepared(s: Shape): Value {
    match s
    case Container(_) => Bound
    case Struct(_, fields) => RecordVal(seq(|fields|, i requires 0 <= i < |fields| => Prepared(fields[i])))
    case _ => Zero(s)
  }

  // ----- the stream is read exactly

  /** The tokens from `at` to `next` encode `v`. */
  ghost predicate Reads(ctx: Context, s: Shape, toks: seq<Token>, at: nat, v: Value, next: nat) {
    at <= next <= |toks| && Encodes(ctx, s, toks[at..next], v)
  }

  lemma {:induction false} NotAdmitted(ctx: Context, kind: ScalarKind)
    ensures Admit(ctx, kind, ArrayEnd).Refused? && Admit(ctx, kind, MapEnd).Refused?
  {
  }

  ghost predicate ItemsFrom(ctx: Context, element: ScalarKind, toks: seq<Token>, at: nat, items: seq<Value>, v: Value, next: nat) {
    && at < next <= |toks| && toks[next - 1] == ArrayEnd
    && v.SeqVal? && items <= v.items && |v.items| == |items| + (next - 1 - at) <= ctx.maxItems
    && forall i :: at <= i < next - 1 ==> Admit(ctx, element, toks[i]) == Admitted(v.items[|items| + i - at])
  }

  lemma {:induction false} ItemsEnd(ctx: Context, element: ScalarKind, toks: seq<Token>, at: nat, items: seq<Value>, v: Value, next: nat)
    requires at <= |toks| && |items| <= ctx.maxItems
    ensures at < |toks| && toks[at] == ArrayEnd ==>
              (ItemsFrom(ctx, element, toks, at, items, v, next) <==> v == SeqVal(items) && next == at + 1)
    ensures ItemsFrom(ctx, element, toks, at, items, v, next) ==>
              at < |toks| && (toks[at] == ArrayEnd || (|items| < ctx.maxItems && Admit(ctx, element, toks[at]).Admitted?))
  {
    hide Admit;
    NotAdmitted(ctx, element);
    if ItemsFrom(ctx, element, toks, at, items, v, next) && next == at + 1 {
      assert v.items == items;
    }
  }

  lemma {:induction false} ItemsStep(ctx: Context, element: ScalarKind, toks: seq<Token>, at: nat, items: seq<Value>, x: Value, v: Value, next: nat)
    requires at < |toks| && toks[at] != ArrayEnd && |items| < ctx.maxItems && Admit(ctx, element, toks[at]) == Admitted(x)
    ensures ItemsFrom(ctx, element, toks, at, items, v, next) <==> ItemsFrom(ctx, element, toks, at + 1, items + [x], v, next)
  {
    hide Admit;
    var more := items + [x];
    if ItemsFrom(ctx, element, toks, at, items, v, next) {
      assert v.items[|items|] == x;
      assert more <= v.items;
    }
    if ItemsFrom(ctx, element, toks, at + 1, more, v, next) {
      assert v.items[|items|] == more[|items|];
    }
  }

  lemma {:induction false} ItemsExact(ctx: Context, element: ScalarKind, toks: seq<Token>, at: nat, items: seq<Value>, v: Value, next: nat)
    requires at <= |toks| && |items| <= ctx.maxItems
    ensures ParseItems(ctx, element, toks, at, items) == Parsed(v, next) <==> ItemsFrom(ctx, element, toks, at, items, v, next)
    decreases |toks| - at
  {
    hide Admit, ItemsFrom;
    ItemsEnd(ctx, element, toks, at, items, v, next);
    if at < |toks| && toks[at] != ArrayEnd && |items| < ctx.maxItems && Admit(ctx, element, toks[at]).Admitted? {
      var x := Admit(ctx, element, toks[at]).value;
      ItemsExact(ctx, element, toks, at + 1, items + [x], v, next);
      ItemsStep(ctx, element, toks, at, items, x, v, next);
    }
  }

  ghost predicate EntriesFrom(ctx: Context, key: ScalarKind, mapped: ScalarKind, toks: seq<Token>, at: nat, entries: seq<(Value, Value)>, v: Value, next: nat) {
    && at < next <= |toks| && toks[next - 1] == MapEnd
    && v.MapVal? && entries <= v.entries && 2 * (|v.entries| - |entries|) == next - 1 - at && |v.entries| <= ctx.maxItems
    && forall i :: |entries| <= i < |v.entries| ==>
         && Admit(ctx, key, toks[at + 2 * (i - |entries|)]) == Admitted(v.entries[i].0)
         && Admit(ctx, mapped, toks[at + 2 * (i - |entries|) + 1]) == Admitted(v.entries[i].1)
  }

  lemma {:induction false} EntriesEnd(ctx: Context, key: ScalarKind, mapped: ScalarKind, toks: seq<Token>, at: nat, entries: seq<(Value, Value)>, v: Value, next: nat)
    requires at <= |toks| && |entries| <= ctx.maxItems
    ensures at < |toks| && toks[at] == MapEnd ==>
              (EntriesFrom(ctx, key, mapped, toks, at, entries, v, next) <==> v == MapVal(entries) && next == at + 1)
    ensures EntriesFrom(ctx, key, mapped, toks, at, entries, v, next) ==>
              && at < |toks|
              && (toks[at] != MapEnd ==>
                    && |entries| < ctx.maxItems && Admit(ctx, key, toks[at]).Admitted?
                    && at + 1 < |toks| && Admit(ctx, mapped, toks[at + 1]).Admitted?)
  {
    hide Admit;
    NotAdmitted(ctx, key);
    if EntriesFrom(ctx, key, mapped, toks, at, entries, v, next) {
      if next == at + 1 {
        assert v.entries == entries;
      } else {
        assert Admit(ctx, key, toks[at + 2 * (|entries| - |entries|)]) == Admitted(v.entries[|entries|].0);
      }
    }
  }

  lemma {:induction false} EntriesStep(ctx: Context, key: ScalarKind, mapped: ScalarKind, toks: seq<Token>, at: nat, entries: seq<(Value, Value)>, x: (Value, Value), v: Value, next: nat)
    requires at + 1 < |toks| && toks[at] != MapEnd && |entries| < ctx.maxItems
    requires Admit(ctx, key, toks[at]) == Admitted(x.0) && Admit(ctx, mapped, toks[at + 1]) == Admitted(x.1)
    ensures EntriesFrom(ctx, key, mapped, toks, at, entries, v, next) <==> EntriesFrom(ctx, key, mapped, toks, at + 2, entries + [x], v, next)
  {
    hide Admit, EntriesFrom;
    if EntriesFrom(ctx, key, mapped, toks, at, entries, v, next) {
      EntryAt(ctx, key, mapped, toks, at, entries, v, next, x);
      EntriesLess(ctx, key, mapped, toks, at, entries, x, v, next);
    }
    if EntriesFrom(ctx, key, mapped, toks, at + 2, entries + [x], v, next) {
      EntriesMore(ctx, key, mapped, toks, at, entries, x, v, next);
    }
  }

  lemma {:induction false} EntriesLess(ctx: Context, key: ScalarKind, mapped: ScalarKind, toks: seq<Token>, at: nat, entries: seq<(Value, Value)>, x: (Value, Value), v: Value, next: nat)
    requires EntriesFrom(ctx, key, mapped, toks, at, entries, v, next) && |entries| < |v.entries| && v.entries[|entries|] == x
    ensures EntriesFrom(ctx, key, mapped, toks, at + 2, entries + [x], v, next)
  {
    hide Admit;
    var more, n := entries + [x], |entries|;
    assert more <= v.entries;
    forall i | n + 1 <= i < |v.entries|
      ensures Admit(ctx, key, toks[at + 2 + 2 * (i - |more|)]) == Admitted(v.entries[i].0)
      ensures Admit(ctx, mapped, toks[at + 2 + 2 * (i - |more|) + 1]) == Admitted(v.entries[i].1)
    {
      assert at + 2 + 2 * (i - |more|) == at + 2 * (i - n);
    }
  }

  lemma {:induction false} EntriesMore(ctx: Context, key: ScalarKind, mapped: ScalarKind, toks: seq<Token>, at: nat, entries: seq<(Value, Value)>, x: (Value, Value), v: Value, next: nat)
    requires at + 1 < |toks| && Admit(ctx, key, toks[at]) == Admitted(x.0) && Admit(ctx, mapped, toks[at + 1]) == Admitted(x.1)
    requires EntriesFrom(ctx, key, mapped, toks, at + 2, entries + [x], v, next)
    ensures EntriesFrom(ctx, key, mapped, toks, at, entries, v, next)
  {
    hide Admit;
    var more, n := entries + [x], |entries|;
    assert v.entries[n] == more[n];
    forall i | n <= i < |v.entries|
      ensures Admit(ctx, key, toks[at + 2 * (i - n)]) == Admitted(v.entries[i].0)
      ensures Admit(ctx, mapped, toks[at + 2 * (i - n) + 1]) == Admitted(v.entries[i].1)
    {
      assert at + 2 + 2 * (i - |more|) == at + 2 * (i - n);
    }
  }

  lemma {:induction false} EntryAt(ctx: Context, key: ScalarKind, mapped: ScalarKind, toks: seq<Token>, at: nat, entries: seq<(Value, Value)>, v: Value, next: nat, x: (Value, Value))
    requires EntriesFrom(ctx, key, mapped, toks, at, entries, v, next) && toks[at] != MapEnd && at + 1 < |toks|
    requires Admit(ctx, key, toks[at]) == Admitted(x.0) && Admit(ctx, mapped, toks[at + 1]) == Admitted(x.1)
    ensures |entries| < |v.entries| && v.entries[|entries|] == x
  {
    hide Admit;
    assert |entries| < |v.entries|;
    assert at + 2 * (|entries| - |entries|) == at;
    assert Admit(ctx, key, toks[at + 2 * (|entries| - |entries|)]) == Admitted(v.entries[|entries|].0);
  }

  lemma {:induction false} EntriesExact(ctx: Context, key: ScalarKind, mapped: ScalarKind, toks: seq<Token>, at: nat, entries: seq<(Value, Value)>, v: Value, next: nat)
    requires at <= |toks| && |entries| <= ctx.maxItems
    ensures ParseEntries(ctx, key, mapped, toks, at, entries) == Parsed(v, next) <==> EntriesFrom(ctx, key, mapped, toks, at, entries, v, next)
    decreases |toks| - at
  {
    hide Admit, EntriesFrom;
    EntriesEnd(ctx, key, mapped, toks, at, entries, v, next);
    if && at + 1 < |toks| && toks[at] != MapEnd && |entries| < ctx.maxItems
       && Admit(ctx, key, toks[at]).Admitted? && Admit(ctx, mapped, toks[at + 1]).Admitted?
    {
      var x := (Admit(ctx, key, toks[at]).value, Admit(ctx, mapped, toks[at + 1]).value);
      EntriesExact(ctx, key, mapped, toks, at + 2, entries + [x], v, next);
      EntriesStep(ctx, key, mapped, toks, at, entries, x, v, next);
    }
  }

  // ----- fields

  lemma {:induction false} NameFound(s: Shape, k: nat)
    requires s.Struct? && WellFormed(s) && k < |s.names|
    ensures FirstIndex(s.names, s.names[k], 0) == Some(k)
  {
  }

  /** The rest of a struct, from a state of reading it. */
  ghost predicate OthersFrom(ctx: Context, s: Shape, toks: seq<Token>, at: nat, seen: set<nat>, values: seq<Value>, order: seq<nat>, chunks: seq<seq<Token>>, v: Value, next: nat)
    requires s.Struct?
  {
    && at <= next <= |toks| && |values| == |s.fields|
    && EncodesOthers(ctx, s, seen, order, chunks, v)
    && toks[at..next] == Concat(chunks) + [MapEnd]
    && forall k :: 0 <= k < |values| && k in seen ==> v.fields[k] == values[k]
  }

  lemma {:induction false} ListsOthersMore(n: nat, seen: set<nat>, k: nat, order: seq<nat>)
    requires k < n && k !in seen
    ensures ListsOthers(n, seen + {k}, order) <==> ListsOthers(n, seen, [k] + order)
  {
    var whole := [k] + order;
    if ListsOthers(n, seen + {k}, order) {
      forall i, j | 0 <= i < j < |whole| ensures whole[i] != whole[j] {
      }
      forall m | 0 <= m < n ensures m in seen || m in whole {
      }
    }
    if ListsOthers(n, seen, whole) {
      forall j | 0 <= j < |order| ensures order[j] < n && order[j] !in seen + {k} {
        assert whole[j + 1] == order[j] && whole[0] != whole[j + 1];
      }
      forall i, j | 0 <= i < j < |order| ensures order[i] != order[j] {
        assert whole[i + 1] != whole[j + 1];
      }
      forall m | 0 <= m < n ensures m in seen + {k} || m in order {
      }
    }
  }

  lemma {:induction false} ListsNothing(n: nat, seen: set<nat>, order: seq<nat>)
    requires ListsOthers(n, seen, order)
    ensures order == [] <==> forall k :: 0 <= k < n ==> k in seen
  {
    if order != [] {
      assert order[0] < n && order[0] !in seen;
    }
  }

  /** One more field read is one chunk less to come. */
  lemma {:induction false} OthersStep(ctx: Context, s: Shape, toks: seq<Token>, at: nat, seen: set<nat>, values: seq<Value>, k: nat, mid: nat,
                   order: seq<nat>, chunks: seq<seq<Token>>, v: Value, next: nat)
    requires s.Struct? && WellFormed(s) && |values| == |s.fields| && k < |s.fields| && k !in seen
    requires at < mid <= next <= |toks| && IsString(toks[at], s.names[k])
    requires v.RecordVal? && |v.fields| == |s.fields| && Encodes(ctx, s.fields[k], toks[at + 1..mid], v.fields[k])
    requires OthersFrom(ctx, s, toks, mid, seen + {k}, values[k := v.fields[k]], order, chunks, v, next)
    ensures OthersFrom(ctx, s, toks, at, seen, values, [k] + order, [toks[at..mid]] + chunks, v, next)
  {
    hide Encodes, WellFormed, Concat;
    ListsOthersMore(|s.fields|, seen, k, order);
    var order', chunks' := [k] + order, [toks[at..mid]] + chunks;
    assert toks[at..mid][1..] == toks[at + 1..mid];
    forall j | 0 <= j < |order'|
      ensures && |chunks'[j]| > 0 && order'[j] < |s.fields| && IsString(chunks'[j][0], s.names[order'[j]])
              && Encodes(ctx, s.fields[order'[j]], chunks'[j][1..], v.fields[order'[j]])
    {
      if j > 0 {
        assert order'[j] == order[j - 1] && chunks'[j] == chunks[j - 1];
      }
    }
    assert toks[at..next] == toks[at..mid] + toks[mid..next];
    ConcatCons(toks[at..mid], chunks);
  }

  lemma {:induction false} ConcatCons(chunk: seq<Token>, chunks: seq<seq<Token>>)
    ensures Concat([chunk] + chunks) == chunk + Concat(chunks)
  {
    assert ([chunk] + chunks)[1..] == chunks;
  }

  lemma {:induction false} OthersFirst(ctx: Context, s: Shape, toks: seq<Token>, at: nat, seen: set<nat>, values: seq<Value>,
                    order: seq<nat>, chunks: seq<seq<Token>>, v: Value, next: nat)
    requires s.Struct? && OthersFrom(ctx, s, toks, at, seen, values, order, chunks, v, next) && order != []
    ensures var k, mid := order[0], at + |chunks[0]|;
            && k < |s.fields| && k !in seen && at < mid < next && IsString(toks[at], s.names[k])
            && toks[at..mid] == chunks[0] && chunks[0][1..] == toks[at + 1..mid]
            && Encodes(ctx, s.fields[k], toks[at + 1..mid], v.fields[k])
            && toks[mid..next] == Concat(chunks[1..]) + [MapEnd]
  {
    hide Encodes;
    assert toks[at..next] == chunks[0] + (Concat(chunks[1..]) + [MapEnd]);
    SplitSlice(toks, at, next, chunks[0], Concat(chunks[1..]) + [MapEnd]);
  }

  lemma {:induction false} SplitSlice(toks: seq<Token>, at: nat, next: nat, a: seq<Token>, b: seq<Token>)
    requires at <= next <= |toks| && toks[at..next] == a + b && |a| > 0
    ensures at + |a| + |b| == next && toks[at] == a[0]
    ensures toks[at..at + |a|] == a && toks[at + |a|..next] == b && toks[at + 1..at + |a|] == a[1..]
  {
    assert |toks[at..next]| == |a| + |b|;
    forall i | 0 <= i < |a| ensures toks[at + i] == a[i] {
      assert toks[at + i] == toks[at..next][i];
    }
    forall i | 0 <= i < |b| ensures toks[at + |a| + i] == b[i] {
      assert toks[at + |a| + i] == toks[at..next][|a| + i];
    }
  }

  lemma {:induction false} OthersRest(ctx: Context, s: Shape, toks: seq<Token>, at: nat, seen: set<nat>, values: seq<Value>,
                   order: seq<nat>, chunks: seq<seq<Token>>, v: Value, next: nat)
    requires s.Struct? && OthersFrom(ctx, s, toks, at, seen, values, order, chunks, v, next) && order != []
    ensures order[0] < |s.fields| && at + |chunks[0]| <= next
    ensures OthersFrom(ctx, s, toks, at + |chunks[0]|, seen + {order[0]}, values[order[0] := v.fields[order[0]]], order[1..], chunks[1..], v, next)
  {
    hide Encodes, Concat;
    var k := order[0];
    OthersFirst(ctx, s, toks, at, seen, values, order, chunks, v, next);
    assert [k] + order[1..] == order;
    ListsOthersMore(|s.fields|, seen, k, order[1..]);
    forall j | 0 <= j < |order[1..]|
      ensures && |chunks[1..][j]| > 0 && IsString(chunks[1..][j][0], s.names[order[1..][j]])
              && Encodes(ctx, s.fields[order[1..][j]], chunks[1..][j][1..], v.fields[order[1..][j]])
    {
      assert order[1..][j] == order[j + 1] && chunks[1..][j] == chunks[j + 1];
    }
  }

  lemma {:induction false} OthersDone(ctx: Context, s: Shape, toks: seq<Token>, at: nat, seen: set<nat>, values: seq<Value>, v: Value, next: nat)
    requires s.Struct? && WellFormed(s) && |values| == |s.fields| && forall k :: 0 <= k < |s.fields| ==> k in seen
    ensures OthersFrom(ctx, s, toks, at, seen, values, [], [], v, next) <==>
              at < |toks| && toks[at] == MapEnd && v == RecordVal(values) && next == at + 1
  {
    if OthersFrom(ctx, s, toks, at, seen, values, [], [], v, next) {
      assert toks[at..next][0] == MapEnd && |toks[at..next]| == 1;
      assert v.fields == values;
    }
  }

  // ----- the reader is sound

  lemma {:induction false} ParseSound(ctx: Context, s: Shape, toks: seq<Token>, at: nat)
    requires at <= |toks| && WellFormed(s) && Parse(ctx, s, toks, at).Parsed?
    ensures var r := Parse(ctx, s, toks, at); Reads(ctx, s, toks, at, r.value, r.next)
    decreases s, |toks| - at
  {
    hide Admit, AdmitTag, Stores, TagNames, ParseItems, ParseEntries, ParseFields;
    AdmitsAsStored(ctx);
    var r := Parse(ctx, s, toks, at);
    var ts := toks[at..r.next];
    match s
    case Scalar(kind) =>
    case Container(LinearKind(element)) =>
      ItemsExact(ctx, element, toks, at + 1, [], r.value, r.next);
      ItemsRead(ctx, element, toks, at, r.value, r.next);
    case Container(MapKind(key, mapped)) =>
      EntriesExact(ctx, key, mapped, toks, at + 1, [], r.value, r.next);
      EntriesRead(ctx, key, mapped, toks, at, r.value, r.next);
    case Struct(names, fields) =>
      var order, chunks := FieldsSound(ctx, s, toks, at + 1, {}, seq(|fields|, i requires 0 <= i < |fields| => Prepared(fields[i])));
      assert ts == [MapBegin] + toks[at + 1..r.next];
      assert ts == [MapBegin] + Concat(chunks) + [MapEnd];
    case Variant(tag, tags, cases) =>
      var k := r.value.index;
      ParseSound(ctx, cases[k], toks, at + 2);
      assert ts[2..|ts| - 1] == toks[at + 2..r.next - 1];
  }

  lemma {:induction false} ItemsRead(ctx: Context, element: ScalarKind, toks: seq<Token>, at: nat, v: Value, next: nat)
    requires at < |toks| && toks[at] == ArrayBegin
    ensures ItemsFrom(ctx, element, toks, at + 1, [], v, next) <==>
              Reads(ctx, Container(LinearKind(element)), toks, at, v, next)
  {
    hide Admit, Stores;
    AdmitsAsStored(ctx);
    if at < next <= |toks| {
      var ts := toks[at..next];
      assert forall i :: 0 <= i < |ts| ==> ts[i] == toks[at + i];
      if ItemsFrom(ctx, element, toks, at + 1, [], v, next) {
        forall i | 0 <= i < |v.items| ensures Stores(ctx, element, ts[i + 1], v.items[i]) {
          assert Admit(ctx, element, toks[at + 1 + i]) == Admitted(v.items[(at + 1 + i) - (at + 1)]);
        }
      }
      if Reads(ctx, Container(LinearKind(element)), toks, at, v, next) {
        forall i | at + 1 <= i < next - 1 ensures Admit(ctx, element, toks[i]) == Admitted(v.items[i - (at + 1)]) {
          assert Stores(ctx, element, ts[i - (at + 1) + 1], v.items[i - (at + 1)]);
        }
      }
    }
  }

  lemma {:induction false} EntriesRead(ctx: Context, key: ScalarKind, mapped: ScalarKind, toks: seq<Token>, at: nat, v: Value, next: nat)
    requires at < |toks| && toks[at] == MapBegin
    ensures EntriesFrom(ctx, key, mapped, toks, at + 1, [], v, next) <==>
              Reads(ctx, Container(MapKind(key, mapped)), toks, at, v, next)
  {
    hide Admit, Stores;
    AdmitsAsStored(ctx);
    if at < next <= |toks| {
      var ts := toks[at..next];
      assert forall i :: 0 <= i < |ts| ==> ts[i] == toks[at + i];
    }
  }

  lemma {:induction false} FieldsSound(ctx: Context, s: Shape, toks: seq<Token>, at: nat, seen: set<nat>, values: seq<Value>)
    returns (order: seq<nat>, chunks: seq<seq<Token>>)
    requires at <= |toks| && s.Struct? && WellFormed(s) && |values| == |s.fields|
    requires ParseFields(ctx, s, toks, at, seen, values).Parsed?
    ensures var r := ParseFields(ctx, s, toks, at, seen, values);
            OthersFrom(ctx, s, toks, at, seen, values, order, chunks, r.value, r.next)
    decreases s, |toks| - at
  {
    hide Parse, Encodes, EncodesOthers;
    var r := ParseFields(ctx, s, toks, at, seen, values);
    if toks[at] == MapEnd {
      order, chunks := [], [];
      OthersDone(ctx, s, toks, at, seen, values, r.value, r.next);
    } else {
      var k := FirstIndex(s.names, toks[at].text, 0).value;
      var one := Parse(ctx, s.fields[k], toks, at + 1);
      ParseSound(ctx, s.fields[k], toks, at + 1);
      var order', chunks' := FieldsSound(ctx, s, toks, one.next, seen + {k}, values[k := one.value]);
      OthersRecord(ctx, s, toks, one.next, seen + {k}, values[k := one.value], order', chunks', r.value, r.next);
      order, chunks := [k] + order', [toks[at..one.next]] + chunks';
      OthersStep(ctx, s, toks, at, seen, values, k, one.next, order', chunks', r.value, r.next);
    }
  }

  lemma {:induction false} OthersRecord(ctx: Context, s: Shape, toks: seq<Token>, at: nat, seen: set<nat>, values: seq<Value>,
                     order: seq<nat>, chunks: seq<seq<Token>>, v: Value, next: nat)
    requires s.Struct? && OthersFrom(ctx, s, toks, at, seen, values, order, chunks, v, next)
    ensures v.RecordVal? && |v.fields| == |s.fields| == |s.names|
  {
  }

  // ----- the reader is complete

  lemma {:induction false} ParseComplete(ctx: Context, s: Shape, toks: seq<Token>, at: nat, v: Value, next: nat)
    requires WellFormed(s) && Reads(ctx, s, toks, at, v, next)
    ensures Parse(ctx, s, toks, at) == Parsed(v, next)
    decreases s, |toks| - at
  {
    hide Admit, AdmitTag, Stores, TagNames, ParseItems, ParseEntries, ParseFields;
    AdmitsAsStored(ctx);
    var ts := toks[at..next];
    match s
    case Scalar(kind) =>
    case Container(LinearKind(element)) =>
      ItemsRead(ctx, element, toks, at, v, next);
      ItemsExact(ctx, element, toks, at + 1, [], v, next);
    case Container(MapKind(key, mapped)) =>
      EntriesRead(ctx, key, mapped, toks, at, v, next);
      EntriesExact(ctx, key, mapped, toks, at + 1, [], v, next);
    case Struct(names, fields) =>
      var values := seq(|fields|, i requires 0 <= i < |fields| => Prepared(fields[i]));
      var order, chunks := StructReads(ctx, s, toks, at, values, v, next);
      FieldsComplete(ctx, s, toks, at + 1, {}, values, order, chunks, v, next);
    case Variant(tag, tags, cases) =>
      VariantReads(ctx, s, toks, at, v, next);
      ParseComplete(ctx, cases[v.index], toks, at + 2, v.payload, next - 1);
  }

  lemma {:induction false} Inside(toks: seq<Token>, at: nat, next: nat)
    requires at + 3 <= next <= |toks|
    ensures var ts := toks[at..next];
            ts[2..|ts| - 1] == toks[at + 2..next - 1] && toks[at] == ts[0] && toks[at + 1] == ts[1]
            && toks[next - 1] == ts[|ts| - 1]
  {
    var ts := toks[at..next];
    var a, b := ts[2..|ts| - 1], toks[at + 2..next - 1];
    forall i | 0 <= i < |a| ensures a[i] == b[i] {
      assert a[i] == ts[i + 2] == toks[at + i + 2];
    }
    assert a == b;
  }

  lemma {:induction false} VariantReads(ctx: Context, s: Shape, toks: seq<Token>, at: nat, v: Value, next: nat)
    requires s.Variant? && WellFormed(s) && Reads(ctx, s, toks, at, v, next)
    ensures at + 3 <= next && toks[at] == ArrayBegin && toks[next - 1] == ArrayEnd
    ensures v.CaseVal? && v.index < |s.tags| && AdmitTag(s.tag, toks[at + 1]) == Admitted(s.tags[v.index])
    ensures FirstIndex(s.tags, s.tags[v.index], 0) == Some(v.index)
    ensures Reads(ctx, s.cases[v.index], toks, at + 2, v.payload, next - 1)
  {
    hide Admit, AdmitTag, Stores, TagNames;
    AdmitsAsStored(ctx);
    assert Encodes(ctx, s, toks[at..next], v);
    Inside(toks, at, next);
    FirstIsFirst(s.tags, v.index);
  }

  lemma {:induction false} StructReads(ctx: Context, s: Shape, toks: seq<Token>, at: nat, values: seq<Value>, v: Value, next: nat)
    returns (order: seq<nat>, chunks: seq<seq<Token>>)
    requires s.Struct? && Reads(ctx, s, toks, at, v, next) && |values| == |s.fields|
    ensures at < |toks| && toks[at] == MapBegin
    ensures OthersFrom(ctx, s, toks, at + 1, {}, values, order, chunks, v, next)
  {
    hide EncodesOthers;
    var ts := toks[at..next];
    assert Encodes(ctx, s, ts, v);
    order, chunks :| EncodesOthers(ctx, s, {}, order, chunks, v) && ts == [MapBegin] + Concat(chunks) + [MapEnd];
    assert toks[at] == ts[0] == MapBegin;
    assert toks[at + 1..next] == ts[1..] == Concat(chunks) + [MapEnd];
  }

  lemma {:induction false} FirstIsFirst(tags: seq<int>, k: nat)
    requires k < |tags| && tags[k] !in tags[..k]
    ensures FirstIndex(tags, tags[k], 0) == Some(k)
  {
    forall i | 0 <= i < k ensures tags[i] != tags[k] {
      assert tags[i] == tags[..k][i];
    }
  }

  lemma {:induction false} FieldsComplete(ctx: Context, s: Shape, toks: seq<Token>, at: nat, seen: set<nat>, values: seq<Value>,
                                          order: seq<nat>, chunks: seq<seq<Token>>, v: Value, next: nat)
    requires at <= |toks| && s.Struct? && WellFormed(s)
    requires OthersFrom(ctx, s, toks, at, seen, values, order, chunks, v, next)
    ensures ParseFields(ctx, s, toks, at, seen, values) == Parsed(v, next)
    decreases s, |toks| - at
  {
    hide Parse, Encodes, EncodesOthers;
    OthersLists(ctx, s, toks, at, seen, values, order, chunks, v, next);
    if order == [] {
      OthersDone(ctx, s, toks, at, seen, values, v, next);
    } else {
      var k, mid := order[0], at + |chunks[0]|;
      OthersFirst(ctx, s, toks, at, seen, values, order, chunks, v, next);
      OthersRest(ctx, s, toks, at, seen, values, order, chunks, v, next);
      NameFound(s, k);
      ParseComplete(ctx, s.fields[k], toks, at + 1, v.fields[k], mid);
      FieldsComplete(ctx, s, toks, mid, seen + {k}, values[k := v.fields[k]], order[1..], chunks[1..], v, next);
    }
  }

  lemma {:induction false} OthersLists(ctx: Context, s: Shape, toks: seq<Token>, at: nat, seen: set<nat>, values: seq<Value>,
                    order: seq<nat>, chunks: seq<seq<Token>>, v: Value, next: nat)
    requires s.Struct? && OthersFrom(ctx, s, toks, at, seen, values, order, chunks, v, next)
    ensures |values| == |s.fields| && |chunks| == |order| && (order == [] ==> chunks == [])
    ensures v.RecordVal? && |v.fields| == |s.fields| == |s.names|
    ensures order == [] ==> forall k :: 0 <= k < |s.fields| ==> k in seen
  {
    ListsNothing(|s.fields|, seen, order);
  }

  /** Reading a stream succeeds exactly on the prefixes that encode a value of the shape, and
      yields that value and that prefix. */
  lemma {:induction false} ParseExact(ctx: Context, s: Shape, toks: seq<Token>, at: nat, v: Value, next: nat)
    requires at <= |toks| && WellFormed(s)
    ensures Parse(ctx, s, toks, at) == Parsed(v, next) <==> Reads(ctx, s, toks, at, v, next)
  {
    if Parse(ctx, s, toks, at) == Parsed(v, next) {
      ParseSound(ctx, s, toks, at);
    }
    if Reads(ctx, s, toks, at, v, next) {
      ParseComplete(ctx, s, toks, at, v, next);
    }
  }

  /** No encoding is a proper prefix of another, and none encodes two values. */
  lemma {:induction false} PrefixFree(ctx: Context, s: Shape, ts: seq<Token>, ts': seq<Token>, v: Value, v': Value)
    requires WellFormed(s) && Encodes(ctx, s, ts, v) && Encodes(ctx, s, ts', v') && ts <= ts'
    ensures ts == ts' && v == v'
  {
    assert ts'[0..|ts|] == ts && ts'[0..|ts'|] == ts';
    ParseComplete(ctx, s, ts', 0, v, |ts|);
    ParseComplete(ctx, s, ts', 0, v', |ts'|);
  }
}
