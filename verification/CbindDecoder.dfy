/** The decoder as it works: a position in the token stream, a stack of seen-field bitmaps in
the caller's scratch memory, and a destination that is filled field by field. */
module CbindDecoder {
  import opened Basics
  import opened CbindScalar
  import opened CbindShape
  import opened CbindPreflight
  import opened CbindFormat

  // ----- the destination

  /** States a destination of this shape can be in, half-decoded ones included. */
  predicate HasShape(s: Shape, v: Value) {
    match s
    case Scalar(BoolKind) => v.BoolVal?
    case Scalar(SintKind(_)) => v.IntVal?
    case Scalar(UintKind(_)) => v.IntVal?
    case Scalar(FloatKind(_)) => v.FloatVal?
    case Scalar(EnumKind(_)) => v.EnumVal? || v.Unset?
    case Scalar(_) => v.BytesVal? || v.Unset?
    case Container(LinearKind(_)) => v.SeqVal? || v.Bound? || v.Unset?
    case Container(MapKind(_, _)) => v.MapVal? || v.Bound? || v.Unset?
    case Struct(_, fields) =>
      v.RecordVal? && |v.fields| == |fields| && forall i :: 0 <= i < |fields| ==> HasShape(fields[i], v.fields[i])
    case Variant(_, _, cases) =>
      v.Unset? || (v.CaseVal? && v.index < |cases| && HasShape(cases[v.index], v.payload))
  }

  /** The test for an empty destination. */
  predicate IsEmpty(s: Shape, v: Value) {
    match s
    case Scalar(BoolKind) => v.BoolVal? && !v.flag
    case Scalar(SintKind(_)) => v.IntVal? && v.number == 0
    case Scalar(UintKind(_)) => v.IntVal? && v.number == 0
    case Scalar(FloatKind(_)) => v.FloatVal? && v.floating == Finite(0.0)
    case Struct(_, fields) =>
      v.RecordVal? && |v.fields| == |fields| && forall i :: 0 <= i < |fields| ==> IsEmpty(fields[i], v.fields[i])
    case _ => v.Unset?
  }

  lemma {:induction false} EmptyIsZero(s: Shape, v: Value)
    ensures IsEmpty(s, v) <==> v == Zero(s)
  {
    match s
    case Struct(_, fields) =>
      if v.RecordVal? && |v.fields| == |fields| {
        forall i | 0 <= i < |fields| ensures IsEmpty(fields[i], v.fields[i]) <==> v.fields[i] == Zero(fields[i]) {
          EmptyIsZero(fields[i], v.fields[i]);
        }
        if IsEmpty(s, v) {
          assert v.fields == Zero(s).fields;
        }
        if v == Zero(s) {
          forall i | 0 <= i < |fields| ensures IsEmpty(fields[i], v.fields[i]) {
            assert v.fields[i] == Zero(fields[i]);
          }
        }
      }
    case _ =>
  }

  lemma {:induction false} PreparedHasShape(s: Shape)
    ensures HasShape(s, Prepared(s))
  {
    match s
    case Struct(_, fields) =>
      forall i | 0 <= i < |fields| ensures HasShape(fields[i], Prepared(fields[i])) {
        PreparedHasShape(fields[i]);
      }
    case _ =>
  }

  /** Restores zero in any state of the destination; adapters are trusted to restore theirs. */
  method Reset(s: Shape, v: Value) returns (v': Value)
    requires HasShape(s, v)
    ensures v' == Zero(s)
  {
    match s
    case Scalar(BoolKind) => v' := BoolVal(false);
    case Scalar(SintKind(_)) => v' := IntVal(0);
    case Scalar(UintKind(_)) => v' := IntVal(0);
    case Scalar(FloatKind(_)) => v' := FloatVal(Finite(0.0));
    case Struct(_, fields) =>
      var values := v.fields;
      var i := 0;
      while i < |fields|
        invariant 0 <= i <= |fields| == |values|
        invariant forall k :: 0 <= k < i ==> values[k] == Zero(fields[k])
        invariant forall k :: i <= k < |fields| ==> HasShape(fields[k], values[k])
      {
        var field := Reset(fields[i], values[i]);
        values := values[i := field];
        i := i + 1;
      }
      v' := RecordVal(values);
      assert values == Zero(s).fields;
    case _ => v' := Unset;
  }

  // ----- bitmaps

  function Mask(bit: nat): bv8
    requires bit < 8
  {
    match bit
    case 0 => 1
    case 1 => 2
    case 2 => 4
    case 3 => 8
    case 4 => 16
    case 5 => 32
    case 6 => 64
    case 7 => 128
  }

  predicate OneBit(m: bv8) {
    m == 1 || m == 2 || m == 4 || m == 8 || m == 16 || m == 32 || m == 64 || m == 128
  }

  lemma {:induction false} MaskFacts(i: nat, j: nat)
    requires i < 8 && j < 8
    ensures OneBit(Mask(i)) && (Mask(i) == Mask(j) <==> i == j)
  {
  }

  lemma {:induction false} OrBit(b: bv8, m: bv8, n: bv8)
    requires OneBit(m) && OneBit(n)
    ensures (b | m) & n != 0 <==> m == n || b & n != 0
  {
  }

  function Bit(bytes: seq<bv8>, mark: nat, k: nat): bool
    requires mark + k / 8 < |bytes|
  {
    bytes[mark + k / 8] & Mask(k % 8) != 0
  }

  lemma {:induction false} ByteOf(n: nat, k: nat)
    requires k < n
    ensures k / 8 < BitmapBytes(n)
  {
  }

  /** The frame at `mark` records exactly the fields in `seen`. */
  ghost predicate Frame(bytes: seq<bv8>, mark: nat, n: nat, seen: set<nat>) {
    && mark + BitmapBytes(n) <= |bytes|
    && forall k :: 0 <= k < n ==> mark + k / 8 < |bytes| && (Bit(bytes, mark, k) <==> k in seen)
  }

  lemma {:induction false} FreshFrame(bytes: seq<bv8>, mark: nat, n: nat)
    requires mark + BitmapBytes(n) <= |bytes|
    requires forall i :: mark <= i < mark + BitmapBytes(n) ==> bytes[i] == 0
    ensures Frame(bytes, mark, n, {})
  {
    forall k | 0 <= k < n ensures mark + k / 8 < |bytes| && !Bit(bytes, mark, k) {
      ByteOf(n, k);
      assert bytes[mark + k / 8] == 0;
    }
  }

  lemma {:induction false} SameFrame(a: seq<bv8>, b: seq<bv8>, mark: nat, n: nat, seen: set<nat>)
    requires Frame(a, mark, n, seen) && mark + BitmapBytes(n) <= |b|
    requires a[..mark + BitmapBytes(n)] == b[..mark + BitmapBytes(n)]
    ensures Frame(b, mark, n, seen)
  {
    forall k | 0 <= k < n ensures mark + k / 8 < |b| && (Bit(b, mark, k) <==> k in seen) {
      ByteOf(n, k);
      assert b[mark + k / 8] == b[..mark + BitmapBytes(n)][mark + k / 8] == a[mark + k / 8];
      assert Bit(a, mark, k) <==> k in seen;
    }
  }

  lemma {:induction false} MarkedFrame(a: seq<bv8>, b: seq<bv8>, mark: nat, n: nat, seen: set<nat>, k: nat)
    requires Frame(a, mark, n, seen) && k < n && mark + k / 8 < |a|
    requires b == a[mark + k / 8 := a[mark + k / 8] | Mask(k % 8)]
    ensures Frame(b, mark, n, seen + {k})
  {
    forall j | 0 <= j < n ensures mark + j / 8 < |b| && (Bit(b, mark, j) <==> j in seen + {k}) {
      assert Bit(a, mark, j) <==> j in seen;
      MaskFacts(k % 8, j % 8);
      MaskFacts(j % 8, k % 8);
      OrBit(a[mark + j / 8], Mask(k % 8), Mask(j % 8));
    }
  }

  // ----- decoding

  /** What a decoding step left is what reading the stream yields. */
  predicate Agrees(parsed: Parsed, status: Status, out: Value, position: nat) {
    match parsed
    case Parsed(v, next) => status.Ok? && out == v && position == next
    case Stopped(why) => status == why && !status.Ok?
  }

  /** The same, unless the token source or an adapter failed on the way. */
  predicate Settles(parsed: Parsed, faulted: bool, status: Status, out: Value, position: nat) {
    if faulted then !status.Ok? else Agrees(parsed, status, out, position)
  }

  /** The fields of a struct that is being read. */
  ghost predicate Filling(s: Shape, seen: set<nat>, values: seq<Value>)
    requires s.Struct?
  {
    && |values| == |s.fields|
    && forall k :: 0 <= k < |values| ==>
         HasShape(s.fields[k], values[k]) && (k in seen || values[k] == Prepared(s.fields[k]))
  }

  lemma {:induction false} FillingStarts(s: Shape)
    requires s.Struct?
    ensures Filling(s, {}, Prepared(s).fields)
    ensures Prepared(s).fields == seq(|s.fields|, i requires 0 <= i < |s.fields| => Prepared(s.fields[i]))
  {
    forall k | 0 <= k < |s.fields| ensures HasShape(s.fields[k], Prepared(s.fields[k])) {
      PreparedHasShape(s.fields[k]);
    }
  }

  lemma {:induction false} FillingMore(s: Shape, seen: set<nat>, values: seq<Value>, k: nat, v: Value)
    requires s.Struct? && Filling(s, seen, values) && k < |values| && HasShape(s.fields[k], v)
    ensures Filling(s, seen + {k}, values[k := v])
  {
  }

  lemma {:induction false} FillingHasShape(s: Shape, seen: set<nat>, values: seq<Value>)
    requires s.Struct? && Filling(s, seen, values)
    ensures HasShape(s, RecordVal(values))
  {
  }

  lemma {:induction false} StructScratch(s: Shape)
    requires s.Struct?
    ensures Scratch(s) == BitmapBytes(|s.fields|) + MaxScratch(s.fields)
    ensures forall k :: 0 <= k < |s.fields| ==> Scratch(s.fields[k]) <= MaxScratch(s.fields)
  {
    forall k | 0 <= k < |s.fields| ensures Scratch(s.fields[k]) <= MaxScratch(s.fields) {
      MaxScratchHas(s.fields, k);
    }
  }

  lemma {:induction false} StructBegin(ctx: Context, s: Shape, toks: seq<Token>, at: nat)
    requires at <= |toks| && s.Struct? && WellFormed(s)
    ensures Prepared(s).RecordVal? && |Prepared(s).fields| == |s.fields|
    ensures Parse(ctx, s, toks, at) ==
              if at == |toks| then Stopped(UnexpectedEnd)
              else if toks[at] != MapBegin then Stopped(TokenMismatch)
              else ParseFields(ctx, s, toks, at + 1, {}, Prepared(s).fields)
  {
    hide ParseFields;
  }

  /** What a struct being read knows about one of its fields. */
  lemma {:induction false} FieldAt(s: Shape, bytes: seq<bv8>, mark: nat, seen: set<nat>, values: seq<Value>, k: nat)
    requires s.Struct? && Frame(bytes, mark, |s.fields|, seen) && Filling(s, seen, values) && k < |s.fields|
    ensures mark + k / 8 < |bytes| && (bytes[mark + k / 8] & Mask(k % 8) != 0 <==> k in seen)
    ensures k !in seen ==> values[k] == Prepared(s.fields[k])
  {
    assert Bit(bytes, mark, k) <==> k in seen;
  }

  lemma {:induction false} FillingSeen(s: Shape, seen: set<nat>, values: seq<Value>, k: nat)
    requires s.Struct? && Filling(s, seen, values) && k in seen
    ensures Filling(s, seen + {k}, values)
  {
  }

  lemma {:induction false} StructFields(s: Shape, k: nat)
    requires s.Struct? && WellFormed(s) && k < |s.names|
    ensures k < |s.fields| && WellFormed(s.fields[k])
  {
  }

  lemma {:induction false} VariantBegin(ctx: Context, s: Shape, toks: seq<Token>, at: nat)
    requires at <= |toks| && s.Variant? && WellFormed(s)
    ensures |s.tags| == |s.cases|
    ensures forall k :: 0 <= k < |s.cases| ==> WellFormed(s.cases[k])
    ensures Parse(ctx, s, toks, at) ==
              if at == |toks| then Stopped(UnexpectedEnd)
              else if toks[at] != ArrayBegin then Stopped(TokenMismatch)
              else if at + 1 == |toks| then Stopped(UnexpectedEnd)
              else
                match AdmitTag(s.tag, toks[at + 1])
                case Refused(status) => Stopped(status)
                case Admitted(n) =>
                  match FirstIndex(s.tags, n, 0)
                  case None => Stopped(ValueOutOfRange)
                  case Some(k) =>
                    match Parse(ctx, s.cases[k], toks, at + 2)
                    case Stopped(status) => Stopped(status)
                    case Parsed(v, next) =>
                      if next == |toks| then Stopped(UnexpectedEnd)
                      else if toks[next] != ArrayEnd then Stopped(TokenMismatch)
                      else Parsed(CaseVal(k, v), next + 1)
  {
    hide AdmitTag;
  }

  lemma {:induction false} VariantCase(s: Shape, k: nat)
    requires s.Variant? && WellFormed(s) && k < |s.cases|
    ensures WellFormed(s.cases[k]) && Scratch(s.cases[k]) <= Scratch(s)
    ensures !s.cases[k].Struct? ==> Prepared(s.cases[k]) == Zero(s.cases[k])
  {
    MaxScratchHas(s.cases, k);
  }

  lemma {:induction false} CaseHasShape(s: Shape, k: nat, payload: Value)
    requires s.Variant? && k < |s.cases| && HasShape(s.cases[k], payload)
    ensures HasShape(s, CaseVal(k, payload))
  {
  }

  lemma {:induction false} ZeroHasShape(s: Shape)
    ensures HasShape(s, Zero(s))
  {
    match s
    case Struct(_, fields) =>
      forall i | 0 <= i < |fields| ensures HasShape(fields[i], Zero(fields[i])) {
        ZeroHasShape(fields[i]);
      }
    case _ =>
  }

  /** A struct whose first `i` fields are prepared. */
  ghost predicate Preparing(s: Shape, values: seq<Value>, i: nat)
    requires s.Struct?
  {
    && i <= |s.fields| == |values|
    && (forall k :: 0 <= k < i ==> values[k] == Prepared(s.fields[k]))
    && (forall k :: i <= k < |values| ==> values[k] == Zero(s.fields[k]))
  }

  lemma {:induction false} PreparingHasShape(s: Shape, values: seq<Value>, i: nat, v: Value)
    requires s.Struct? && Preparing(s, values, i) && i < |values| && HasShape(s.fields[i], v)
    ensures HasShape(s, RecordVal(values[i := v]))
  {
    forall k | 0 <= k < |values| ensures HasShape(s.fields[k], values[i := v][k]) {
      PreparedHasShape(s.fields[k]);
      ZeroHasShape(s.fields[k]);
    }
  }

  lemma {:induction false} PreparedAll(s: Shape, values: seq<Value>)
    requires s.Struct? && Preparing(s, values, |s.fields|)
    ensures RecordVal(values) == Prepared(s)
  {
    assert values == Prepared(s).fields;
  }

  /** `faults` says which calls of the token source and of type adapters fail, by their order. */
  class Decoder {
    const context: Context
    const tokens: seq<Token>
    const scratch: array<bv8>
    const faults: nat -> bool
    var position: nat
    var used: nat
    var calls: nat
    var faulted: bool

    ghost predicate Valid()
      reads this
    {
      position <= |tokens| && used <= scratch.Length && (faulted ==> exists k: nat :: faults(k))
    }

    constructor (context: Context, tokens: seq<Token>, scratch: array<bv8>, faults: nat -> bool)
      ensures Valid() && this.context == context && this.tokens == tokens && this.scratch == scratch && this.faults == faults
      ensures position == 0 && used == 0 && !faulted
    {
      this.context, this.tokens, this.scratch, this.faults := context, tokens, scratch, faults;
      position, used, calls, faulted := 0, 0, 0, false;
    }

    /** A call into an adapter. */
    method Call() returns (ok: bool)
      requires Valid() && !faulted
      modifies this`calls, this`faulted
      ensures Valid() && ok == !faulted
    {
      ok := !faults(calls);
      faulted := !ok;
      calls := calls + 1;
    }

    /** The next token. */
    method Read() returns (status: Status, token: Token)
      requires Valid() && !faulted
      modifies this`position, this`calls, this`faulted
      ensures Valid()
      ensures if faulted then status == SourceError && position == old(position)
              else if old(position) == |tokens| then status == UnexpectedEnd && position == old(position)
              else status.Ok? && token == tokens[old(position)] && position == old(position) + 1
    {
      token := NullToken;
      var ok := Call();
      if !ok {
        return SourceError, token;
      }
      if position == |tokens| {
        return UnexpectedEnd, token;
      }
      position := position + 1;
      return Ok, tokens[position - 1];
    }

    /** Binds the element types of containers, in nested structs but not in variants. */
    method Prepare(s: Shape, v: Value) returns (ok: bool, v': Value)
      requires Valid() && !faulted && s.Struct? && v == Zero(s)
      modifies this`calls, this`faulted
      ensures Valid() && ok == !faulted && HasShape(s, v')
      ensures ok ==> v' == Prepared(s)
    {
      hide HasShape, Zero, Prepared;
      ZeroFields(s);
      var values := v.fields;
      var i := 0;
      while i < |s.fields|
        invariant Valid() && !faulted && Preparing(s, values, i)
      {
        PreparedKinds(s.fields[i]);
        var field := values[i];
        ok := true;
        if s.fields[i].Struct? {
          ok, field := Prepare(s.fields[i], field);
        } else if s.fields[i].Container? {
          ok := Call();
          field := Bound;
        }
        PreparingHasShape(s, values, i, field);
        values := values[i := field];
        if !ok {
          return false, RecordVal(values);
        }
        i := i + 1;
      }
      PreparedAll(s, values);
      PreparedHasShape(s);
      return true, RecordVal(values);
    }

    method DecodeItems(element: ScalarKind) returns (status: Status, out: Value)
      requires Valid() && !faulted
      modifies this`position, this`calls, this`faulted
      ensures Valid()
      ensures Settles(Parse(context, Container(LinearKind(element)), tokens, old(position)), faulted, status, out, position)
      ensures out.Bound? || out.SeqVal?
    {
      hide Admit;
      var token;
      var ok := Call();
      if !ok {
        return TargetError, Bound;
      }
      status, token := Read();
      if !status.Ok? {
        return status, Bound;
      }
      if token != ArrayBegin {
        return TokenMismatch, Bound;
      }
      var items := [];
      while true
        invariant Valid() && !faulted
        invariant ParseItems(context, element, tokens, position, items) == Parse(context, Container(LinearKind(element)), tokens, old(position))
        decreases |tokens| - position
      {
        status, token := Read();
        if !status.Ok? {
          return status, Bound;
        }
        if token == ArrayEnd {
          break;
        }
        if |items| >= context.maxItems {
          return LimitExceeded, Bound;
        }
        var one := Admit(context, element, token);
        if one.Refused? {
          return one.status, Bound;
        }
        ok := Call();
        if !ok {
          return TargetError, Bound;
        }
        items := items + [one.value];
      }
      ok := Call();
      if !ok {
        return TargetError, Bound;
      }
      return Ok, SeqVal(items);
    }

    method DecodeEntries(key: ScalarKind, mapped: ScalarKind) returns (status: Status, out: Value)
      requires Valid() && !faulted
      modifies this`position, this`calls, this`faulted
      ensures Valid()
      ensures Settles(Parse(context, Container(MapKind(key, mapped)), tokens, old(position)), faulted, status, out, position)
      ensures out.Bound? || out.MapVal?
    {
      hide Admit;
      var token;
      var ok := Call();
      if !ok {
        return TargetError, Bound;
      }
      status, token := Read();
      if !status.Ok? {
        return status, Bound;
      }
      if token != MapBegin {
        return TokenMismatch, Bound;
      }
      var entries := [];
      while true
        invariant Valid() && !faulted
        invariant ParseEntries(context, key, mapped, tokens, position, entries) ==
                  Parse(context, Container(MapKind(key, mapped)), tokens, old(position))
        decreases |tokens| - position
      {
        status, token := Read();
        if !status.Ok? {
          return status, Bound;
        }
        if token == MapEnd {
          break;
        }
        if |entries| >= context.maxItems {
          return LimitExceeded, Bound;
        }
        var k := Admit(context, key, token);
        if k.Refused? {
          return k.status, Bound;
        }
        status, token := Read();
        if !status.Ok? {
          return status, Bound;
        }
        var v := Admit(context, mapped, token);
        if v.Refused? {
          return v.status, Bound;
        }
        ok := Call();
        if !ok {
          return TargetError, Bound;
        }
        entries := entries + [(k.value, v.value)];
      }
      ok := Call();
      if !ok {
        return TargetError, Bound;
      }
      return Ok, MapVal(entries);
    }

    /** Clears the frame of a struct with `n` fields and pushes it. */
    method PushFrame(n: nat)
      requires Valid() && used + BitmapBytes(n) <= scratch.Length
      modifies this`used, scratch
      ensures Valid() && used == old(used) + BitmapBytes(n)
      ensures scratch[..old(used)] == old(scratch[..used])
      ensures Frame(scratch[..], old(used), n, {})
    {
      var i := 0;
      while i < BitmapBytes(n)
        invariant 0 <= i <= BitmapBytes(n) && used == old(used)
        invariant scratch[..used] == old(scratch[..used])
        invariant forall k :: used <= k < used + i ==> scratch[k] == 0
      {
        scratch[used + i] := 0;
        i := i + 1;
      }
      FreshFrame(scratch[..], used, n);
      used := used + BitmapBytes(n);
    }

    method MarkSeen(mark: nat, n: nat, k: nat, ghost seen: set<nat>)
      requires k < n && Frame(scratch[..], mark, n, seen)
      modifies scratch
      ensures Frame(scratch[..], mark, n, seen + {k})
      ensures scratch[..mark] == old(scratch[..mark])
    {
      ByteOf(n, k);
      scratch[mark + k / 8] := scratch[mark + k / 8] | Mask(k % 8);
      MarkedFrame(old(scratch[..]), scratch[..], mark, n, seen, k);
    }

    method AllSeen(mark: nat, n: nat, ghost seen: set<nat>) returns (all: bool)
      requires Frame(scratch[..], mark, n, seen)
      ensures all <==> forall k :: 0 <= k < n ==> k in seen
    {
      var i := 0;
      while i < n
        invariant 0 <= i <= n
        invariant forall k :: 0 <= k < i ==> k in seen
      {
        ByteOf(n, i);
        assert Bit(scratch[..], mark, i) <==> i in seen;
        if scratch[mark + i / 8] & Mask(i % 8) == 0 {
          return false;
        }
        i := i + 1;
      }
      return true;
    }

    /** Decodes the value of field `k` unless it was seen before, and marks it. */
    method DecodeField(s: Shape, mark: nat, k: nat, values: seq<Value>, ghost seen: set<nat>) returns (status: Status, values': seq<Value>)
      requires Valid() && !faulted && s.Struct? && WellFormed(s) && k < |s.fields| == |values|
      requires used == mark + BitmapBytes(|s.fields|) && Frame(scratch[..], mark, |s.fields|, seen) && Filling(s, seen, values)
      requires used + Scratch(s.fields[k]) <= scratch.Length && WellFormed(s.fields[k])
      modifies this`position, this`used, this`calls, this`faulted, scratch
      ensures Valid() && used == old(used) && scratch[..mark] == old(scratch[..mark])
      ensures |values'| == |values| && Filling(s, seen + {k}, values')
      ensures status.Ok? ==> !faulted && Frame(scratch[..], mark, |s.fields|, seen + {k})
      ensures k in seen ==> status == DuplicateField && !faulted
      ensures k !in seen ==>
                && values' == values[k := values'[k]]
                && Settles(Parse(context, s.fields[k], tokens, old(position)), faulted, status, values'[k], position)
      decreases s, 0
    {
      hide Parse, HasShape, WellFormed, Scratch, Frame, Filling, BitmapBytes, Mask, MaxScratch, Prepared;
      values' := values;
      FieldAt(s, scratch[..], mark, seen, values, k);
      if scratch[mark + k / 8] & Mask(k % 8) != 0 {
        FillingSeen(s, seen, values, k);
        return DuplicateField, values';
      }
      ghost var bytes := scratch[..];
      var field;
      status, field := DecodeValue(s.fields[k], values[k]);
      FillingMore(s, seen, values, k, field);
      values' := values[k := field];
      assert scratch[..mark] == bytes[..used][..mark];
      if status.Ok? {
        SameFrame(bytes, scratch[..], mark, |s.fields|, seen);
        MarkSeen(mark, |s.fields|, k, seen);
      }
    }

    method DecodeStruct(s: Shape, out: Value) returns (status: Status, out': Value)
      requires Valid() && !faulted && s.Struct? && WellFormed(s) && out == Prepared(s)
      requires used + Scratch(s) <= scratch.Length
      modifies this`position, this`used, this`calls, this`faulted, scratch
      ensures Valid() && used == old(used) && scratch[..used] == old(scratch[..used])
      ensures Settles(Parse(context, s, tokens, old(position)), faulted, status, out', position)
      ensures HasShape(s, out')
      decreases s, 1
    {
      hide Parse, HasShape, WellFormed, Scratch, Frame, Filling, BitmapBytes, Mask, MaxScratch, Prepared;
      FillingStarts(s);
      PreparedHasShape(s);
      StructScratch(s);
      out' := out;
      ghost var parsed := Parse(context, s, tokens, position);
      StructBegin(context, s, tokens, position);
      var token;
      status, token := Read();
      if !status.Ok? {
        return;
      }
      if token != MapBegin {
        return TokenMismatch, out';
      }
      var mark, n := used, |s.fields|;
      if BitmapBytes(n) > scratch.Length - mark {
        return LimitExceeded, out';
      }
      PushFrame(n);
      var values := out.fields;
      ghost var seen: set<nat> := {};
      while true
        invariant Valid() && !faulted && used == mark + BitmapBytes(n) && scratch[..mark] == old(scratch[..used])
        invariant |values| == n && Frame(scratch[..], mark, n, seen) && Filling(s, seen, values)
        invariant ParseFields(context, s, tokens, position, seen, values) == parsed
        decreases |tokens| - position
      {
        status, token := Read();
        if !status.Ok? {
          break;
        }
        if token == MapEnd {
          var all := AllSeen(mark, n, seen);
          status := if all then Ok else MissingField;
          break;
        }
        if !token.StringToken? {
          status := TokenMismatch;
          break;
        }
        var found := FirstIndex(s.names, token.text, 0);
        if found.None? {
          status := UnknownField;
          break;
        }
        var k := found.value;
        StructFields(s, k);
        status, values := DecodeField(s, mark, k, values, seen);
        if !status.Ok? {
          seen := seen + {k};
          break;
        }
        seen := seen + {k};
      }
      used := mark;
      out' := RecordVal(values);
      FillingHasShape(s, seen, values);
    }

    method DecodeVariant(s: Shape, out: Value) returns (status: Status, out': Value)
      requires Valid() && !faulted && s.Variant? && WellFormed(s) && out == Prepared(s)
      requires used + Scratch(s) <= scratch.Length
      modifies this`position, this`used, this`calls, this`faulted, scratch
      ensures Valid() && used == old(used) && scratch[..used] == old(scratch[..used])
      ensures Settles(Parse(context, s, tokens, old(position)), faulted, status, out', position)
      ensures HasShape(s, out')
      decreases s, 0
    {
      hide AdmitTag, Parse, HasShape, WellFormed, Scratch, Prepared, Zero;
      VariantBegin(context, s, tokens, position);
      PreparedHasShape(s);
      out' := out;
      var token;
      status, token := Read();
      if !status.Ok? {
        return;
      }
      if token != ArrayBegin {
        return TokenMismatch, out';
      }
      status, token := Read();
      if !status.Ok? {
        return;
      }
      var tag := AdmitTag(s.tag, token);
      if tag.Refused? {
        return tag.status, out';
      }
      var found := FirstIndex(s.tags, tag.value, 0);
      if found.None? {
        return ValueOutOfRange, out';
      }
      var k := found.value;
      VariantCase(s, k);
      var ok := Call();
      if !ok {
        return TargetError, out';
      }
      var payload := Zero(s.cases[k]);
      if s.cases[k].Struct? {
        ok, payload := Prepare(s.cases[k], payload);
        if !ok {
          CaseHasShape(s, k, payload);
          return TargetError, CaseVal(k, payload);
        }
      }
      status, payload := DecodeValue(s.cases[k], payload);
      out' := CaseVal(k, payload);
      CaseHasShape(s, k, payload);
      if !status.Ok? {
        return;
      }
      status, token := Read();
      if !status.Ok? {
        return;
      }
      if token != ArrayEnd {
        return TokenMismatch, out';
      }
    }

    /** Decodes one value into prepared storage. With the scratch memory the preflight asks for,
        the result is that of reading the stream, enclosing frames keep their bits, and the
        frames pushed on the way are popped again. */
    method DecodeValue(s: Shape, out: Value) returns (status: Status, out': Value)
      requires Valid() && !faulted && WellFormed(s) && out == Prepared(s)
      requires used + Scratch(s) <= scratch.Length
      modifies this`position, this`used, this`calls, this`faulted, scratch
      ensures Valid() && used == old(used) && scratch[..used] == old(scratch[..used])
      ensures Settles(Parse(context, s, tokens, old(position)), faulted, status, out', position)
      ensures HasShape(s, out')
      decreases s, 2
    {
      match s
      case Struct(_, _) => status, out' := DecodeStruct(s, out);
      case Variant(_, _, _) => status, out' := DecodeVariant(s, out);
      case Container(LinearKind(element)) => status, out' := DecodeItems(element);
      case Container(MapKind(key, mapped)) => status, out' := DecodeEntries(key, mapped);
      case Scalar(kind) => status, out' := DecodeScalar(kind, out);
    }

    method DecodeScalar(kind: ScalarKind, out: Value) returns (status: Status, out': Value)
      requires Valid() && !faulted && out == Prepared(Scalar(kind))
      modifies this`position, this`calls, this`faulted
      ensures Valid()
      ensures Settles(Parse(context, Scalar(kind), tokens, old(position)), faulted, status, out', position)
      ensures HasShape(Scalar(kind), out')
    {
      out' := out;
      var token;
      status, token := Read();
      if !status.Ok? {
        return;
      }
      var one := Admit(context, kind, token);
      if one.Refused? {
        return one.status, out';
      }
      if kind.EnumKind? || kind.TextKind? || kind.BytesKind? {
        var ok := Call();
        if !ok {
          return TargetError, out';
        }
      }
      return Ok, one.value;
    }
  }

  lemma {:induction false} ZeroFields(s: Shape)
    requires s.Struct?
    ensures Zero(s).RecordVal? && Preparing(s, Zero(s).fields, 0)
  {
  }

  lemma {:induction false} PreparedKinds(s: Shape)
    ensures s.Container? ==> Prepared(s) == Bound && HasShape(s, Bound)
    ensures !s.Container? && !s.Struct? ==> Prepared(s) == Zero(s)
    ensures HasShape(s, Zero(s))
  {
    ZeroHasShape(s);
  }

  // ----- a whole decode

  /** Decodes into `out`. Nothing happens unless the descriptor is admissible and the
      destination empty; then either the destination holds the value the stream begins with,
      or it is empty again, whatever failed: the stream, its source or an adapter. */
  method Decode(t: Table, id: nat, maxDepth: nat, context: Context, tokens: seq<Token>, scratch: array<bv8>,
                faults: nat -> bool, out: Value)
    returns (status: Status, out': Value, position: nat, faulted: bool)
    requires id < |t| && scratch.Length <= SIZE_MAX
    modifies scratch
    ensures faulted ==> exists k: nat :: faults(k)
    ensures !Admissible(t, id, maxDepth, scratch.Length) ==> !status.Ok? && out' == out && position == 0 && !faulted
    ensures Admissible(t, id, maxDepth, scratch.Length) ==>
              var s := Unfold(t, id, maxDepth, false).value;
              && WellFormed(s)
              && (!IsEmpty(s, out) ==> status == DestinationNotEmpty && out' == out && position == 0 && !faulted)
              && (IsEmpty(s, out) ==>
                    && Settles(Parse(context, s, tokens, 0), faulted, status, out', position)
                    && (!status.Ok? ==> IsEmpty(s, out')))
  {
    hide Parse, Scratch;
    out', position, faulted := out, 0, false;
    status := Preflight(t, id, maxDepth, scratch.Length);
    if !status.Ok? {
      return;
    }
    var s := Unfold(t, id, maxDepth, false).value;
    UnfoldWellFormed(t, id, maxDepth, false);
    EmptyIsZero(s, out);
    if !IsEmpty(s, out) {
      return DestinationNotEmpty, out', 0, false;
    }
    var decoder := new Decoder(context, tokens, scratch, faults);
    if s.Struct? {
      var ok;
      ok, out' := decoder.Prepare(s, out');
      if !ok {
        status := TargetError;
      }
    }
    if status.Ok? {
      PreparedKinds(s);
      UnfoldNoContainer(t, id, maxDepth);
      status, out' := decoder.DecodeValue(s, out');
    }
    position, faulted := decoder.position, decoder.faulted;
    if !status.Ok? {
      out' := Reset(s, out');
      EmptyIsZero(s, out');
    }
  }

  lemma {:induction false} UnfoldNoContainer(t: Table, id: nat, fuel: nat)
    requires Unfold(t, id, fuel, false).Some?
    ensures !Unfold(t, id, fuel, false).value.Container?
  {
  }

  /** Success said without the decoder: some prefix of the stream encodes the value stored. */
  lemma {:induction false} DecodedExactly(t: Table, id: nat, maxDepth: nat, context: Context, tokens: seq<Token>, size: nat, v: Value, next: nat)
    requires Admissible(t, id, maxDepth, size)
    ensures var s := Unfold(t, id, maxDepth, false).value;
            && WellFormed(s)
            && (Parse(context, s, tokens, 0) == Parsed(v, next) <==> next <= |tokens| && Encodes(context, s, tokens[..next], v))
  {
    var s := Unfold(t, id, maxDepth, false).value;
    UnfoldWellFormed(t, id, maxDepth, false);
    ParseExact(context, s, tokens, 0, v, next);
    if next <= |tokens| {
      assert tokens[0..next] == tokens[..next];
    }
  }
}
