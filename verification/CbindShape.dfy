/** Data descriptors, which may refer to each other in any way, and the preflight that admits
only those a decoder can follow: the ones that unfold to a finite tree within the depth limit
and whose seen-field bitmaps fit the caller's scratch memory. */
module CbindShape {
  import opened Basics
  import opened CbindScalar

  datatype EnumItem = EnumItem(text: string, symbol: string, value: int)

  datatype ScalarKind =
    | BoolKind
    | SintKind(bits: Width)
    | UintKind(bits: Width)
    | FloatKind(single: bool)
    | EnumKind(items: seq<EnumItem>)
    | TextKind(borrowed: bool)
    | BytesKind(borrowed: bool)

  datatype ContainerKind = LinearKind(element: ScalarKind) | MapKind(key: ScalarKind, mapped: ScalarKind)

  datatype TagKind = EnumTag(items: seq<EnumItem>) | SintTag(bits: Width) | UintTag(bits: Width)

  // ----- descriptors

  /** Size and alignment of stored values. */
  datatype Storage = Storage(size: nat, align: nat)

  /** What the struct's layout says about a field. */
  datatype Reflection = Reflection(offset: nat, storage: Storage)

  /** A field, and its reflection if the layout has a field of its name. */
  datatype Field = Field(name: string, value: nat, offset: nat, reflection: Option<Reflection>)

  datatype Case = Case(tag: int, value: nat, offset: nat)

  /** A descriptor. `check` is the verdict of the checks that concern this descriptor alone.
      A value that is not an index into the table stands for a null pointer. */
  datatype Desc =
    | ScalarDesc(kind: ScalarKind, storage: Storage, check: Status)
    | ContainerDesc(container: ContainerKind, check: Status)
    | StructDesc(fields: seq<Field>, storage: Storage, check: Status)
    | VariantDesc(tag: TagKind, cases: seq<Case>, storage: Storage, tagOffset: nat, tagStorage: Storage, check: Status)
    | CustomDesc

  type Table = seq<Desc>

  // ----- shapes

  /** A descriptor unfolded to a tree. */
  datatype Shape =
    | Scalar(kind: ScalarKind)
    | Container(container: ContainerKind)
    | Struct(names: seq<string>, fields: seq<Shape>)
    | Variant(tag: TagKind, tags: seq<int>, cases: seq<Shape>)

  predicate TagValid(tag: TagKind, v: int) {
    match tag
    case EnumTag(items) => exists i :: 0 <= i < |items| && items[i].value == v
    case SintTag(bits) => bits == 64 || 0 - Pow2(bits - 1) <= v < Pow2(bits - 1)
    case UintTag(bits) => v >= 0 && (bits == 64 || v < Pow2(bits))
  }

  // ----- layout

  /** The storage of a value; a container's is known to the field that holds it. */
  function StorageOf(d: Desc): Storage {
    match d
    case ScalarDesc(_, storage, _) => storage
    case StructDesc(_, storage, _) => storage
    case VariantDesc(_, _, storage, _, _, _) => storage
    case _ => Storage(0, 0)
  }

  predicate Reflected(f: Field) {
    f.reflection.Some? && f.reflection.value.offset == f.offset
  }

  /** The field has the storage of its value and lies within the struct. */
  predicate FieldFits(t: Table, whole: Storage, f: Field) {
    && f.reflection.Some? && f.value < |t|
    && (t[f.value].ContainerDesc? || f.reflection.value.storage == StorageOf(t[f.value]))
    && f.offset <= whole.size && f.reflection.value.storage.size <= whole.size - f.offset
  }

  predicate MemberFits(whole: Storage, offset: nat, member: Storage) {
    && whole.align != 0 && member.align != 0 && whole.align % member.align == 0
    && offset % member.align == 0 && offset <= whole.size
    && member.size <= whole.size - offset
  }

  predicate MembersOverlap(a: nat, first: Storage, b: nat, second: Storage) {
    first.size != 0 && second.size != 0 && a < b + second.size && b < a + first.size
  }

  predicate Occupies(byte: nat, offset: nat, member: Storage) {
    offset <= byte < offset + member.size
  }

  /** The overlap test is right: it holds exactly when some byte belongs to both members. */
  lemma {:induction false} OverlapMeansSharedByte(a: nat, first: Storage, b: nat, second: Storage)
    ensures MembersOverlap(a, first, b, second) <==>
              exists byte: nat :: Occupies(byte, a, first) && Occupies(byte, b, second)
  {
    if MembersOverlap(a, first, b, second) {
      var byte := if a <= b then b else a;
      assert Occupies(byte, a, first) && Occupies(byte, b, second);
    }
  }

  predicate TagFits(d: Desc)
    requires d.VariantDesc?
  {
    MemberFits(d.storage, d.tagOffset, d.tagStorage)
  }

  /** The case lies within the variant and beside its tag. */
  predicate CaseFits(t: Table, d: Desc, c: Case)
    requires d.VariantDesc?
  {
    && c.value < |t| && MemberFits(d.storage, c.offset, StorageOf(t[c.value]))
    && !MembersOverlap(d.tagOffset, d.tagStorage, c.offset, StorageOf(t[c.value]))
  }

  predicate FieldsOk(t: Table, d: Desc)
    requires d.StructDesc?
  {
    && (forall i :: 0 <= i < |d.fields| ==> Reflected(d.fields[i]) && FieldFits(t, d.storage, d.fields[i]))
    && (forall i, j :: 0 <= j < i < |d.fields| ==> d.fields[j].name != d.fields[i].name)
  }

  predicate CasesOk(t: Table, d: Desc)
    requires d.VariantDesc?
  {
    forall i :: 0 <= i < |d.cases| ==> TagValid(d.tag, d.cases[i].tag) && CaseFits(t, d, d.cases[i])
  }

  // ----- unfolding

  /** The tree below descriptor `id`, if there is one that is nowhere deeper than `fuel` structs
      and variants. Containers occur as fields of structs only. */
  function Unfold(t: Table, id: nat, fuel: nat, asField: bool): (r: Option<Shape>)
    decreases fuel
  {
    if id >= |t| then None
    else
      match t[id]
      case ScalarDesc(kind, _, check) => if check.Ok? then Some(Scalar(kind)) else None
      case ContainerDesc(kind, check) => if asField && check.Ok? then Some(Container(kind)) else None
      case StructDesc(fs, _, check) =>
        if fuel > 0 && check.Ok? && FieldsOk(t, t[id]) &&
           forall i :: 0 <= i < |fs| ==> Unfold(t, fs[i].value, fuel - 1, true).Some?
        then
          Some(Struct(seq(|fs|, i requires 0 <= i < |fs| => fs[i].name),
                      seq(|fs|, i requires 0 <= i < |fs| => Unfold(t, fs[i].value, fuel - 1, true).value)))
        else None
      case VariantDesc(tag, cs, _, _, _, check) =>
        if fuel > 0 && check.Ok? && TagFits(t[id]) && CasesOk(t, t[id]) &&
           forall i :: 0 <= i < |cs| ==> Unfold(t, cs[i].value, fuel - 1, false).Some?
        then
          Some(Variant(tag, seq(|cs|, i requires 0 <= i < |cs| => cs[i].tag),
                       seq(|cs|, i requires 0 <= i < |cs| => Unfold(t, cs[i].value, fuel - 1, false).value)))
        else None
      case CustomDesc => None
  }

  /** Trees with distinct field names, lists that match, and containers as fields only. */
  predicate WellFormed(s: Shape) {
    match s
    case Struct(names, fields) =>
      && |names| == |fields|
      && (forall i, j :: 0 <= j < i < |names| ==> names[j] != names[i])
      && (forall i :: 0 <= i < |fields| ==> WellFormed(fields[i]))
    case Variant(_, tags, cases) =>
      && |tags| == |cases|
      && (forall i :: 0 <= i < |cases| ==> !cases[i].Container? && WellFormed(cases[i]))
    case _ => true
  }

  lemma {:induction false} UnfoldWellFormed(t: Table, id: nat, fuel: nat, asField: bool)
    requires Unfold(t, id, fuel, asField).Some?
    ensures WellFormed(Unfold(t, id, fuel, asField).value)
    decreases fuel
  {
    match t[id]
    case StructDesc(fs, _, _) =>
      forall i | 0 <= i < |fs| ensures WellFormed(Unfold(t, fs[i].value, fuel - 1, true).value) {
        UnfoldWellFormed(t, fs[i].value, fuel - 1, true);
      }
    case VariantDesc(_, cs, _, _, _, _) =>
      forall i | 0 <= i < |cs| ensures var c := Unfold(t, cs[i].value, fuel - 1, false).value; WellFormed(c) && !c.Container? {
        UnfoldWellFormed(t, cs[i].value, fuel - 1, false);
      }
    case _ =>
  }

  // ----- nesting

  /** Descriptor `b` is the value of a field or case of struct or variant `a`. */
  predicate Child(t: Table, a: nat, b: nat) {
    && a < |t|
    && match t[a]
       case StructDesc(fs, _, _) => exists i :: 0 <= i < |fs| && fs[i].value == b
       case VariantDesc(_, cs, _, _, _, _) => exists i :: 0 <= i < |cs| && cs[i].value == b
       case _ => false
  }

  predicate Chain(t: Table, p: seq<nat>) {
    |p| > 0 && forall i :: 0 <= i < |p| - 1 ==> Child(t, p[i], p[i + 1])
  }

  lemma {:induction false} ChildUnfolds(t: Table, a: nat, b: nat, fuel: nat, asField: bool) returns (bAsField: bool)
    requires Unfold(t, a, fuel, asField).Some? && Child(t, a, b)
    ensures fuel > 0 && Unfold(t, b, fuel - 1, bAsField).Some?
  {
    match t[a]
    case StructDesc(fs, _, _) =>
      var i :| 0 <= i < |fs| && fs[i].value == b;
      bAsField := true;
    case VariantDesc(_, cs, _, _, _, _) =>
      var i :| 0 <= i < |cs| && cs[i].value == b;
      bAsField := false;
  }

  lemma {:induction false} ChainUnfolds(t: Table, p: seq<nat>, fuel: nat, asField: bool) returns (lastAsField: bool)
    requires Chain(t, p) && Unfold(t, p[0], fuel, asField).Some?
    ensures |p| - 1 <= fuel && Unfold(t, p[|p| - 1], fuel - (|p| - 1), lastAsField).Some?
    decreases |p|
  {
    if |p| == 1 {
      lastAsField := asField;
    } else {
      assert Child(t, p[0], p[1]);
      var next := ChildUnfolds(t, p[0], p[1], fuel, asField);
      assert Chain(t, p[1..]) by {
        forall i | 0 <= i < |p[1..]| - 1 ensures Child(t, p[1..][i], p[1..][i + 1]) {
          assert Child(t, p[i + 1], p[i + 2]);
        }
      }
      lastAsField := ChainUnfolds(t, p[1..], fuel - 1, next);
    }
  }

  /** A descriptor on a cycle unfolds to no finite tree, whatever the depth. */
  lemma {:induction false} CycleNeverUnfolds(t: Table, p: seq<nat>, fuel: nat, asField: bool)
    requires Chain(t, p) && |p| > 1 && p[0] == p[|p| - 1]
    ensures Unfold(t, p[0], fuel, asField).None?
    decreases fuel
  {
    if Unfold(t, p[0], fuel, asField).Some? {
      var again := ChainUnfolds(t, p, fuel, asField);
      CycleNeverUnfolds(t, p, fuel - (|p| - 1), again);
    }
  }

  // ----- scratch memory

  function BitmapBytes(fieldCount: nat): nat {
    fieldCount / 8 + (if fieldCount % 8 != 0 then 1 else 0)
  }

  function Max(a: nat, b: nat): nat {
    if a >= b then a else b
  }

  /** The largest sum of bitmaps alive at once while a value of this shape is decoded. */
  function Scratch(s: Shape): nat {
    match s
    case Struct(_, fields) => BitmapBytes(|fields|) + MaxScratch(fields)
    case Variant(_, _, cases) => MaxScratch(cases)
    case _ => 0
  }

  function MaxScratch(ss: seq<Shape>): nat {
    if ss == [] then 0 else Max(MaxScratch(ss[..|ss| - 1]), Scratch(ss[|ss| - 1]))
  }

  lemma {:induction false} MaxScratchHas(ss: seq<Shape>, i: nat)
    requires i < |ss|
    ensures Scratch(ss[i]) <= MaxScratch(ss)
  {
    if i < |ss| - 1 {
      MaxScratchHas(ss[..|ss| - 1], i);
    }
  }

  /** Room for one bit per field, in whole bytes and no more. */
  lemma {:induction false} BitmapIsTight(n: nat)
    ensures n <= 8 * BitmapBytes(n) < n + 8
  {
  }

  function Children(s: Shape): seq<Shape> {
    match s
    case Struct(_, fields) => fields
    case Variant(_, _, cases) => cases
    case _ => []
  }

  /** Each shape on the path is a field or a case of the one before. */
  predicate Nesting(p: seq<Shape>) {
    |p| > 0 && forall i :: 0 <= i < |p| - 1 ==> p[i + 1] in Children(p[i])
  }

  /** The bitmaps alive at once when the decoder is at the end of the path. */
  function FrameSum(p: seq<Shape>): nat {
    if p == [] then 0 else (if p[0].Struct? then BitmapBytes(|p[0].fields|) else 0) + FrameSum(p[1..])
  }

  lemma {:induction false} NestingTail(p: seq<Shape>)
    requires Nesting(p) && |p| > 1
    ensures Nesting(p[1..]) && p[1] in Children(p[0])
  {
    assert p[0 + 1] in Children(p[0]);
    forall i | 0 <= i < |p[1..]| - 1 ensures p[1..][i + 1] in Children(p[1..][i]) {
      assert p[i + 1 + 1] in Children(p[i + 1]);
    }
  }

  /** No path needs more than is measured. */
  lemma {:induction false} ScratchSuffices(p: seq<Shape>)
    requires Nesting(p)
    ensures FrameSum(p) <= Scratch(p[0])
    decreases |p|
  {
    if |p| > 1 {
      NestingTail(p);
      ScratchSuffices(p[1..]);
      var i :| 0 <= i < |Children(p[0])| && Children(p[0])[i] == p[1];
      MaxScratchHas(Children(p[0]), i);
    } else {
      assert p[1..] == [];
    }
  }

  /** Some path needs all that is measured: it is the largest nested sum of bitmaps. */
  lemma {:induction false} ScratchIsNeeded(s: Shape) returns (p: seq<Shape>)
    ensures Nesting(p) && p[0] == s && FrameSum(p) == Scratch(s)
    decreases s, 1
  {
    var cs := Children(s);
    p := [s];
    assert p[1..] == [];
    if cs != [] && MaxScratch(cs) > 0 {
      var k := LargestChild(cs);
      var q := ScratchIsNeeded(cs[k]);
      p := [s] + q;
      assert p[1..] == q;
      forall i | 0 <= i < |p| - 1 ensures p[i + 1] in Children(p[i]) {
        assert i > 0 ==> q[i - 1 + 1] in Children(q[i - 1]);
      }
    }
  }

  lemma {:induction false} LargestChild(cs: seq<Shape>) returns (k: nat)
    requires MaxScratch(cs) > 0
    ensures k < |cs| && Scratch(cs[k]) == MaxScratch(cs)
  {
    if Scratch(cs[|cs| - 1]) == MaxScratch(cs) {
      k := |cs| - 1;
    } else {
      k := LargestChild(cs[..|cs| - 1]);
    }
  }

  /** Bitmaps of variants nested in structs are measured on their own as well. */
  predicate VariantsFit(s: Shape, limit: nat) {
    match s
    case Struct(_, fields) => forall i :: 0 <= i < |fields| ==> VariantsFit(fields[i], limit)
    case Variant(_, _, cases) =>
      Scratch(s) <= limit && forall i :: 0 <= i < |cases| ==> VariantsFit(cases[i], limit)
    case _ => true
  }

  lemma {:induction false} FitsWhole(s: Shape, limit: nat)
    requires Scratch(s) <= limit
    ensures VariantsFit(s, limit)
  {
    match s
    case Struct(_, fields) =>
      forall i | 0 <= i < |fields| ensures VariantsFit(fields[i], limit) {
        MaxScratchHas(fields, i);
        FitsWhole(fields[i], limit);
      }
    case Variant(_, _, cases) =>
      forall i | 0 <= i < |cases| ensures VariantsFit(cases[i], limit) {
        MaxScratchHas(cases, i);
        FitsWhole(cases[i], limit);
      }
    case _ =>
  }

  /** In a variant that unfolds, every byte of a case lies in the variant and is no byte of the
      tag; in a struct, every byte of a field lies in the struct. */
  lemma {:induction false} LayoutIsSound(t: Table, id: nat, fuel: nat, asField: bool, k: nat, byte: nat)
    requires Unfold(t, id, fuel, asField).Some?
    ensures t[id].VariantDesc? && k < |t[id].cases| ==>
              var c := t[id].cases[k];
              && c.value < |t|
              && (Occupies(byte, c.offset, StorageOf(t[c.value])) ==>
                    byte < t[id].storage.size && !Occupies(byte, t[id].tagOffset, t[id].tagStorage))
    ensures t[id].StructDesc? && k < |t[id].fields| ==>
              var f := t[id].fields[k];
              f.reflection.Some? && (Occupies(byte, f.offset, f.reflection.value.storage) ==> byte < t[id].storage.size)
  {
    if t[id].VariantDesc? && k < |t[id].cases| {
      var c := t[id].cases[k];
      assert CaseFits(t, t[id], c);
      OverlapMeansSharedByte(t[id].tagOffset, t[id].tagStorage, c.offset, StorageOf(t[c.value]));
    }
    if t[id].StructDesc? && k < |t[id].fields| {
      assert FieldFits(t, t[id].storage, t[id].fields[k]);
    }
  }
}
