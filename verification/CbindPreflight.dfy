/** The preflight as it is run: recursive checks of structs and variants with a depth and a
chain of enclosing descriptors, and a second pass that measures scratch memory. */
module CbindPreflight {
  import opened Basics
  import opened CbindScalar
  import opened CbindShape

  const SIZE_MAX: nat := UINT64_MAX

  /** How many structs and variants may still be entered. */
  function Left(maxDepth: nat, depth: nat): nat {
    if depth < maxDepth then maxDepth - depth else 0
  }

  /** Descriptor `id` unfolds below `depth` and the bitmaps of its nested variants can be
      counted. */
  predicate Sound(t: Table, maxDepth: nat, id: nat, depth: nat, asField: bool) {
    && Unfold(t, id, Left(maxDepth, depth), asField).Some?
    && VariantsFit(Unfold(t, id, Left(maxDepth, depth), asField).value, SIZE_MAX)
  }

  function ShapeOf(t: Table, maxDepth: nat, id: nat, depth: nat, asField: bool): Shape
    requires Unfold(t, id, Left(maxDepth, depth), asField).Some?
  {
    Unfold(t, id, Left(maxDepth, depth), asField).value
  }

  lemma {:induction false} OnCycle(t: Table, maxDepth: nat, frames: seq<nat>, id: nat, depth: nat, asField: bool)
    requires Chain(t, frames + [id]) && id in frames
    ensures !Sound(t, maxDepth, id, depth, asField)
  {
    var i :| 0 <= i < |frames| && frames[i] == id;
    var p := frames[i..] + [id];
    forall k | 0 <= k < |p| - 1 ensures Child(t, p[k], p[k + 1]) {
      assert Child(t, (frames + [id])[i + k], (frames + [id])[i + k + 1]);
    }
    CycleNeverUnfolds(t, p, Left(maxDepth, depth), asField);
  }

  lemma {:induction false} ChainMore(t: Table, frames: seq<nat>, id: nat, child: nat)
    requires Chain(t, frames + [id]) && Child(t, id, child)
    ensures Chain(t, frames + [id] + [child])
  {
    var p := frames + [id] + [child];
    forall k | 0 <= k < |p| - 1 ensures Child(t, p[k], p[k + 1]) {
      if k < |frames| {
        assert Child(t, (frames + [id])[k], (frames + [id])[k + 1]);
      }
    }
  }

  lemma {:induction false} StructUnfolds(t: Table, id: nat, fuel: nat)
    requires id < |t| && t[id].StructDesc? && Unfold(t, id, fuel, true).Some?
    ensures var s, fs := Unfold(t, id, fuel, true).value, t[id].fields;
            && fuel > 0 && s.Struct? && |s.fields| == |fs|
            && t[id].check.Ok? && FieldsOk(t, t[id])
            && (forall i :: 0 <= i < |fs| ==> Unfold(t, fs[i].value, fuel - 1, true) == Some(s.fields[i]))
  {
    hide FieldsOk, Unfold;
    StructBody(t, id, fuel);
  }

  lemma {:induction false} StructBody(t: Table, id: nat, fuel: nat)
    requires id < |t| && t[id].StructDesc? && Unfold(t, id, fuel, true).Some?
    ensures var fs := t[id].fields;
            && fuel > 0 && t[id].check.Ok? && FieldsOk(t, t[id])
            && (forall i :: 0 <= i < |fs| ==> Unfold(t, fs[i].value, fuel - 1, true).Some?)
            && Unfold(t, id, fuel, true).value ==
                 Struct(seq(|fs|, i requires 0 <= i < |fs| => fs[i].name),
                        seq(|fs|, i requires 0 <= i < |fs| => Unfold(t, fs[i].value, fuel - 1, true).value))
  {
  }

  lemma {:induction false} StructParts(t: Table, maxDepth: nat, id: nat, depth: nat)
    requires id < |t| && t[id].StructDesc? && Unfold(t, id, Left(maxDepth, depth), true).Some?
    ensures var s, fs := ShapeOf(t, maxDepth, id, depth, true), t[id].fields;
            && depth < maxDepth && s.Struct? && |s.fields| == |fs|
            && t[id].check.Ok? && FieldsOk(t, t[id])
            && Scratch(s) == BitmapBytes(|fs|) + MaxScratch(s.fields)
            && (VariantsFit(s, SIZE_MAX) <==> forall i :: 0 <= i < |fs| ==> VariantsFit(s.fields[i], SIZE_MAX))
            && (forall i :: 0 <= i < |fs| ==> Unfold(t, fs[i].value, Left(maxDepth, depth + 1), true) == Some(s.fields[i]))
  {
    hide Unfold, FieldsOk, MaxScratch, BitmapBytes;
    StructUnfolds(t, id, Left(maxDepth, depth));
  }

  lemma {:induction false} VariantUnfolds(t: Table, id: nat, fuel: nat)
    requires id < |t| && t[id].VariantDesc? && Unfold(t, id, fuel, false).Some?
    ensures var s, cs := Unfold(t, id, fuel, false).value, t[id].cases;
            && fuel > 0 && s.Variant? && |s.cases| == |cs|
            && t[id].check.Ok? && TagFits(t[id]) && CasesOk(t, t[id])
            && (forall i :: 0 <= i < |cs| ==> Unfold(t, cs[i].value, fuel - 1, false) == Some(s.cases[i]))
  {
    hide CasesOk;
  }

  lemma {:induction false} VariantParts(t: Table, maxDepth: nat, id: nat, depth: nat)
    requires id < |t| && t[id].VariantDesc? && Unfold(t, id, Left(maxDepth, depth), false).Some?
    ensures var s, cs := ShapeOf(t, maxDepth, id, depth, false), t[id].cases;
            && depth < maxDepth && s.Variant? && |s.cases| == |cs|
            && t[id].check.Ok? && TagFits(t[id]) && CasesOk(t, t[id])
            && Scratch(s) == MaxScratch(s.cases)
            && (VariantsFit(s, SIZE_MAX) <==>
                  Scratch(s) <= SIZE_MAX && forall i :: 0 <= i < |cs| ==> VariantsFit(s.cases[i], SIZE_MAX))
            && (forall i :: 0 <= i < |cs| ==> Unfold(t, cs[i].value, Left(maxDepth, depth + 1), false) == Some(s.cases[i]))
  {
    hide Unfold, CasesOk, MaxScratch;
    VariantUnfolds(t, id, Left(maxDepth, depth));
  }

  /** A struct all of whose fields are sound is sound. */
  lemma {:induction false} StructSound(t: Table, maxDepth: nat, id: nat, depth: nat)
    requires id < |t| && t[id].StructDesc? && depth < maxDepth && t[id].check.Ok? && FieldsOk(t, t[id])
    requires forall i :: 0 <= i < |t[id].fields| ==> Sound(t, maxDepth, t[id].fields[i].value, depth + 1, true)
    ensures Sound(t, maxDepth, id, depth, true)
  {
    var fs := t[id].fields;
    forall i | 0 <= i < |fs| ensures Unfold(t, fs[i].value, Left(maxDepth, depth) - 1, true).Some? {
      assert Sound(t, maxDepth, fs[i].value, depth + 1, true);
    }
    StructParts(t, maxDepth, id, depth);
    var s := ShapeOf(t, maxDepth, id, depth, true);
    forall i | 0 <= i < |fs| ensures VariantsFit(s.fields[i], SIZE_MAX) {
      assert Sound(t, maxDepth, fs[i].value, depth + 1, true);
    }
  }

  /** Every field of a sound struct is in order. */
  lemma {:induction false} FieldOfSound(t: Table, maxDepth: nat, id: nat, depth: nat, i: nat)
    requires id < |t| && t[id].StructDesc? && Sound(t, maxDepth, id, depth, true) && i < |t[id].fields|
    ensures var f := t[id].fields[i];
            && Reflected(f) && FieldFits(t, t[id].storage, f) && f.value < |t| && Sound(t, maxDepth, f.value, depth + 1, true)
            && forall j :: 0 <= j < i ==> t[id].fields[j].name != f.name
  {
    StructParts(t, maxDepth, id, depth);
  }

  // ----- measuring

  method MeasureStruct(t: Table, maxDepth: nat, id: nat, depth: nat, active: nat, max: nat) returns (status: Status, max': nat)
    requires id < |t| && t[id].StructDesc? && Unfold(t, id, Left(maxDepth, depth), true).Some?
    requires active <= max && active <= SIZE_MAX
    ensures status.Ok? <==> active + Scratch(ShapeOf(t, maxDepth, id, depth, true)) <= SIZE_MAX
    ensures status.Ok? ==> max' == Max(max, active + Scratch(ShapeOf(t, maxDepth, id, depth, true)))
    decreases Left(maxDepth, depth)
  {
    hide Unfold, VariantsFit, BitmapBytes, Scratch, MaxScratch, FieldsOk;
    NoScratch();
    StructParts(t, maxDepth, id, depth);
    var fs := t[id].fields;
    var frameBytes := BitmapBytes(|fs|);
    max' := max;
    if depth + 1 > maxDepth {
      return LimitExceeded, max';
    }
    ghost var shapes := ShapeOf(t, maxDepth, id, depth, true).fields;
    if active > SIZE_MAX - frameBytes {
      return LimitExceeded, max';
    }
    var nextActive := active + frameBytes;
    max' := Max(max', nextActive);
    var i := 0;
    while i < |fs|
      invariant 0 <= i <= |fs|
      invariant nextActive + MaxScratch(shapes[..i]) <= SIZE_MAX
      invariant max' == Max(max, nextActive + MaxScratch(shapes[..i]))
    {
      var child := fs[i].value;
      assert Unfold(t, child, Left(maxDepth, depth + 1), true) == Some(shapes[i]);
      MeasureOne(t, child, Left(maxDepth, depth + 1), shapes, i);
      if t[child].StructDesc? {
        status, max' := MeasureStruct(t, maxDepth, child, depth + 1, nextActive, max');
        if !status.Ok? {
          return;
        }
      } else if t[child].VariantDesc? {
        VariantAnywhere(t, child, Left(maxDepth, depth + 1));
        status, max' := MeasureVariant(t, maxDepth, child, depth + 1, nextActive, max');
        if !status.Ok? {
          return;
        }
      }
      i := i + 1;
    }
    assert shapes[..i] == shapes;
    status := Ok;
  }

  /** One more entry of a list of shapes; only structs and variants weigh anything. */
  lemma {:induction false} MeasureOne(t: Table, child: nat, fuel: nat, shapes: seq<Shape>, i: nat)
    requires i < |shapes|
    requires Unfold(t, child, fuel, true) == Some(shapes[i]) || Unfold(t, child, fuel, false) == Some(shapes[i])
    ensures child < |t|
    ensures MaxScratch(shapes[..i + 1]) == Max(MaxScratch(shapes[..i]), Scratch(shapes[i]))
    ensures Scratch(shapes[i]) <= MaxScratch(shapes)
    ensures !t[child].StructDesc? && !t[child].VariantDesc? ==> Scratch(shapes[i]) == 0
  {
    assert shapes[..i + 1][..i] == shapes[..i];
    MaxScratchHas(shapes, i);
  }

  lemma {:induction false} VariantAnywhere(t: Table, id: nat, fuel: nat)
    requires id < |t| && (t[id].VariantDesc? || t[id].StructDesc?)
    ensures Unfold(t, id, fuel, true) == Unfold(t, id, fuel, false)
  {
  }

  method MeasureVariant(t: Table, maxDepth: nat, id: nat, depth: nat, active: nat, max: nat) returns (status: Status, max': nat)
    requires id < |t| && t[id].VariantDesc? && Unfold(t, id, Left(maxDepth, depth), false).Some?
    requires active <= max && active <= SIZE_MAX
    ensures status.Ok? <==> active + Scratch(ShapeOf(t, maxDepth, id, depth, false)) <= SIZE_MAX
    ensures status.Ok? ==> max' == Max(max, active + Scratch(ShapeOf(t, maxDepth, id, depth, false)))
    decreases Left(maxDepth, depth)
  {
    hide Unfold, VariantsFit, Scratch, MaxScratch, CasesOk;
    NoScratch();
    VariantParts(t, maxDepth, id, depth);
    var cs := t[id].cases;
    max' := max;
    if depth + 1 > maxDepth {
      return LimitExceeded, max';
    }
    ghost var shapes := ShapeOf(t, maxDepth, id, depth, false).cases;
    var i := 0;
    while i < |cs|
      invariant 0 <= i <= |cs|
      invariant active + MaxScratch(shapes[..i]) <= SIZE_MAX
      invariant max' == Max(max, active + MaxScratch(shapes[..i]))
    {
      var child := cs[i].value;
      assert Unfold(t, child, Left(maxDepth, depth + 1), false) == Some(shapes[i]);
      MeasureOne(t, child, Left(maxDepth, depth + 1), shapes, i);
      if t[child].StructDesc? {
        VariantAnywhere(t, child, Left(maxDepth, depth + 1));
        status, max' := MeasureStruct(t, maxDepth, child, depth + 1, active, max');
        if !status.Ok? {
          return;
        }
      } else if t[child].VariantDesc? {
        status, max' := MeasureVariant(t, maxDepth, child, depth + 1, active, max');
        if !status.Ok? {
          return;
        }
      }
      i := i + 1;
    }
    assert shapes[..i] == shapes;
    status := Ok;
  }

  // ----- validating

  method ValidateStructShape(t: Table, maxDepth: nat, id: nat, depth: nat, frames: seq<nat>) returns (status: Status)
    requires Chain(t, frames + [id])
    ensures status.Ok? <==> id < |t| && t[id].StructDesc? && Sound(t, maxDepth, id, depth, true)
    decreases Left(maxDepth, depth), 0
  {
    hide Unfold, VariantsFit, Chain, Scratch;
    if id < |t| && t[id].StructDesc? && Sound(t, maxDepth, id, depth, true) {
      StructParts(t, maxDepth, id, depth);
    }
    if depth + 1 > maxDepth {
      return LimitExceeded;
    }
    if id >= |t| || !t[id].StructDesc? {
      return InvalidShape;
    }
    if id in frames {
      OnCycle(t, maxDepth, frames, id, depth, true);
      return InvalidShape;
    }
    if !t[id].check.Ok? {
      return InvalidShape;
    }
    var fs := t[id].fields;
    var i := 0;
    while i < |fs|
      invariant 0 <= i <= |fs|
      invariant forall k :: 0 <= k < i ==> Reflected(fs[k]) && FieldFits(t, t[id].storage, fs[k])
      invariant forall k, j :: 0 <= j < k < i ==> fs[j].name != fs[k].name
      invariant forall k :: 0 <= k < i ==> Sound(t, maxDepth, fs[k].value, depth + 1, true)
    {
      var field := fs[i];
      if Sound(t, maxDepth, id, depth, true) {
        FieldOfSound(t, maxDepth, id, depth, i);
      }
      if !Reflected(field) || field.value >= |t| {
        return InvalidShape;
      }
      var j := 0;
      while j < i
        invariant 0 <= j <= i
        invariant forall k :: 0 <= k < j ==> fs[k].name != field.name
      {
        if fs[j].name == field.name {
          return InvalidShape;
        }
        j := j + 1;
      }
      assert Child(t, id, field.value);
      ChainMore(t, frames, id, field.value);
      FieldKinds(t, maxDepth, field.value, depth + 1);
      if t[field.value].StructDesc? {
        status := ValidateStructShape(t, maxDepth, field.value, depth + 1, frames + [id]);
      } else if t[field.value].ContainerDesc? {
        status := t[field.value].check;
      } else {
        var ignored;
        status, ignored := ValidateGraph(t, maxDepth, field.value, depth + 1, frames + [id], 0, 0);
      }
      if !status.Ok? {
        return;
      }
      if !FieldFits(t, t[id].storage, field) {
        return InvalidShape;
      }
      i := i + 1;
    }
    StructSound(t, maxDepth, id, depth);
    status := Ok;
  }

  lemma {:induction false} FieldKinds(t: Table, maxDepth: nat, id: nat, depth: nat)
    requires id < |t|
    ensures t[id].ContainerDesc? ==> (Sound(t, maxDepth, id, depth, true) <==> t[id].check.Ok?)
    ensures !t[id].ContainerDesc? ==>
              Unfold(t, id, Left(maxDepth, depth), true) == Unfold(t, id, Left(maxDepth, depth), false)
    ensures !t[id].ContainerDesc? && !t[id].StructDesc? && Sound(t, maxDepth, id, depth, false) ==>
              Scratch(ShapeOf(t, maxDepth, id, depth, false)) <= SIZE_MAX
  {
  }

  method ValidateGraph(t: Table, maxDepth: nat, id: nat, depth: nat, frames: seq<nat>, active: nat, max: nat)
    returns (status: Status, max': nat)
    requires Chain(t, frames + [id]) && active <= max && active <= SIZE_MAX
    ensures status.Ok? <==>
              && id < |t| && !t[id].StructDesc? && Sound(t, maxDepth, id, depth, false)
              && active + Scratch(ShapeOf(t, maxDepth, id, depth, false)) <= SIZE_MAX
    ensures status.Ok? ==> max' == Max(max, active + Scratch(ShapeOf(t, maxDepth, id, depth, false)))
    decreases Left(maxDepth, depth), 3
  {
    max' := max;
    if id >= |t| {
      return InvalidShape, max';
    }
    match t[id]
    case ScalarDesc(_, _, check) => status := check;
    case VariantDesc(_, _, _, _, _, _) =>
      status, max' := ValidateVariantGraph(t, maxDepth, id, depth, frames, active, max);
    case _ => status := Unsupported;
  }

  method ValidateStructGraph(t: Table, maxDepth: nat, id: nat, depth: nat, frames: seq<nat>, active: nat, max: nat)
    returns (status: Status, max': nat)
    requires Chain(t, frames + [id]) && active <= max && active <= SIZE_MAX
    ensures status.Ok? <==>
              && id < |t| && t[id].StructDesc? && Sound(t, maxDepth, id, depth, true)
              && active + Scratch(ShapeOf(t, maxDepth, id, depth, true)) <= SIZE_MAX
    ensures status.Ok? ==> max' == Max(max, active + Scratch(ShapeOf(t, maxDepth, id, depth, true)))
    decreases Left(maxDepth, depth), 1
  {
    max' := max;
    status := ValidateStructShape(t, maxDepth, id, depth, frames);
    if status.Ok? {
      status, max' := MeasureStruct(t, maxDepth, id, depth, active, max);
    }
  }

  method ValidateVariantShape(t: Table, maxDepth: nat, id: nat, depth: nat, frames: seq<nat>, active: nat, max: nat)
    returns (status: Status, max': nat)
    requires id < |t| && t[id].VariantDesc? && Chain(t, frames + [id]) && active <= max && active <= SIZE_MAX
    ensures status.Ok? <==>
              && Sound(t, maxDepth, id, depth, false)
              && active + Scratch(ShapeOf(t, maxDepth, id, depth, false)) <= SIZE_MAX
    ensures status.Ok? ==> max' == Max(max, active + Scratch(ShapeOf(t, maxDepth, id, depth, false)))
    decreases Left(maxDepth, depth), 1
  {
    hide Unfold, VariantsFit, Chain, Scratch, TagValid, CaseFits;
    max' := max;
    if Sound(t, maxDepth, id, depth, false) {
      VariantParts(t, maxDepth, id, depth);
    }
    if depth + 1 > maxDepth {
      return LimitExceeded, max';
    }
    if id in frames {
      OnCycle(t, maxDepth, frames, id, depth, false);
      return InvalidShape, max';
    }
    if !t[id].check.Ok? {
      return t[id].check, max';
    }
    if !TagFits(t[id]) {
      return InvalidShape, max';
    }
    status, max' := ValidateCases(t, maxDepth, id, depth, frames, active, max);
  }

  method ValidateCases(t: Table, maxDepth: nat, id: nat, depth: nat, frames: seq<nat>, active: nat, max: nat)
    returns (status: Status, max': nat)
    requires id < |t| && t[id].VariantDesc? && Chain(t, frames + [id]) && active <= max && active <= SIZE_MAX
    requires depth < maxDepth && t[id].check.Ok? && TagFits(t[id])
    ensures status.Ok? <==>
              && Sound(t, maxDepth, id, depth, false)
              && active + Scratch(ShapeOf(t, maxDepth, id, depth, false)) <= SIZE_MAX
    ensures status.Ok? ==> max' == Max(max, active + Scratch(ShapeOf(t, maxDepth, id, depth, false)))
    decreases Left(maxDepth, depth), 0
  {
    hide Unfold, VariantsFit, Chain, Scratch, TagValid, CaseFits, CaseSound, Child, Sound, MaxScratch;
    max' := max;
    var cs := t[id].cases;
    ghost var shapes: seq<Shape> := [];
    assert MaxScratch(shapes) == 0 by { NoScratch(); }
    var i := 0;
    while i < |cs|
      invariant 0 <= i <= |cs| && |shapes| == i
      invariant forall k :: 0 <= k < i ==> TagValid(t[id].tag, cs[k].tag) && CaseFits(t, t[id], cs[k])
      invariant forall k :: 0 <= k < i ==> CaseSound(t, maxDepth, cs[k].value, depth + 1, shapes[k])
      invariant active + MaxScratch(shapes) <= SIZE_MAX
      invariant max' == Max(max, active + MaxScratch(shapes))
    {
      CaseChain(t, frames, id, i);
      status, max' := ValidateCase(t, maxDepth, t[id], cs[i], depth + 1, frames + [id], active, max');
      if !status.Ok? {
        if Sound(t, maxDepth, id, depth, false) {
          CaseOfSound(t, maxDepth, id, depth, i);
        }
        return;
      }
      ghost var shape := SoundShape(t, maxDepth, cs[i].value, depth + 1, shapes);
      shapes := shapes + [shape];
      i := i + 1;
    }
    CasesSound(t, maxDepth, id, depth, active, shapes);
    status := Ok;
  }

  lemma {:induction false} NoScratch()
    ensures MaxScratch([]) == 0
  {
  }

  lemma {:induction false} CaseChain(t: Table, frames: seq<nat>, id: nat, i: nat)
    requires Chain(t, frames + [id]) && id < |t| && t[id].VariantDesc? && i < |t[id].cases|
    ensures Chain(t, frames + [id] + [t[id].cases[i].value])
  {
    hide Chain;
    assert Child(t, id, t[id].cases[i].value);
    ChainMore(t, frames, id, t[id].cases[i].value);
  }

  lemma {:induction false} SoundShape(t: Table, maxDepth: nat, id: nat, depth: nat, shapes: seq<Shape>) returns (shape: Shape)
    requires Sound(t, maxDepth, id, depth, false)
    ensures shape == ShapeOf(t, maxDepth, id, depth, false) && CaseSound(t, maxDepth, id, depth, shape)
    ensures MaxScratch(shapes + [shape]) == Max(MaxScratch(shapes), Scratch(shape))
  {
    hide Unfold, VariantsFit, MaxScratch, Scratch;
    shape := ShapeOf(t, maxDepth, id, depth, false);
    MaxScratchSnoc(shapes, shape);
  }

  /** One case of a variant. */
  method ValidateCase(t: Table, maxDepth: nat, d: Desc, item: Case, depth: nat, frames: seq<nat>, active: nat, max: nat)
    returns (status: Status, max': nat)
    requires d.VariantDesc? && Chain(t, frames + [item.value]) && active <= max && active <= SIZE_MAX
    ensures status.Ok? <==>
              && TagValid(d.tag, item.tag) && CaseFits(t, d, item) && Sound(t, maxDepth, item.value, depth, false)
              && active + Scratch(ShapeOf(t, maxDepth, item.value, depth, false)) <= SIZE_MAX
    ensures status.Ok? ==> max' == Max(max, active + Scratch(ShapeOf(t, maxDepth, item.value, depth, false)))
    decreases Left(maxDepth, depth), 4
  {
    hide Unfold, VariantsFit, Chain, Scratch, TagValid, CaseFits;
    max' := max;
    if !TagValid(d.tag, item.tag) {
      return InvalidShape, max';
    }
    NoContainer(t, item.value, Left(maxDepth, depth));
    if item.value >= |t| || t[item.value].ContainerDesc? {
      return if item.value < |t| then Unsupported else InvalidShape, max';
    }
    if !CaseFits(t, d, item) {
      return InvalidShape, max';
    }
    VariantOrScalar(t, item.value, Left(maxDepth, depth));
    if t[item.value].StructDesc? {
      status, max' := ValidateStructGraph(t, maxDepth, item.value, depth, frames, active, max');
    } else {
      status, max' := ValidateGraph(t, maxDepth, item.value, depth, frames, active, max');
    }
  }

  lemma {:induction false} NoContainer(t: Table, id: nat, fuel: nat)
    ensures id >= |t| || t[id].ContainerDesc? ==> Unfold(t, id, fuel, false).None?
  {
  }

  /** A sound case and its shape. */
  predicate CaseSound(t: Table, maxDepth: nat, id: nat, depth: nat, shape: Shape) {
    Unfold(t, id, Left(maxDepth, depth), false) == Some(shape) && VariantsFit(shape, SIZE_MAX)
  }

  lemma {:induction false} VariantOrScalar(t: Table, id: nat, fuel: nat)
    requires id < |t| && !t[id].ContainerDesc?
    ensures Unfold(t, id, fuel, true) == Unfold(t, id, fuel, false)
  {
  }

  lemma {:induction false} MaxScratchSnoc(shapes: seq<Shape>, shape: Shape)
    ensures MaxScratch(shapes + [shape]) == Max(MaxScratch(shapes), Scratch(shape))
  {
    assert (shapes + [shape])[..|shapes|] == shapes;
  }

  /** Every case of a sound variant is in order. */
  lemma {:induction false} CaseOfSound(t: Table, maxDepth: nat, id: nat, depth: nat, i: nat)
    requires id < |t| && t[id].VariantDesc? && Sound(t, maxDepth, id, depth, false) && i < |t[id].cases|
    ensures var c := t[id].cases[i];
            && TagValid(t[id].tag, c.tag) && CaseFits(t, t[id], c) && c.value < |t| && !t[c.value].ContainerDesc?
            && Sound(t, maxDepth, c.value, depth + 1, false)
            && Scratch(ShapeOf(t, maxDepth, c.value, depth + 1, false)) <= Scratch(ShapeOf(t, maxDepth, id, depth, false))
  {
    VariantParts(t, maxDepth, id, depth);
    MaxScratchHas(ShapeOf(t, maxDepth, id, depth, false).cases, i);
  }

  lemma {:induction false} FitsCase(t: Table, maxDepth: nat, id: nat, depth: nat, shape: Shape)
    requires CaseSound(t, maxDepth, id, depth, shape)
    ensures VariantsFit(shape, SIZE_MAX)
  {
  }

  lemma {:induction false} CasesUnfold(t: Table, id: nat, fuel: nat)
    requires id < |t| && t[id].VariantDesc? && fuel > 0 && t[id].check.Ok? && TagFits(t[id])
    requires CasesOk(t, t[id])
    requires forall i :: 0 <= i < |t[id].cases| ==> Unfold(t, t[id].cases[i].value, fuel - 1, false).Some?
    ensures Unfold(t, id, fuel, false).Some?
  {
    hide CasesOk;
  }

  lemma {:induction false} CasesSound(t: Table, maxDepth: nat, id: nat, depth: nat, active: nat, shapes: seq<Shape>)
    requires id < |t| && t[id].VariantDesc? && depth < maxDepth && |shapes| == |t[id].cases|
    requires t[id].check.Ok? && TagFits(t[id]) && CasesOk(t, t[id])
    requires forall k :: 0 <= k < |shapes| ==> CaseSound(t, maxDepth, t[id].cases[k].value, depth + 1, shapes[k])
    requires active + MaxScratch(shapes) <= SIZE_MAX
    ensures Sound(t, maxDepth, id, depth, false) && ShapeOf(t, maxDepth, id, depth, false).Variant?
    ensures ShapeOf(t, maxDepth, id, depth, false).cases == shapes && Scratch(ShapeOf(t, maxDepth, id, depth, false)) == MaxScratch(shapes)
  {
    hide Unfold, VariantsFit, Scratch, CasesOk, MaxScratch;
    var cs := t[id].cases;
    forall k | 0 <= k < |cs| ensures Unfold(t, cs[k].value, Left(maxDepth, depth) - 1, false) == Some(shapes[k]) {
      assert CaseSound(t, maxDepth, cs[k].value, depth + 1, shapes[k]);
    }
    CasesUnfold(t, id, Left(maxDepth, depth));
    VariantParts(t, maxDepth, id, depth);
    assert ShapeOf(t, maxDepth, id, depth, false).cases == shapes;
    forall k | 0 <= k < |cs| ensures VariantsFit(shapes[k], SIZE_MAX) {
      FitsCase(t, maxDepth, cs[k].value, depth + 1, shapes[k]);
    }
  }

  method ValidateVariantGraph(t: Table, maxDepth: nat, id: nat, depth: nat, frames: seq<nat>, active: nat, max: nat)
    returns (status: Status, max': nat)
    requires id < |t| && t[id].VariantDesc? && Chain(t, frames + [id]) && active <= max && active <= SIZE_MAX
    ensures status.Ok? <==>
              && Sound(t, maxDepth, id, depth, false)
              && active + Scratch(ShapeOf(t, maxDepth, id, depth, false)) <= SIZE_MAX
    ensures status.Ok? ==> max' == Max(max, active + Scratch(ShapeOf(t, maxDepth, id, depth, false)))
    decreases Left(maxDepth, depth), 2
  {
    status, max' := ValidateVariantShape(t, maxDepth, id, depth, frames, active, max);
    if status.Ok? {
      status, max' := MeasureVariant(t, maxDepth, id, depth, active, max');
    }
  }

  // ----- the whole preflight

  /** What the preflight admits: a finite tree within the depth limit whose nested bitmaps fit
      the scratch memory. */
  predicate Admissible(t: Table, id: nat, maxDepth: nat, scratchSize: nat) {
    && Unfold(t, id, maxDepth, false).Some?
    && Scratch(Unfold(t, id, maxDepth, false).value) <= scratchSize
  }

  method Preflight(t: Table, id: nat, maxDepth: nat, scratchSize: nat) returns (status: Status)
    requires scratchSize <= SIZE_MAX && id < |t|
    ensures status.Ok? <==> Admissible(t, id, maxDepth, scratchSize)
  {
    var max;
    assert Chain(t, [] + [id]);
    if t[id].StructDesc? {
      VariantOrScalar(t, id, maxDepth);
      status, max := ValidateStructGraph(t, maxDepth, id, 0, [], 0, 0);
    } else {
      status, max := ValidateGraph(t, maxDepth, id, 0, [], 0, 0);
    }
    if Admissible(t, id, maxDepth, scratchSize) {
      FitsWhole(Unfold(t, id, maxDepth, false).value, SIZE_MAX);
    }
    if status.Ok? && max > scratchSize {
      return LimitExceeded;
    }
  }

  /** An admitted descriptor has no descriptor below it that is its own descendant, and no
      chain of nested structs and variants longer than the depth limit. */
  lemma {:induction false} AdmittedIsAcyclic(t: Table, id: nat, maxDepth: nat, scratchSize: nat, p: seq<nat>)
    requires Admissible(t, id, maxDepth, scratchSize)
    requires Chain(t, p) && p[0] == id
    ensures |p| - 1 <= maxDepth
    ensures forall i, j :: 0 <= i < j < |p| ==> p[i] != p[j]
  {
    var last := ChainUnfolds(t, p, maxDepth, false);
    forall i, j | 0 <= i < j < |p| ensures p[i] != p[j] {
      if p[i] == p[j] {
        var front, loop_ := p[..i + 1], p[i..j + 1];
        ChainPart(t, p, 0, i + 1);
        ChainPart(t, p, i, j + 1);
        var atI := ChainUnfolds(t, front, maxDepth, false);
        CycleNeverUnfolds(t, loop_, maxDepth - i, atI);
      }
    }
  }

  lemma {:induction false} ChainPart(t: Table, p: seq<nat>, a: nat, b: nat)
    requires Chain(t, p) && a < b <= |p|
    ensures Chain(t, p[a..b])
  {
    var q := p[a..b];
    forall k | 0 <= k < |q| - 1 ensures Child(t, q[k], q[k + 1]) {
      assert Child(t, p[a + k], p[a + k + 1]);
    }
  }
}
