/** The layout computation in 64-bit arithmetic, where an addition may overflow. */
module Layout64 {
  import opened Core
  import opened Layout
  import opened LayoutProofs

  function Add64(a: nat, b: nat): Option<nat> {
    if a + b < TWO_TO_64 then Some(a + b) else None
  }

  function AlignUp64(value: nat, align: nat): Option<nat>
    requires align > 0
  {
    var remainder := value % align;
    if remainder == 0 then Some(value) else Add64(value, align - remainder)
  }

  function PlaceFields64(layouts: seq<Layout>, offset: nat): Option<seq<FieldAt>> {
    if layouts == [] then Some([])
    else
      var at :- AlignUp64(offset, Pow2(layouts[0].align));
      var next :- Add64(at, layouts[0].size);
      var rest :- PlaceFields64(layouts[1..], next);
      Some([FieldAt(at, layouts[0])] + rest)
  }

  function AggregateSize64(fields: seq<FieldAt>): Option<nat> {
    if fields == [] then Some(0) else Add64(LastByOffset(fields).offset, LastByOffset(fields).layout.size)
  }

  function FinishAggregate64(layouts: seq<Layout>): Option<Layout> {
    if layouts == [] then Some(ZST)
    else
      var fields :- PlaceFields64(layouts, 0);
      var end :- AggregateSize64(fields);
      var size :- AlignUp64(end, Pow2(MaxAlign(layouts)));
      Some(Layout(size, MaxAlign(layouts), Aggregate(fields)))
  }

  function AlwaysTagged64(variants: seq<Layout>): Option<Layout> {
    var tag := TagWidthFor(|variants|);
    var payloadAlign := MaxAlign(variants);
    var payloadSize :- AlignUp64(MaxSize(variants), Pow2(payloadAlign));
    if payloadSize == 0 then Some(IntLayout(tag))
    else
      var payloadOffset :- AlignUp64(WidthSize(tag), Pow2(payloadAlign));
      var align := Max(WidthAlign(tag), payloadAlign);
      var end :- Add64(payloadOffset, payloadSize);
      var size :- AlignUp64(end, Pow2(align));
      Some(Layout(size, align, Union(variants, payloadOffset, tag)))
  }

  function EnumLayout64(variants: seq<Layout>): Option<Layout> {
    if variants == [] then Some(ZST)
    else if |variants| == 1 then Some(variants[0])
    else AlwaysTagged64(variants)
  }

  /** `None` when some addition leaves the 64-bit range. */
  function LayoutOf64(t: Ty, target: IntWidth): Option<Layout>
    decreases t, 0
  {
    match t
    case TupleT(ts) =>
      var fields :- LayoutsOf64(ts, target);
      FinishAggregate64(fields)
    case StructT(_, ts) =>
      var fields :- LayoutsOf64(ts, target);
      FinishAggregate64(fields)
    case EnumT(vs) =>
      var variants :- VariantLayouts64(vs, target);
      EnumLayout64(variants)
    case _ => Some(LayoutOf(t, target))
  }

  function LayoutsOf64(ts: seq<Ty>, target: IntWidth): Option<seq<Layout>>
    decreases ts, 1
  {
    if ts == [] then Some([])
    else
      var first :- LayoutOf64(ts[0], target);
      var rest :- LayoutsOf64(ts[1..], target);
      Some([first] + rest)
  }

  function VariantLayouts64(vs: seq<Variant>, target: IntWidth): Option<seq<Layout>>
    decreases vs, 1
  {
    if vs == [] then Some([])
    else
      var fields :- LayoutsOf64(vs[0].tys, target);
      var first :- FinishAggregate64(fields);
      var rest :- VariantLayouts64(vs[1..], target);
      Some([first] + rest)
  }

  // ----- exactly the layouts below 2^64 bytes -----

  /** The layout, if its size is representable. */
  function Fitting(l: Layout): Option<Layout> {
    if l.size < TWO_TO_64 then Some(l) else None
  }

  ghost predicate AllFit(ls: seq<Layout>) {
    forall i :: 0 <= i < |ls| ==> ls[i].size < TWO_TO_64
  }

  lemma AlignUp64Exact(value: nat, align: nat)
    requires align > 0 && value < TWO_TO_64
    ensures AlignUp64(value, align) ==
            if AlignUp(value, align) < TWO_TO_64 then Some(AlignUp(value, align)) else None
  {
  }

  /** Where the running offset stands after the last field. */
  function EndOf(layouts: seq<Layout>, offset: nat): nat {
    if layouts == [] then offset
    else EndOf(layouts[1..], AlignUp(offset, Pow2(layouts[0].align)) + layouts[0].size)
  }

  lemma {:induction false} EndLater(layouts: seq<Layout>, offset: nat)
    ensures offset <= EndOf(layouts, offset)
  {
    if layouts != [] {
      var at := AlignUp(offset, Pow2(layouts[0].align));
      AlignUpSpec(offset, Pow2(layouts[0].align));
      EndLater(layouts[1..], at + layouts[0].size);
    }
  }

  lemma {:induction false} EndIsLast(layouts: seq<Layout>, offset: nat)
    requires layouts != []
    ensures var fs := PlaceFields(layouts, offset);
            EndOf(layouts, offset) == fs[|fs| - 1].offset + fs[|fs| - 1].layout.size
  {
    var next := AlignUp(offset, Pow2(layouts[0].align)) + layouts[0].size;
    if |layouts| == 1 {
      assert EndOf(layouts[1..], next) == next;
    } else {
      EndIsLast(layouts[1..], next);
    }
  }

  /** The offsets only grow, so the walk fails exactly when its end is out of range. */
  lemma {:induction false} PlaceExact(layouts: seq<Layout>, offset: nat)
    requires offset < TWO_TO_64
    ensures PlaceFields64(layouts, offset) ==
            if EndOf(layouts, offset) < TWO_TO_64 then Some(PlaceFields(layouts, offset)) else None
  {
    if layouts != [] {
      var at := AlignUp(offset, Pow2(layouts[0].align));
      AlignUp64Exact(offset, Pow2(layouts[0].align));
      EndLater(layouts[1..], at + layouts[0].size);
      if at + layouts[0].size < TWO_TO_64 {
        PlaceExact(layouts[1..], at + layouts[0].size);
      }
    }
  }

  lemma AggregateEnds(layouts: seq<Layout>)
    requires layouts != []
    ensures AggregateSize(PlaceFields(layouts, 0)) == EndOf(layouts, 0)
  {
    EndIsLast(layouts, 0);
    FieldsInOrder(layouts, 0);
    LastEnds(PlaceFields(layouts, 0));
  }

  lemma AggregateExact(layouts: seq<Layout>)
    ensures FinishAggregate64(layouts) == Fitting(FinishAggregate(layouts))
  {
    if layouts != [] {
      PlaceExact(layouts, 0);
      AggregateEnds(layouts);
      FinishExact(layouts, EndOf(layouts, 0));
    }
  }

  lemma FinishExact(layouts: seq<Layout>, end: nat)
    requires layouts != [] && AggregateSize(PlaceFields(layouts, 0)) == end
    requires PlaceFields64(layouts, 0) == if end < TWO_TO_64 then Some(PlaceFields(layouts, 0)) else None
    ensures FinishAggregate64(layouts) == Fitting(FinishAggregate(layouts))
  {
    AlignUpSpec(end, Pow2(MaxAlign(layouts)));
    if end < TWO_TO_64 {
      AlignUp64Exact(end, Pow2(MaxAlign(layouts)));
      assert AggregateSize64(PlaceFields(layouts, 0)) == Some(end);
    }
  }

  lemma {:induction false} MaxSizeFits(variants: seq<Layout>)
    requires AllFit(variants)
    ensures MaxSize(variants) < TWO_TO_64
  {
    if variants != [] {
      MaxSizeFits(variants[1..]);
    }
  }

  lemma TaggedExact(variants: seq<Layout>)
    requires AllFit(variants)
    ensures AlwaysTagged64(variants) == Fitting(AlwaysTagged(variants))
  {
    var tag := TagWidthFor(|variants|);
    var payloadAlign := MaxAlign(variants);
    var payloadSize := AlignUp(MaxSize(variants), Pow2(payloadAlign));
    MaxSizeFits(variants);
    AlignUp64Exact(MaxSize(variants), Pow2(payloadAlign));
    if payloadSize != 0 {
      var payloadOffset := AlignUp(WidthSize(tag), Pow2(payloadAlign));
      var align := Max(WidthAlign(tag), payloadAlign);
      AlignUp64Exact(WidthSize(tag), Pow2(payloadAlign));
      AlignUpSpec(payloadOffset + payloadSize, Pow2(align));
      if payloadOffset + payloadSize < TWO_TO_64 {
        AlignUp64Exact(payloadOffset + payloadSize, Pow2(align));
      }
    }
  }

  /** No part is bigger than the whole. */
  lemma FieldsFit(layouts: seq<Layout>)
    requires FinishAggregate(layouts).size < TWO_TO_64
    ensures AllFit(layouts)
  {
    if layouts != [] {
      var fs := PlaceFields(layouts, 0);
      FieldsInOrder(layouts, 0);
      LastEnds(fs);
      AlignUpSpec(AggregateSize(fs), Pow2(MaxAlign(layouts)));
      forall i | 0 <= i < |layouts| ensures layouts[i].size < TWO_TO_64 {
        assert fs[i].layout == layouts[i];
      }
    }
  }

  lemma VariantsFit(variants: seq<Layout>)
    requires EnumLayout(variants).size < TWO_TO_64
    ensures AllFit(variants)
  {
    if |variants| > 1 {
      var tag := TagWidthFor(|variants|);
      var payloadAlign := MaxAlign(variants);
      var payloadSize := AlignUp(MaxSize(variants), Pow2(payloadAlign));
      AlignUpSpec(MaxSize(variants), Pow2(payloadAlign));
      if payloadSize != 0 {
        var payloadOffset := AlignUp(WidthSize(tag), Pow2(payloadAlign));
        AlignUpSpec(payloadOffset + payloadSize, Pow2(Max(WidthAlign(tag), payloadAlign)));
      }
    }
  }

  /**
   * The 64-bit computation yields the layout of the unbounded one exactly when the size of
   * the whole type is below 2^64; otherwise some addition overflows.
   */
  lemma {:induction false} LayoutExact(t: Ty, target: IntWidth)
    ensures LayoutOf64(t, target) == Fitting(LayoutOf(t, target))
    decreases t, 0
  {
    match t
    case TupleT(ts) => LayoutsExact(ts, target); FieldsExact(LayoutsOf64(ts, target), LayoutsOf(ts, target));
    case StructT(_, ts) => LayoutsExact(ts, target); FieldsExact(LayoutsOf64(ts, target), LayoutsOf(ts, target));
    case EnumT(vs) =>
      VariantsExact(vs, target);
      EnumExact(VariantLayouts(vs, target));
    case _ =>
  }

  /** What the parts give, `None` if one of them is too big. */
  ghost predicate PartsExact(checked: Option<seq<Layout>>, ls: seq<Layout>) {
    if AllFit(ls) then checked == Some(ls) else checked == None
  }

  lemma FieldsExact(checked: Option<seq<Layout>>, ls: seq<Layout>)
    requires PartsExact(checked, ls)
    ensures (if checked.Some? then FinishAggregate64(checked.value) else None) == Fitting(FinishAggregate(ls))
  {
    AggregateExact(ls);
    if FinishAggregate(ls).size < TWO_TO_64 {
      FieldsFit(ls);
    }
  }

  lemma EnumExact(ls: seq<Layout>)
    ensures AllFit(ls) ==> EnumLayout64(ls) == Fitting(EnumLayout(ls))
    ensures !AllFit(ls) ==> Fitting(EnumLayout(ls)) == None
  {
    if EnumLayout(ls).size < TWO_TO_64 {
      VariantsFit(ls);
    }
    if AllFit(ls) && |ls| > 1 {
      TaggedExact(ls);
    }
  }

  lemma PartsCons(first: Layout, rest: seq<Layout>)
    ensures AllFit([first] + rest) <==> first.size < TWO_TO_64 && AllFit(rest)
  {
    var ls := [first] + rest;
    if AllFit(ls) {
      assert ls[0] == first && ls[1..] == rest;
      assert forall i :: 0 <= i < |rest| ==> rest[i] == ls[i + 1];
    }
  }

  lemma {:induction false} LayoutsExact(ts: seq<Ty>, target: IntWidth)
    ensures PartsExact(LayoutsOf64(ts, target), LayoutsOf(ts, target))
    decreases ts, 1
  {
    if ts != [] {
      LayoutExact(ts[0], target);
      LayoutsExact(ts[1..], target);
      PartsCons(LayoutOf(ts[0], target), LayoutsOf(ts[1..], target));
    }
  }

  lemma {:induction false} VariantsExact(vs: seq<Variant>, target: IntWidth)
    ensures PartsExact(VariantLayouts64(vs, target), VariantLayouts(vs, target))
    decreases vs, 1
  {
    if vs != [] {
      LayoutsExact(vs[0].tys, target);
      FieldsExact(LayoutsOf64(vs[0].tys, target), LayoutsOf(vs[0].tys, target));
      VariantsExact(vs[1..], target);
      PartsCons(FinishAggregate(LayoutsOf(vs[0].tys, target)), VariantLayouts(vs[1..], target));
    }
  }

  // ----- an overflow within sixty-four pairs -----

  /** A pair of a pair of a pair ... of bytes. */
  function Doubled(n: nat): Ty {
    if n == 0 then IntT(Fixed(I8), false) else TupleT([Doubled(n - 1), Doubled(n - 1)])
  }

  /** The type has so many bytes and may stand anywhere. */
  ghost predicate Unaligned(t: Ty, size: nat, target: IntWidth) {
    LayoutOf(t, target).size == size && LayoutOf(t, target).align == 0
  }

  lemma {:induction false} DoubledSize(n: nat, target: IntWidth)
    ensures Unaligned(Doubled(n), Pow2(n), target)
  {
    if n > 0 {
      DoubledSize(n - 1, target);
      PairDoubles(Doubled(n - 1), Pow2(n - 1), target);
    }
  }

  lemma PairDoubles(t: Ty, size: nat, target: IntWidth)
    requires Unaligned(t, size, target)
    ensures Unaligned(TupleT([t, t]), 2 * size, target)
  {
    var half := LayoutOf(t, target);
    PairOfBytes(half);
    LayoutsOfPair(t, target);
  }

  lemma LayoutsOfPair(t: Ty, target: IntWidth)
    ensures LayoutsOf([t, t], target) == [LayoutOf(t, target), LayoutOf(t, target)]
  {
  }

  lemma PairOfBytes(half: Layout)
    requires half.align == 0
    ensures FinishAggregate([half, half]).size == 2 * half.size && FinishAggregate([half, half]).align == 0
  {
    assert Pow2(0) == 1;
    AggregateEnds([half, half]);
    assert [half, half][1..] == [half];
    assert EndOf([half], half.size) == 2 * half.size by { assert [half][1..] == []; }
    assert EndOf([half, half], 0) == 2 * half.size;
    assert MaxAlign([half, half]) == 0 by { assert MaxAlign([half]) == 0; }
  }

  lemma {:induction false} Pow2Below(a: nat, b: nat)
    requires a <= b
    ensures Pow2(a) <= Pow2(b)
  {
    if a < b {
      Pow2Below(a, b - 1);
    }
  }

  /** Nesting pairs of bytes overflows at the sixty-fourth level and not before. */
  lemma DoublingExact(n: nat, target: IntWidth)
    ensures LayoutOf64(Doubled(n), target).Some? <==> n < 64
  {
    LayoutExact(Doubled(n), target);
    DoubledSize(n, target);
    TagPowers();
    Pow2Sum(32, 32);
    if n < 64 {
      Pow2Below(n, 63);
      assert Pow2(64) == 2 * Pow2(63);
    } else {
      Pow2Below(64, n);
    }
  }
}
