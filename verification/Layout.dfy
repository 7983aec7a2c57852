/** Sizes, alignments and field offsets of finite types. */
module Layout {
  import opened Core

  datatype ScalarKind = Int(width: IntWidth) | Ptr

  datatype FieldAt = FieldAt(offset: nat, layout: Layout)

  datatype LayoutData =
    | Scalar(kind: ScalarKind)
    | Aggregate(fields: seq<FieldAt>)
    | ZeroSized
    | Union(variants: seq<Layout>, payloadOffset: nat, tag: IntWidth)

  /** `align` is the base-2 logarithm of the alignment in bytes. */
  datatype Layout = Layout(size: nat, align: nat, data: LayoutData)

  function Pow2(n: nat): (r: nat)
    ensures r > 0
  {
    if n == 0 then 1 else 2 * Pow2(n - 1)
  }

  function AlignUp(value: nat, align: nat): nat
    requires align > 0
  {
    var remainder := value % align;
    if remainder == 0 then value else value + (align - remainder)
  }

  function WidthAlign(w: IntWidth): nat {
    match w case I8 => 0 case I16 => 1 case I32 => 2 case I64 => 3 case I128 => 4
  }

  function WidthSize(w: IntWidth): nat {
    match w case I8 => 1 case I16 => 2 case I32 => 4 case I64 => 8 case I128 => 16
  }

  function IntLayout(w: IntWidth): Layout {
    Layout(WidthSize(w), WidthAlign(w), Scalar(Int(w)))
  }

  function PtrLayout(target: IntWidth): Layout {
    Layout(WidthSize(target), WidthAlign(target), Scalar(Ptr))
  }

  const ZST := Layout(0, 0, ZeroSized)

  // ----- aggregates -----

  function MaxAlign(layouts: seq<Layout>): (a: nat)
    ensures forall i :: 0 <= i < |layouts| ==> layouts[i].align <= a
  {
    if layouts == [] then 0
    else
      var rest := MaxAlign(layouts[1..]);
      if layouts[0].align > rest then layouts[0].align else rest
  }

  /** Offsets in source order: each field starts at the next multiple of its alignment. */
  function PlaceFields(layouts: seq<Layout>, offset: nat): (fs: seq<FieldAt>)
    ensures |fs| == |layouts| && forall i :: 0 <= i < |fs| ==> fs[i].layout == layouts[i]
  {
    if layouts == [] then []
    else
      var at := AlignUp(offset, Pow2(layouts[0].align));
      [FieldAt(at, layouts[0])] + PlaceFields(layouts[1..], at + layouts[0].size)
  }

  /** With the first i fields placed and the next one starting from this offset, the whole is the same. */
  ghost predicate PlacedTo(layouts: seq<Layout>, done: seq<FieldAt>, i: nat, offset: nat)
    requires i <= |layouts|
  {
    Completes(done, PlaceFields(layouts[i..], offset), PlaceFields(layouts, 0))
  }

  ghost predicate Completes<T>(done: seq<T>, rest: seq<T>, whole: seq<T>) {
    done + rest == whole
  }

  lemma PlaceNone(layouts: seq<Layout>)
    ensures PlacedTo(layouts, [], 0, 0)
  {
    assert layouts[0..] == layouts;
  }

  lemma PlaceStep(layouts: seq<Layout>, done: seq<FieldAt>, i: nat, offset: nat)
    requires i < |layouts| && PlacedTo(layouts, done, i, offset)
    ensures var at := AlignUp(offset, Pow2(layouts[i].align));
            PlacedTo(layouts, done + [FieldAt(at, layouts[i])], i + 1, at + layouts[i].size)
  {
    var at := AlignUp(offset, Pow2(layouts[i].align));
    assert layouts[i..][0] == layouts[i] && layouts[i..][1..] == layouts[i + 1..];
    assert done + PlaceFields(layouts[i..], offset) ==
           (done + [FieldAt(at, layouts[i])]) + PlaceFields(layouts[i + 1..], at + layouts[i].size);
  }

  lemma PlaceAll(layouts: seq<Layout>, done: seq<FieldAt>, offset: nat)
    requires PlacedTo(layouts, done, |layouts|, offset)
    ensures done == PlaceFields(layouts, 0)
  {
    assert layouts[|layouts|..] == [] && done + [] == done;
  }

  /** The walk that fills the table of fields, keeping a running offset. */
  method AggregateLayout(layouts: seq<Layout>) returns (fields: array<FieldAt>)
    ensures fresh(fields) && fields[..] == PlaceFields(layouts, 0)
  {
    fields := new FieldAt[|layouts|](_ => FieldAt(0, ZST));
    ghost var done: seq<FieldAt> := [];
    var offset: nat := 0;
    var i := 0;
    PlaceNone(layouts);
    while i < |layouts|
      invariant i <= |layouts| && fields.Length == |layouts| && Filled(fields[..], done, i)
      invariant PlacedTo(layouts, done, i, offset)
    {
      PlaceStep(layouts, done, i, offset);
      offset := AlignUp(offset, Pow2(layouts[i].align));
      FillNext(fields[..], done, i, FieldAt(offset, layouts[i]));
      fields[i] := FieldAt(offset, layouts[i]);
      done := done + [FieldAt(offset, layouts[i])];
      offset := offset + layouts[i].size;
      i := i + 1;
    }
    PlaceAll(layouts, done, offset);
  }

  /** The table holds these fields up to i. */
  ghost predicate Filled<T>(table: seq<T>, done: seq<T>, i: nat) {
    i <= |table| && table[..i] == done
  }

  lemma FillNext<T>(table: seq<T>, done: seq<T>, i: nat, x: T)
    requires i < |table| && Filled(table, done, i)
    ensures Filled(table[i := x], done + [x], i + 1)
  {
    assert table[i := x][..i + 1] == table[..i] + [x];
  }

  /** The last of the fields with the greatest offset. */
  function LastByOffset(fields: seq<FieldAt>): (f: FieldAt)
    requires fields != []
    ensures f in fields && forall g :: g in fields ==> g.offset <= f.offset
  {
    if |fields| == 1 then fields[0]
    else
      var f := LastByOffset(fields[1..]);
      assert fields == [fields[0]] + fields[1..];
      if fields[0].offset > f.offset then fields[0] else f
  }

  function AggregateSize(fields: seq<FieldAt>): nat {
    if fields == [] then 0 else LastByOffset(fields).offset + LastByOffset(fields).layout.size
  }

  function FinishAggregate(layouts: seq<Layout>): Layout {
    if layouts == [] then ZST
    else
      var align := MaxAlign(layouts);
      var fields := PlaceFields(layouts, 0);
      Layout(AlignUp(AggregateSize(fields), Pow2(align)), align, Aggregate(fields))
  }

  // ----- enums -----

  /** The number of variants is cast to a u32 first. */
  function TagWidthFor(n: nat): IntWidth {
    var count := n % 0x1_0000_0000;
    if count <= 0x100 then I8 else if count <= 0x1_0000 then I16 else I32
  }

  function MaxSize(layouts: seq<Layout>): (s: nat)
    ensures forall i :: 0 <= i < |layouts| ==> layouts[i].size <= s
  {
    if layouts == [] then 0
    else
      var rest := MaxSize(layouts[1..]);
      if layouts[0].size > rest then layouts[0].size else rest
  }

  function Max(a: nat, b: nat): nat { if a > b then a else b }

  function AlwaysTagged(variants: seq<Layout>): Layout {
    var tag := TagWidthFor(|variants|);
    var payloadAlign := MaxAlign(variants);
    var payloadSize := AlignUp(MaxSize(variants), Pow2(payloadAlign));
    if payloadSize == 0 then IntLayout(tag)
    else
      var payloadOffset := AlignUp(WidthSize(tag), Pow2(payloadAlign));
      var align := Max(WidthAlign(tag), payloadAlign);
      Layout(AlignUp(payloadOffset + payloadSize, Pow2(align)), align, Union(variants, payloadOffset, tag))
  }

  function EnumLayout(variants: seq<Layout>): Layout {
    if variants == [] then ZST
    else if |variants| == 1 then variants[0]
    else AlwaysTagged(variants)
  }

  /** A slice reference: a data pointer and a length. */
  function FatPtrLayout(target: IntWidth): Layout {
    Layout(2 * WidthSize(target), WidthAlign(target),
           Aggregate([FieldAt(0, PtrLayout(target)), FieldAt(WidthSize(target), IntLayout(target))]))
  }

  // ----- types -----

  function LayoutOf(t: Ty, target: IntWidth): Layout
    decreases t, 0
  {
    match t
    case IntT(System, _) => IntLayout(target)
    case IntT(Fixed(w), _) => IntLayout(w)
    case BoolT => IntLayout(I8)
    case VoidT => ZST
    case NeverT => ZST
    case PtrT => PtrLayout(target)
    case FatPtrT => FatPtrLayout(target)
    case TupleT(ts) => FinishAggregate(LayoutsOf(ts, target))
    case StructT(_, ts) => FinishAggregate(LayoutsOf(ts, target))
    case EnumT(vs) => EnumLayout(VariantLayouts(vs, target))
  }

  function LayoutsOf(ts: seq<Ty>, target: IntWidth): (ls: seq<Layout>)
    ensures |ls| == |ts| && forall i {:trigger ts[i]} :: 0 <= i < |ts| ==> ls[i] == LayoutOf(ts[i], target)
    decreases ts, 1
  {
    if ts == [] then [] else [LayoutOf(ts[0], target)] + LayoutsOf(ts[1..], target)
  }

  function VariantLayouts(vs: seq<Variant>, target: IntWidth): (ls: seq<Layout>)
    ensures |ls| == |vs|
    ensures forall k {:trigger vs[k]} :: 0 <= k < |vs| ==> ls[k] == VariantLayout(vs[k], target)
    decreases vs, 1
  {
    if vs == [] then [] else [VariantLayout(vs[0], target)] + VariantLayouts(vs[1..], target)
  }

  function VariantLayout(v: Variant, target: IntWidth): Layout {
    FinishAggregate(LayoutsOf(v.tys, target))
  }
}

/** Nested layouts are aligned, in bounds and free of overlap. */
module LayoutProofs {
  import opened Core
  import opened Layout

  lemma {:induction false} Pow2Divides(a: nat, b: nat) returns (k: nat)
    requires a <= b
    ensures Pow2(b) == k * Pow2(a)
  {
    if a == b {
      k := 1;
    } else {
      var j := Pow2Divides(a, b - 1);
      k := 2 * j;
    }
  }

  lemma {:induction false} AtLeastOnce(k: nat, m: nat)
    requires k > 0
    ensures k * m >= m
  {
    if k > 1 {
      AtLeastOnce(k - 1, m);
      assert k * m == (k - 1) * m + m;
    }
  }

  lemma DivisionUnique(a: nat, q: nat, r: nat, m: nat)
    requires 0 <= r < m && a == q * m + r
    ensures a % m == r
  {
    var (p, s) := (a / m, a % m);
    assert a == p * m + s;
    assert (p - q) * m == p * m - q * m;
    assert (q - p) * m == q * m - p * m;
    if p > q {
      AtLeastOnce(p - q, m);
    } else if p < q {
      AtLeastOnce(q - p, m);
    }
  }

  lemma MulMod(k: nat, m: nat)
    requires m > 0
    ensures (k * m) % m == 0
  {
    DivisionUnique(k * m, k, 0, m);
  }

  lemma AlignUpSpec(value: nat, align: nat)
    requires align > 0
    ensures AlignUp(value, align) % align == 0
    ensures value <= AlignUp(value, align) < value + align
  {
    var q := value / align;
    assert value == q * align + value % align;
    MulMod(q, align);
    MulMod(q + 1, align);
    assert (q + 1) * align == q * align + align;
  }

  lemma MulAssoc(x: nat, y: nat, z: nat)
    ensures x * (y * z) == (x * y) * z
  {
  }

  lemma MultipleOf(n: nat, big: nat, k: nat, small: nat)
    requires small > 0 && big > 0 && big == k * small && n % big == 0
    ensures n % small == 0
  {
    var q := n / big;
    calc {
      n;
      q * big;
      q * (k * small);
      { MulAssoc(q, k, small); }
      (q * k) * small;
    }
    MulMod(q * k, small);
  }

  /** A multiple of a bigger power of two is a multiple of a smaller one. */
  lemma Coarser(n: nat, a: nat, b: nat)
    requires a <= b && n % Pow2(b) == 0
    ensures n % Pow2(a) == 0
  {
    var k := Pow2Divides(a, b);
    MultipleOf(n, Pow2(b), k, Pow2(a));
  }

  lemma SumAligned(x: nat, y: nat, m: nat)
    requires m > 0 && x % m == 0 && y % m == 0
    ensures (x + y) % m == 0
  {
    var (p, q) := (x / m, y / m);
    assert x == p * m && y == q * m;
    DivisionUnique(x + y, p + q, 0, m);
  }

  // ----- the invariant of a layout -----

  /** Every part of the object, at every depth, is aligned and in bounds, in order. */
  ghost predicate Sound(l: Layout)
    decreases l
  {
    && l.size % Pow2(l.align) == 0
    && match l.data
       case ZeroSized => l.size == 0
       case Scalar(Int(w)) => l.size == WidthSize(w) && l.align == WidthAlign(w)
       case Scalar(Ptr) => l.size == Pow2(l.align)
       case Aggregate(fs) =>
         && (forall i :: 0 <= i < |fs| ==>
               && Sound(fs[i].layout)
               && fs[i].layout.align <= l.align
               && fs[i].offset % Pow2(fs[i].layout.align) == 0
               && fs[i].offset + fs[i].layout.size <= l.size)
         && (forall i, j :: 0 <= i < j < |fs| ==> fs[i].offset + fs[i].layout.size <= fs[j].offset)
       case Union(vs, payload, tag) =>
         && WidthSize(tag) <= payload && WidthAlign(tag) <= l.align
         && (forall k :: 0 <= k < |vs| ==>
               && Sound(vs[k])
               && vs[k].align <= l.align
               && payload % Pow2(vs[k].align) == 0
               && payload + vs[k].size <= l.size)
         && WidthSize(tag) <= l.size
  }

  lemma WidthPow2(w: IntWidth)
    ensures WidthSize(w) == Pow2(WidthAlign(w))
  {
    assert Pow2(0) == 1 && Pow2(1) == 2 && Pow2(2) == 4;
    assert Pow2(3) == 8 && Pow2(4) == 16;
  }

  lemma IntSound(w: IntWidth)
    ensures Sound(IntLayout(w))
  {
    WidthPow2(w);
  }

  /** Each field starts at or after the end of the one before. */
  ghost predicate InOrder(fs: seq<FieldAt>, from: nat) {
    fs == [] || (from <= fs[0].offset && InOrder(fs[1..], fs[0].offset + fs[0].layout.size))
  }

  ghost predicate Apart(fs: seq<FieldAt>) {
    forall i, j :: 0 <= i < j < |fs| ==> fs[i].offset + fs[i].layout.size <= fs[j].offset
  }

  lemma {:induction false} OrderedApart(fs: seq<FieldAt>, from: nat)
    requires InOrder(fs, from)
    ensures Apart(fs) && forall i :: 0 <= i < |fs| ==> from <= fs[i].offset
  {
    if fs != [] {
      var rest := fs[1..];
      OrderedApart(rest, fs[0].offset + fs[0].layout.size);
      forall i, j | 0 <= i < j < |fs| ensures fs[i].offset + fs[i].layout.size <= fs[j].offset {
        assert fs[j] == rest[j - 1];
        if i > 0 {
          assert fs[i] == rest[i - 1];
        }
      }
      forall i | 0 <= i < |fs| ensures from <= fs[i].offset {
        if i > 0 {
          assert fs[i] == rest[i - 1];
        }
      }
    }
  }

  ghost predicate FieldsAligned(fs: seq<FieldAt>) {
    forall i :: 0 <= i < |fs| ==> fs[i].offset % Pow2(fs[i].layout.align) == 0
  }

  lemma AlignedCons(f: FieldAt, rest: seq<FieldAt>)
    requires f.offset % Pow2(f.layout.align) == 0 && FieldsAligned(rest)
    ensures FieldsAligned([f] + rest)
  {
    var fs := [f] + rest;
    forall i | 0 <= i < |fs| ensures fs[i].offset % Pow2(fs[i].layout.align) == 0 {
      assert fs[i] == if i == 0 then f else rest[i - 1];
    }
  }

  lemma {:induction false} FieldsInOrder(layouts: seq<Layout>, offset: nat)
    ensures InOrder(PlaceFields(layouts, offset), offset)
  {
    if layouts != [] {
      var at := AlignUp(offset, Pow2(layouts[0].align));
      AlignUpSpec(offset, Pow2(layouts[0].align));
      FieldsInOrder(layouts[1..], at + layouts[0].size);
      assert PlaceFields(layouts, offset)[1..] == PlaceFields(layouts[1..], at + layouts[0].size);
    }
  }

  lemma {:induction false} FieldsAreAligned(layouts: seq<Layout>, offset: nat)
    ensures FieldsAligned(PlaceFields(layouts, offset))
  {
    if layouts != [] {
      var at := AlignUp(offset, Pow2(layouts[0].align));
      AlignUpSpec(offset, Pow2(layouts[0].align));
      FieldsAreAligned(layouts[1..], at + layouts[0].size);
      AlignedCons(FieldAt(at, layouts[0]), PlaceFields(layouts[1..], at + layouts[0].size));
    }
  }

  lemma {:induction false} LastIsLast(fs: seq<FieldAt>)
    requires fs != []
    requires forall i, j :: 0 <= i < j < |fs| ==> fs[i].offset <= fs[j].offset
    ensures LastByOffset(fs) == fs[|fs| - 1]
  {
    if |fs| > 1 {
      forall i, j | 0 <= i < j < |fs[1..]| ensures fs[1..][i].offset <= fs[1..][j].offset {
        assert fs[i + 1].offset <= fs[j + 1].offset;
      }
      LastIsLast(fs[1..]);
    }
  }

  /** The last field is the one that ends last. */
  lemma LastEnds(fs: seq<FieldAt>)
    requires fs != [] && InOrder(fs, 0)
    ensures LastByOffset(fs) == fs[|fs| - 1]
    ensures forall i :: 0 <= i < |fs| ==> fs[i].offset + fs[i].layout.size <= AggregateSize(fs)
  {
    OrderedApart(fs, 0);
    forall i, j | 0 <= i < j < |fs| ensures fs[i].offset <= fs[j].offset {
      assert fs[i].offset + fs[i].layout.size <= fs[j].offset;
    }
    LastIsLast(fs);
  }

  lemma AggregateSound(layouts: seq<Layout>)
    requires forall i :: 0 <= i < |layouts| ==> Sound(layouts[i])
    ensures Sound(FinishAggregate(layouts))
  {
    if layouts != [] {
      var (fs, align) := (PlaceFields(layouts, 0), MaxAlign(layouts));
      FieldsInOrder(layouts, 0);
      OrderedApart(fs, 0);
      FieldsAreAligned(layouts, 0);
      LastEnds(fs);
      AlignUpSpec(AggregateSize(fs), Pow2(align));
      FieldsSound(Layout(AlignUp(AggregateSize(fs), Pow2(align)), align, Aggregate(fs)));
    }
  }

  lemma FieldsSound(l: Layout)
    requires l.data.Aggregate? && l.size % Pow2(l.align) == 0
    requires Apart(l.data.fields) && FieldsAligned(l.data.fields)
    requires forall i :: 0 <= i < |l.data.fields| ==>
               var f := l.data.fields[i];
               Sound(f.layout) && f.layout.align <= l.align && f.offset + f.layout.size <= l.size
    ensures Sound(l)
  {
  }

  lemma TaggedSound(variants: seq<Layout>)
    requires forall k :: 0 <= k < |variants| ==> Sound(variants[k])
    ensures Sound(AlwaysTagged(variants))
  {
    var tag := TagWidthFor(|variants|);
    var payloadAlign := MaxAlign(variants);
    var payloadSize := AlignUp(MaxSize(variants), Pow2(payloadAlign));
    AlignUpSpec(MaxSize(variants), Pow2(payloadAlign));
    IntSound(tag);
    if payloadSize != 0 {
      var payloadOffset := AlignUp(WidthSize(tag), Pow2(payloadAlign));
      var align := Max(WidthAlign(tag), payloadAlign);
      AlignUpSpec(WidthSize(tag), Pow2(payloadAlign));
      AlignUpSpec(payloadOffset + payloadSize, Pow2(align));
      forall k | 0 <= k < |variants| ensures payloadOffset % Pow2(variants[k].align) == 0 {
        Coarser(payloadOffset, variants[k].align, payloadAlign);
      }
    }
  }

  /** The layout of every finite type is sound at every depth. */
  lemma {:induction false} LayoutSound(t: Ty, target: IntWidth)
    ensures Sound(LayoutOf(t, target))
    decreases t, 0
  {
    match t
    case IntT(System, _) => IntSound(target);
    case IntT(Fixed(w), _) => IntSound(w);
    case BoolT => IntSound(I8);
    case PtrT => WidthPow2(target);
    case FatPtrT => FatPtrSound(target);
    case TupleT(ts) => AllSound(ts, target); AggregateSound(LayoutsOf(ts, target));
    case StructT(_, ts) => AllSound(ts, target); AggregateSound(LayoutsOf(ts, target));
    case EnumT(vs) =>
      VariantsSound(vs, target);
      EnumSound(VariantLayouts(vs, target));
    case _ =>
  }

  lemma EnumSound(variants: seq<Layout>)
    requires forall k :: 0 <= k < |variants| ==> Sound(variants[k])
    ensures Sound(EnumLayout(variants))
  {
    if |variants| > 1 {
      TaggedSound(variants);
    }
  }

  lemma {:induction false} VariantsSound(vs: seq<Variant>, target: IntWidth)
    ensures forall k :: 0 <= k < |vs| ==> Sound(VariantLayouts(vs, target)[k])
    decreases vs, 2
  {
    forall k | 0 <= k < |vs| ensures Sound(VariantLayouts(vs, target)[k]) {
      AllSound(vs[k].tys, target);
      AggregateSound(LayoutsOf(vs[k].tys, target));
    }
  }

  lemma {:induction false} AllSound(ts: seq<Ty>, target: IntWidth)
    ensures forall i :: 0 <= i < |ts| ==> Sound(LayoutsOf(ts, target)[i])
    decreases ts, 1
  {
    forall i | 0 <= i < |ts| ensures Sound(LayoutsOf(ts, target)[i]) {
      LayoutSound(ts[i], target);
    }
  }

  lemma FatPtrSound(target: IntWidth)
    ensures Sound(FatPtrLayout(target))
  {
    WidthPow2(target);
    IntSound(target);
    var m := WidthSize(target);
    SumAligned(m, m, m);
    assert Sound(PtrLayout(target));
  }

  // ----- the scalars inside an object -----

  datatype Step = ToField(index: nat) | ToVariant(index: nat) | ToTag

  datatype ScalarAt = ScalarAt(offset: nat, size: nat, align: nat, kind: ScalarKind)

  /** The scalar that a path of field, variant and tag steps leads to. */
  function Reach(l: Layout, path: seq<Step>, base: nat): Option<ScalarAt>
    decreases l
  {
    match l.data
    case Scalar(kind) => if path == [] then Some(ScalarAt(base, l.size, l.align, kind)) else None
    case ZeroSized => None
    case Aggregate(fs) =>
      if path != [] && path[0].ToField? && path[0].index < |fs| then
        var f := fs[path[0].index];
        Reach(f.layout, path[1..], base + f.offset)
      else None
    case Union(vs, payload, tag) =>
      if path == [ToTag] then Some(ScalarAt(base, WidthSize(tag), WidthAlign(tag), Int(tag)))
      else if path != [] && path[0].ToVariant? && path[0].index < |vs| then
        Reach(vs[path[0].index], path[1..], base + payload)
      else None
  }

  /** A field of an aligned object is aligned. */
  lemma FieldAligned(l: Layout, i: nat, base: nat)
    requires Sound(l) && l.data.Aggregate? && i < |l.data.fields| && base % Pow2(l.align) == 0
    ensures Sound(l.data.fields[i].layout)
    ensures (base + l.data.fields[i].offset) % Pow2(l.data.fields[i].layout.align) == 0
  {
    var f := l.data.fields[i];
    Coarser(base, f.layout.align, l.align);
    SumAligned(base, f.offset, Pow2(f.layout.align));
  }

  /** So is the payload of a variant. */
  lemma PayloadAligned(l: Layout, k: nat, base: nat)
    requires Sound(l) && l.data.Union? && k < |l.data.variants| && base % Pow2(l.align) == 0
    ensures Sound(l.data.variants[k])
    ensures (base + l.data.payloadOffset) % Pow2(l.data.variants[k].align) == 0
  {
    var v := l.data.variants[k];
    Coarser(base, v.align, l.align);
    SumAligned(base, l.data.payloadOffset, Pow2(v.align));
  }

  /** Every scalar of an aligned object is itself aligned and inside the object. */
  lemma {:induction false} ScalarsFit(l: Layout, path: seq<Step>, base: nat)
    requires Sound(l) && base % Pow2(l.align) == 0 && Reach(l, path, base).Some?
    ensures var s := Reach(l, path, base).value;
            s.offset % Pow2(s.align) == 0 && base <= s.offset && s.offset + s.size <= base + l.size
    decreases l
  {
    match l.data
    case Scalar(_) =>
    case ZeroSized =>
    case Aggregate(fs) =>
      var f := fs[path[0].index];
      FieldAligned(l, path[0].index, base);
      ScalarsFit(f.layout, path[1..], base + f.offset);
    case Union(vs, payload, tag) =>
      if path == [ToTag] {
        Coarser(base, WidthAlign(tag), l.align);
      } else {
        var v := vs[path[0].index];
        PayloadAligned(l, path[0].index, base);
        ScalarsFit(v, path[1..], base + payload);
      }
  }

  /** The paths part at two variants of one enum, which share their payload bytes. */
  ghost predicate Alternatives(p: seq<Step>, q: seq<Step>) {
    && p != [] && q != []
    && if p[0] == q[0] then Alternatives(p[1..], q[1..]) else p[0].ToVariant? && q[0].ToVariant?
  }

  ghost predicate Disjoint(a: ScalarAt, b: ScalarAt) {
    a.offset + a.size <= b.offset || b.offset + b.size <= a.offset
  }

  /** A scalar of a field lies inside the field. */
  lemma InsideField(l: Layout, p: seq<Step>, base: nat)
    requires Sound(l) && l.data.Aggregate? && base % Pow2(l.align) == 0 && Reach(l, p, base).Some?
    ensures p != [] && p[0].ToField? && p[0].index < |l.data.fields|
    ensures var (f, s) := (l.data.fields[p[0].index], Reach(l, p, base).value);
            base + f.offset <= s.offset && s.offset + s.size <= base + f.offset + f.layout.size
  {
    var f := l.data.fields[p[0].index];
    FieldAligned(l, p[0].index, base);
    ScalarsFit(f.layout, p[1..], base + f.offset);
  }

  lemma FieldsApart(l: Layout, i: nat, j: nat)
    requires Sound(l) && l.data.Aggregate? && i < |l.data.fields| && j < |l.data.fields| && i != j
    ensures var (f, g) := (l.data.fields[i], l.data.fields[j]);
            f.offset + f.layout.size <= g.offset || g.offset + g.layout.size <= f.offset
  {
  }

  lemma FieldsDisjoint(l: Layout, p: seq<Step>, q: seq<Step>, base: nat)
    requires Sound(l) && l.data.Aggregate? && base % Pow2(l.align) == 0
    requires Reach(l, p, base).Some? && Reach(l, q, base).Some? && p[0] != q[0]
    ensures Disjoint(Reach(l, p, base).value, Reach(l, q, base).value)
  {
    InsideField(l, p, base);
    InsideField(l, q, base);
    FieldsApart(l, p[0].index, q[0].index);
  }

  lemma TagDisjoint(l: Layout, q: seq<Step>, base: nat)
    requires Sound(l) && l.data.Union? && base % Pow2(l.align) == 0
    requires Reach(l, q, base).Some? && q != [ToTag]
    ensures Disjoint(Reach(l, [ToTag], base).value, Reach(l, q, base).value)
  {
    var v := l.data.variants[q[0].index];
    PayloadAligned(l, q[0].index, base);
    ScalarsFit(v, q[1..], base + l.data.payloadOffset);
  }

  /**
   * Two different scalars of an object occupy disjoint bytes unless they belong
   * to different variants of the same enum: fields never overlap and a tag never
   * overlaps a payload, through any nesting.
   */
  lemma {:induction false} ScalarsDisjoint(l: Layout, p: seq<Step>, q: seq<Step>, base: nat)
    requires Sound(l) && base % Pow2(l.align) == 0
    requires Reach(l, p, base).Some? && Reach(l, q, base).Some? && p != q && !Alternatives(p, q)
    ensures Disjoint(Reach(l, p, base).value, Reach(l, q, base).value)
    decreases l
  {
    if l.data.Aggregate? {
      if p[0] == q[0] {
        var f := l.data.fields[p[0].index];
        FieldAligned(l, p[0].index, base);
        ScalarsDisjoint(f.layout, p[1..], q[1..], base + f.offset);
      } else {
        FieldsDisjoint(l, p, q, base);
      }
    } else if l.data.Union? {
      if p == [ToTag] {
        TagDisjoint(l, q, base);
      } else if q == [ToTag] {
        TagDisjoint(l, p, base);
      } else {
        assert p[0] == q[0];
        var v := l.data.variants[p[0].index];
        PayloadAligned(l, p[0].index, base);
        ScalarsDisjoint(v, p[1..], q[1..], base + l.data.payloadOffset);
      }
    }
  }

  /** Whole objects: the two theorems above for the layout of any type. */
  lemma ObjectSound(t: Ty, target: IntWidth, base: nat, p: seq<Step>, q: seq<Step>)
    requires base % Pow2(LayoutOf(t, target).align) == 0
    requires Reach(LayoutOf(t, target), p, base).Some? && Reach(LayoutOf(t, target), q, base).Some?
    ensures var s := Reach(LayoutOf(t, target), p, base).value;
            s.offset % Pow2(s.align) == 0 && base <= s.offset && s.offset + s.size <= base + LayoutOf(t, target).size
    ensures p != q && !Alternatives(p, q) ==>
              Disjoint(Reach(LayoutOf(t, target), p, base).value, Reach(LayoutOf(t, target), q, base).value)
  {
    LayoutSound(t, target);
    ScalarsFit(LayoutOf(t, target), p, base);
    if p != q && !Alternatives(p, q) {
      ScalarsDisjoint(LayoutOf(t, target), p, q, base);
    }
  }

  /**
   * Every variant index fits in the chosen tag if and only if the number of variants
   * fits in a u32, and no narrower tag would do.
   */
  lemma TagHoldsIndices(n: nat)
    requires 0 < n
    ensures n - 1 < Pow2(8 * WidthSize(TagWidthFor(n))) <==> n < 0x1_0000_0000
    ensures forall w :: WidthSize(w) < WidthSize(TagWidthFor(n)) ==> n - 1 >= Pow2(8 * WidthSize(w))
  {
    TagPowers();
    if n < 0x1_0000_0000 {
      FittingTag(n);
    } else {
      assert WidthSize(TagWidthFor(n)) <= 4;
    }
  }

  lemma FittingTag(n: nat)
    requires 0 < n < 0x1_0000_0000
    requires Pow2(8) == 0x100 && Pow2(16) == 0x1_0000 && Pow2(32) == 0x1_0000_0000
    ensures n - 1 < Pow2(8 * WidthSize(TagWidthFor(n)))
    ensures forall w :: WidthSize(w) < WidthSize(TagWidthFor(n)) ==> n - 1 >= Pow2(8 * WidthSize(w))
  {
  }

  lemma TagPowers()
    ensures Pow2(8) == 0x100 && Pow2(16) == 0x1_0000 && Pow2(32) == 0x1_0000_0000
  {
    assert Pow2(8) == 0x100 by { assert Pow2(4) == 16; }
    Pow2Sum(8, 8);
    Pow2Sum(16, 16);
  }

  lemma {:induction false} Pow2Sum(a: nat, b: nat)
    ensures Pow2(a + b) == Pow2(a) * Pow2(b)
  {
    if a > 0 {
      Pow2Sum(a - 1, b);
      assert Pow2(a + b) == 2 * Pow2(a - 1 + b);
    }
  }

  // ----- no more padding than alignment asks for -----

  /** Each field starts less than its alignment after the end of the one before. */
  ghost predicate Closely(fs: seq<FieldAt>, from: nat) {
    fs == [] ||
    (fs[0].offset < from + Pow2(fs[0].layout.align) && Closely(fs[1..], fs[0].offset + fs[0].layout.size))
  }

  ghost predicate HasAlign(layouts: seq<Layout>, align: nat) {
    exists i :: 0 <= i < |layouts| && layouts[i].align == align
  }

  ghost predicate HasSize(layouts: seq<Layout>, size: nat) {
    exists i :: 0 <= i < |layouts| && layouts[i].size == size
  }

  ghost function Parts(fs: seq<FieldAt>): (r: seq<Layout>)
    ensures |r| == |fs| && forall i :: 0 <= i < |fs| ==> r[i] == fs[i].layout
  {
    seq(|fs|, i requires 0 <= i < |fs| => fs[i].layout)
  }

  /**
   * At every depth: an object is aligned like one of its parts, fields start at the first
   * aligned byte after the previous one, payloads at the first aligned byte after the tag,
   * and the tail padding is shorter than the alignment.
   */
  ghost predicate Tight(l: Layout)
    decreases l
  {
    match l.data
    case Aggregate(fs) =>
      && fs != [] && fs[0].offset == 0 && Closely(fs, 0)
      && HasAlign(Parts(fs), l.align)
      && l.size < fs[|fs| - 1].offset + fs[|fs| - 1].layout.size + Pow2(l.align)
      && forall i :: 0 <= i < |fs| ==> Tight(fs[i].layout)
    case Union(vs, payload, tag) =>
      && tag == TagWidthFor(|vs|)
      && (l.align == WidthAlign(tag) || HasAlign(vs, l.align))
      && (exists a :: HasAlign(vs, a) && payload < WidthSize(tag) + Pow2(a))
      && (exists s :: HasSize(vs, s) && l.size < payload + s + Pow2(l.align))
      && forall k :: 0 <= k < |vs| ==> Tight(vs[k])
    case _ => true
  }

  lemma {:induction false} MaxAlignTaken(layouts: seq<Layout>)
    requires layouts != []
    ensures HasAlign(layouts, MaxAlign(layouts))
  {
    var rest := MaxAlign(layouts[1..]);
    if layouts[0].align > rest || |layouts| == 1 {
      assert layouts[0].align == MaxAlign(layouts);
    } else {
      MaxAlignTaken(layouts[1..]);
      var i :| 0 <= i < |layouts[1..]| && layouts[1..][i].align == rest;
      assert layouts[i + 1].align == rest;
    }
  }

  lemma {:induction false} MaxSizeTaken(layouts: seq<Layout>)
    requires layouts != []
    ensures HasSize(layouts, MaxSize(layouts))
  {
    var rest := MaxSize(layouts[1..]);
    if layouts[0].size > rest || |layouts| == 1 {
      assert layouts[0].size == MaxSize(layouts);
    } else {
      MaxSizeTaken(layouts[1..]);
      var i :| 0 <= i < |layouts[1..]| && layouts[1..][i].size == rest;
      assert layouts[i + 1].size == rest;
    }
  }

  lemma {:induction false} FieldsClosely(layouts: seq<Layout>, offset: nat)
    ensures Closely(PlaceFields(layouts, offset), offset)
  {
    if layouts != [] {
      var at := AlignUp(offset, Pow2(layouts[0].align));
      AlignUpSpec(offset, Pow2(layouts[0].align));
      FieldsClosely(layouts[1..], at + layouts[0].size);
      assert PlaceFields(layouts, offset)[1..] == PlaceFields(layouts[1..], at + layouts[0].size);
    }
  }

  lemma AggregateTight(layouts: seq<Layout>)
    requires forall i :: 0 <= i < |layouts| ==> Tight(layouts[i])
    ensures Tight(FinishAggregate(layouts))
  {
    if layouts != [] {
      var (fs, align) := (PlaceFields(layouts, 0), MaxAlign(layouts));
      FieldsClosely(layouts, 0);
      FieldsInOrder(layouts, 0);
      LastEnds(fs);
      FirstAtZero(layouts);
      AlignUpSpec(AggregateSize(fs), Pow2(align));
      MaxAlignTaken(layouts);
      assert Parts(fs) == layouts;
      FieldsTight(Layout(AlignUp(AggregateSize(fs), Pow2(align)), align, Aggregate(fs)));
    }
  }

  lemma FieldsTight(l: Layout)
    requires l.data.Aggregate? && l.data.fields != [] && l.data.fields[0].offset == 0 && Closely(l.data.fields, 0)
    requires HasAlign(Parts(l.data.fields), l.align) && forall i :: 0 <= i < |l.data.fields| ==>
             Tight(l.data.fields[i].layout)
    requires var last := l.data.fields[|l.data.fields| - 1]; l.size < last.offset + last.layout.size + Pow2(l.align)
    ensures Tight(l)
  {
  }

  lemma FirstAtZero(layouts: seq<Layout>)
    requires layouts != []
    ensures PlaceFields(layouts, 0)[0].offset == 0
  {
  }

  /** No other multiple lies between a number and its rounding up. */
  lemma AlignUpLeast(value: nat, align: nat, w: nat)
    requires align > 0 && w % align == 0 && w >= value
    ensures w >= AlignUp(value, align)
  {
    AlignUpSpec(value, align);
    var (p, q) := (w / align, AlignUp(value, align) / align);
    assert w == p * align && AlignUp(value, align) == q * align;
    if p < q {
      assert (q - p) * align == q * align - p * align;
      AtLeastOnce(q - p, align);
    }
  }

  /** Rounding the payload up first, as the source does, costs no more than rounding up once. */
  lemma UnionSlack(offset: nat, size: nat, inner: nat, outer: nat)
    requires inner <= outer && offset % Pow2(inner) == 0
    ensures AlignUp(offset + AlignUp(size, Pow2(inner)), Pow2(outer)) < offset + size + Pow2(outer)
  {
    var once := AlignUp(offset + size, Pow2(outer));
    AlignUpSpec(offset + size, Pow2(outer));
    Coarser(once, inner, outer);
    DifferenceAligned(once, offset, Pow2(inner));
    AlignUpLeast(size, Pow2(inner), once - offset);
    AlignUpLeast(offset + AlignUp(size, Pow2(inner)), Pow2(outer), once);
  }

  lemma DifferenceAligned(x: nat, y: nat, m: nat)
    requires m > 0 && x % m == 0 && y % m == 0 && x >= y
    ensures (x - y) % m == 0
  {
    var (p, q) := (x / m, y / m);
    assert x == p * m && y == q * m;
    assert (p - q) * m == p * m - q * m;
    if p < q {
      assert (q - p) * m == q * m - p * m;
      AtLeastOnce(q - p, m);
    }
    MulMod(p - q, m);
  }

  lemma TaggedTight(variants: seq<Layout>)
    requires variants != [] && forall k :: 0 <= k < |variants| ==> Tight(variants[k])
    ensures Tight(AlwaysTagged(variants))
  {
    var tag := TagWidthFor(|variants|);
    var payloadAlign := MaxAlign(variants);
    var payloadSize := AlignUp(MaxSize(variants), Pow2(payloadAlign));
    if payloadSize != 0 {
      var payloadOffset := AlignUp(WidthSize(tag), Pow2(payloadAlign));
      var align := Max(WidthAlign(tag), payloadAlign);
      AlignUpSpec(WidthSize(tag), Pow2(payloadAlign));
      UnionSlack(payloadOffset, MaxSize(variants), payloadAlign, align);
      MaxAlignTaken(variants);
      MaxSizeTaken(variants);
      assert HasAlign(variants, payloadAlign) && payloadOffset < WidthSize(tag) + Pow2(payloadAlign);
      assert HasSize(variants, MaxSize(variants));
    }
  }

  /** The layout of every finite type wastes no space at any depth. */
  lemma {:induction false} LayoutTight(t: Ty, target: IntWidth)
    ensures Tight(LayoutOf(t, target))
    decreases t, 0
  {
    match t
    case FatPtrT => FatPtrTight(target);
    case TupleT(ts) => AllTight(ts, target); AggregateTight(LayoutsOf(ts, target));
    case StructT(_, ts) => AllTight(ts, target); AggregateTight(LayoutsOf(ts, target));
    case EnumT(vs) =>
      VariantsTight(vs, target);
      EnumTight(VariantLayouts(vs, target));
    case _ =>
  }

  lemma EnumTight(variants: seq<Layout>)
    requires forall k :: 0 <= k < |variants| ==> Tight(variants[k])
    ensures Tight(EnumLayout(variants))
  {
    if |variants| > 1 {
      TaggedTight(variants);
    }
  }

  lemma {:induction false} VariantsTight(vs: seq<Variant>, target: IntWidth)
    ensures forall k :: 0 <= k < |vs| ==> Tight(VariantLayouts(vs, target)[k])
    decreases vs, 2
  {
    forall k | 0 <= k < |vs| ensures Tight(VariantLayouts(vs, target)[k]) {
      AllTight(vs[k].tys, target);
      AggregateTight(LayoutsOf(vs[k].tys, target));
    }
  }

  lemma {:induction false} AllTight(ts: seq<Ty>, target: IntWidth)
    ensures forall i :: 0 <= i < |ts| ==> Tight(LayoutsOf(ts, target)[i])
    decreases ts, 1
  {
    forall i | 0 <= i < |ts| ensures Tight(LayoutsOf(ts, target)[i]) {
      LayoutTight(ts[i], target);
    }
  }

  lemma FatPtrTight(target: IntWidth)
    ensures Tight(FatPtrLayout(target))
  {
    var fs := FatPtrLayout(target).data.fields;
    assert Parts(fs)[0].align == WidthAlign(target);
  }
}
