/** The layout of a type holds the scalars of that type, each once, and no others but tags. */
module TypeLayout {
  import opened Core
  import opened Layout
  import opened LayoutProofs

  // ----- the scalars of a type -----

  /**
   * The scalar that a path of fields, variants and tags leads to, if it leads to one. A slice
   * reference is a pointer and a length; an enum has a tag if it has two variants or more.
   */
  function Leaf(t: Ty, path: seq<Step>, target: IntWidth): Option<ScalarKind>
    decreases t, 0
  {
    match t
    case IntT(System, _) => if path == [] then Some(Int(target)) else None
    case IntT(Fixed(w), _) => if path == [] then Some(Int(w)) else None
    case BoolT => if path == [] then Some(Int(I8)) else None
    case VoidT => None
    case NeverT => None
    case PtrT => if path == [] then Some(Ptr) else None
    case FatPtrT =>
      if path == [ToField(0)] then Some(Ptr) else if path == [ToField(1)] then Some(Int(target)) else None
    case TupleT(ts) => FieldLeaf(ts, path, target)
    case StructT(_, ts) => FieldLeaf(ts, path, target)
    case EnumT(vs) =>
      if path == [ToTag] && |vs| > 1 then Some(Int(TagWidthFor(|vs|)))
      else if path != [] && path[0].ToVariant? && path[0].index < |vs| then
        FieldLeaf(vs[path[0].index].tys, path[1..], target)
      else None
  }

  function FieldLeaf(ts: seq<Ty>, path: seq<Step>, target: IntWidth): Option<ScalarKind>
    decreases ts, 1
  {
    if path != [] && path[0].ToField? && path[0].index < |ts| then Leaf(ts[path[0].index], path[1..], target)
    else None
  }

  function ScalarBytes(kind: ScalarKind, target: IntWidth): nat {
    match kind
    case Int(w) => WidthSize(w)
    case Ptr => WidthSize(target)
  }

  /** An integer has exactly as many bytes as its values need. */
  lemma BytesHoldRange(w: IntWidth)
    ensures Pow2(8 * WidthSize(w)) == 2 * HalfRange(Fixed(w))
  {
    TagPowers();
    Pow2Sum(32, 32);
    Pow2Sum(64, 64);
  }

  // ----- where the layout keeps them -----

  /**
   * The path through the layout. The layout of an enum with one variant is that of the variant,
   * and the layout of an enum without payloads is its tag.
   */
  function Route(t: Ty, path: seq<Step>, target: IntWidth): seq<Step>
    requires Leaf(t, path, target).Some?
    decreases t, 0
  {
    match t
    case FatPtrT => path
    case TupleT(ts) => FieldRoute(ts, path, target)
    case StructT(_, ts) => FieldRoute(ts, path, target)
    case EnumT(vs) =>
      if path == [ToTag] then (if LayoutOf(t, target).data.Union? then [ToTag] else [])
      else
        var rest := FieldRoute(vs[path[0].index].tys, path[1..], target);
        if |vs| == 1 then rest else [path[0]] + rest
    case _ => []
  }

  function FieldRoute(ts: seq<Ty>, path: seq<Step>, target: IntWidth): seq<Step>
    requires FieldLeaf(ts, path, target).Some?
    decreases ts, 1
  {
    [path[0]] + Route(ts[path[0].index], path[1..], target)
  }

  /** The layout has this kind of scalar there, with its size and an alignment equal to it. */
  ghost predicate Holds(l: Layout, path: seq<Step>, base: nat, kind: ScalarKind, target: IntWidth) {
    match Reach(l, path, base)
    case None => false
    case Some(s) => s.kind == kind && s.size == ScalarBytes(kind, target) == Pow2(s.align)
  }

  lemma TagHeld(w: IntWidth, base: nat, target: IntWidth)
    ensures Holds(IntLayout(w), [], base, Int(w), target)
  {
    WidthPow2(w);
  }

  function OffsetOf(layouts: seq<Layout>, i: nat): nat
    requires i < |layouts|
  {
    PlaceFields(layouts, 0)[i].offset
  }

  /** The layout of one field, reached through the aggregate. */
  lemma ThroughField(layouts: seq<Layout>, i: nat, path: seq<Step>, base: nat)
    requires i < |layouts|
    ensures Reach(FinishAggregate(layouts), [ToField(i)] + path, base) ==
            Reach(layouts[i], path, base + OffsetOf(layouts, i))
  {
    assert ([ToField(i)] + path)[1..] == path;
  }

  /** The path leads to a scalar of the layout. */
  ghost predicate HasScalar(l: Layout, route: seq<Step>, base: nat) {
    match Reach(l, route, base)
    case None => false
    case Some(_) => true
  }

  lemma FromField(layouts: seq<Layout>, route: seq<Step>, base: nat) returns (i: nat, rest: seq<Step>)
    requires HasScalar(FinishAggregate(layouts), route, base)
    ensures i < |layouts| && route == [ToField(i)] + rest && HasScalar(layouts[i], rest, base + OffsetOf(layouts, i))
  {
    i, rest := route[0].index, route[1..];
  }

  lemma ThroughVariant(l: Layout, k: nat, path: seq<Step>, base: nat)
    requires l.data.Union? && k < |l.data.variants|
    ensures Reach(l, [ToVariant(k)] + path, base) == Reach(l.data.variants[k], path, base + l.data.payloadOffset)
  {
    assert ([ToVariant(k)] + path)[1..] == path;
  }

  lemma WidthPositive(kind: ScalarKind, target: IntWidth)
    ensures ScalarBytes(kind, target) > 0
  {
  }

  /** Whoever holds a scalar takes up space. */
  lemma HoldsSpace(l: Layout, path: seq<Step>, kind: ScalarKind, target: IntWidth)
    requires Sound(l) && Holds(l, path, 0, kind, target)
    ensures l.size > 0
  {
    ScalarsFit(l, path, 0);
    WidthPositive(kind, target);
  }

  /** With two variants or more, one of which takes up space, the payloads stand behind the tag. */
  lemma PayloadsStored(variants: seq<Layout>, k: nat)
    requires |variants| > 1 && k < |variants| && variants[k].size > 0
    ensures EnumLayout(variants).data == Union(variants, EnumLayout(variants).data.payloadOffset,
                                                TagWidthFor(|variants|))
  {
    AlignUpSpec(MaxSize(variants), Pow2(MaxAlign(variants)));
  }

  lemma FatPtrHolds(path: seq<Step>, base: nat, target: IntWidth)
    requires Leaf(FatPtrT, path, target).Some?
    ensures Holds(FatPtrLayout(target), path, base, Leaf(FatPtrT, path, target).value, target)
  {
    WidthPow2(target);
    assert path[1..] == [];
  }

  lemma TagHolds(vs: seq<Variant>, base: nat, target: IntWidth)
    requires |vs| > 1
    ensures var l := LayoutOf(EnumT(vs), target);
            Holds(l, if l.data.Union? then [ToTag] else [], base, Int(TagWidthFor(|vs|)), target)
  {
    var variants := VariantLayouts(vs, target);
    TagHeld(TagWidthFor(|vs|), base, target);
    assert LayoutOf(EnumT(vs), target) == AlwaysTagged(variants);
  }

  /** Every scalar of a type is in its layout, with its own size and alignment. */
  lemma {:induction false} LeafHeld(t: Ty, path: seq<Step>, target: IntWidth, base: nat)
    requires Leaf(t, path, target).Some?
    ensures Holds(LayoutOf(t, target), Route(t, path, target), base, Leaf(t, path, target).value, target)
    decreases t, 0
  {
    match t
    case IntT(System, _) => TagHeld(target, base, target);
    case IntT(Fixed(w), _) => TagHeld(w, base, target);
    case BoolT => TagHeld(I8, base, target);
    case PtrT => WidthPow2(target);
    case FatPtrT => FatPtrHolds(path, base, target);
    case TupleT(ts) => FieldHeld(ts, path, target, base);
    case StructT(_, ts) => FieldHeld(ts, path, target, base);
    case EnumT(vs) =>
      if path == [ToTag] {
        TagHolds(vs, base, target);
      } else {
        VariantHeld(vs, path, target, base);
      }
  }

  lemma {:induction false} FieldHeld(ts: seq<Ty>, path: seq<Step>, target: IntWidth, base: nat)
    requires FieldLeaf(ts, path, target).Some?
    ensures Holds(FinishAggregate(LayoutsOf(ts, target)), FieldRoute(ts, path, target), base,
                  FieldLeaf(ts, path, target).value, target)
    decreases ts, 1
  {
    var layouts := LayoutsOf(ts, target);
    var (i, rest) := (path[0].index, Route(ts[path[0].index], path[1..], target));
    ThroughField(layouts, i, rest, base);
    LeafHeld(ts[i], path[1..], target, base + OffsetOf(layouts, i));
    FieldSteps(ts, i, path[1..], target);
    assert path == [ToField(i)] + path[1..];
  }

  lemma FieldSteps(ts: seq<Ty>, i: nat, rest: seq<Step>, target: IntWidth)
    requires i < |ts| && Leaf(ts[i], rest, target).Some?
    ensures FieldLeaf(ts, [ToField(i)] + rest, target) == Leaf(ts[i], rest, target)
    ensures FieldRoute(ts, [ToField(i)] + rest, target) == [ToField(i)] + Route(ts[i], rest, target)
  {
    assert ([ToField(i)] + rest)[1..] == rest;
  }

  lemma VariantSound(v: Variant, target: IntWidth)
    ensures Sound(FinishAggregate(LayoutsOf(v.tys, target)))
  {
    AllSound(v.tys, target);
    AggregateSound(LayoutsOf(v.tys, target));
  }

  lemma {:induction false} VariantHeld(vs: seq<Variant>, path: seq<Step>, target: IntWidth, base: nat)
    requires Leaf(EnumT(vs), path, target).Some? && path != [ToTag]
    ensures Holds(LayoutOf(EnumT(vs), target), Route(EnumT(vs), path, target), base,
                  Leaf(EnumT(vs), path, target).value, target)
    decreases vs, 1
  {
    var k := path[0].index;
    var (layouts, rest) := (VariantLayouts(vs, target), FieldRoute(vs[k].tys, path[1..], target));
    if |vs| == 1 {
      FieldHeld(vs[k].tys, path[1..], target, base);
    } else {
      FieldHeld(vs[k].tys, path[1..], target, 0);
      VariantSound(vs[k], target);
      HoldsSpace(layouts[k], rest, FieldLeaf(vs[k].tys, path[1..], target).value, target);
      PayloadsStored(layouts, k);
      var l := LayoutOf(EnumT(vs), target);
      ThroughVariant(l, k, rest, base);
      FieldHeld(vs[k].tys, path[1..], target, base + l.data.payloadOffset);
    }
  }

  // ----- and nothing else is -----

  ghost predicate LeadsTo(t: Ty, path: seq<Step>, target: IntWidth, route: seq<Step>) {
    Leaf(t, path, target).Some? && Route(t, path, target) == route
  }

  ghost predicate FieldLeadsTo(ts: seq<Ty>, path: seq<Step>, target: IntWidth, route: seq<Step>) {
    FieldLeaf(ts, path, target).Some? && FieldRoute(ts, path, target) == route
  }

  /** Every scalar in the layout of a type is a scalar of the type. */
  lemma {:induction false} OnlyLeaves(t: Ty, route: seq<Step>, target: IntWidth, base: nat) returns (path: seq<Step>)
    requires HasScalar(LayoutOf(t, target), route, base)
    ensures LeadsTo(t, path, target, route)
    decreases t, 0
  {
    match t
    case FatPtrT =>
      path := route;
      FatPtrOnly(route, target, base);
    case TupleT(ts) => path := OnlyFieldLeaves(ts, route, target, base);
    case StructT(_, ts) => path := OnlyFieldLeaves(ts, route, target, base);
    case EnumT(vs) => path := OnlyVariantLeaves(vs, route, target, base);
    case _ => path := [];
  }

  lemma FatPtrOnly(route: seq<Step>, target: IntWidth, base: nat)
    requires HasScalar(FatPtrLayout(target), route, base)
    ensures route == [ToField(0)] || route == [ToField(1)]
  {
    var fs := FatPtrLayout(target).data.fields;
    assert Reach(fs[route[0].index].layout, route[1..], base + fs[route[0].index].offset).Some?;
    assert route == [route[0]] + route[1..];
  }

  lemma {:induction false} OnlyFieldLeaves(ts: seq<Ty>, route: seq<Step>, target: IntWidth, base: nat)
    returns (path: seq<Step>)
    requires HasScalar(FinishAggregate(LayoutsOf(ts, target)), route, base)
    ensures FieldLeadsTo(ts, path, target, route)
    decreases ts, 1
  {
    var layouts := LayoutsOf(ts, target);
    var i, r := FromField(layouts, route, base);
    var rest := OnlyLeaves(ts[i], r, target, base + OffsetOf(layouts, i));
    FieldSteps(ts, i, rest, target);
    path := [ToField(i)] + rest;
  }

  lemma FromVariant(l: Layout, route: seq<Step>, base: nat) returns (k: nat, rest: seq<Step>)
    requires l.data.Union? && HasScalar(l, route, base) && route != [ToTag]
    ensures k < |l.data.variants| && route == [ToVariant(k)] + rest
    ensures HasScalar(l.data.variants[k], rest, base + l.data.payloadOffset)
  {
    k, rest := route[0].index, route[1..];
  }

  lemma VariantSteps(vs: seq<Variant>, k: nat, rest: seq<Step>, target: IntWidth)
    requires k < |vs| && FieldLeaf(vs[k].tys, rest, target).Some?
    ensures Leaf(EnumT(vs), [ToVariant(k)] + rest, target) == FieldLeaf(vs[k].tys, rest, target)
    ensures var route := FieldRoute(vs[k].tys, rest, target);
            Route(EnumT(vs), [ToVariant(k)] + rest, target) == if |vs| == 1 then route else [ToVariant(k)] + route
  {
    assert ([ToVariant(k)] + rest)[1..] == rest;
  }

  lemma IntoVariant(vs: seq<Variant>, route: seq<Step>, target: IntWidth, base: nat)
    returns (k: nat, rest: seq<Step>, from: nat)
    requires Payloads(vs, target) && route != [ToTag]
    requires HasScalar(LayoutOf(EnumT(vs), target), route, base)
    ensures k < |vs| && route == [ToVariant(k)] + rest
    ensures HasScalar(FinishAggregate(LayoutsOf(vs[k].tys, target)), rest, from)
  {
    var l := EnumLayoutIs(vs, target);
    k, rest := FromVariant(l, route, base);
    from := base + l.data.payloadOffset;
  }

  /** The layout of an enum with two variants or more: a tag, or a tag and the payloads behind it. */
  ghost predicate TagThenPayload(l: Layout, variants: seq<Layout>) {
    match l.data
    case Union(vs, _, tag) => vs == variants && tag == TagWidthFor(|variants|)
    case Scalar(Int(tag)) => tag == TagWidthFor(|variants|)
    case _ => false
  }

  lemma EnumLayoutIs(vs: seq<Variant>, target: IntWidth) returns (l: Layout)
    requires |vs| > 1
    ensures l == LayoutOf(EnumT(vs), target) && TagThenPayload(l, VariantLayouts(vs, target))
  {
    l := AlwaysTagged(VariantLayouts(vs, target));
    TagThenPayloadLayout(VariantLayouts(vs, target));
  }

  lemma TagThenPayloadLayout(variants: seq<Layout>)
    ensures TagThenPayload(AlwaysTagged(variants), variants)
  {
  }

  lemma {:induction false} OnlyVariantLeaves(vs: seq<Variant>, route: seq<Step>, target: IntWidth, base: nat)
    returns (path: seq<Step>)
    requires HasScalar(LayoutOf(EnumT(vs), target), route, base)
    ensures LeadsTo(EnumT(vs), path, target, route)
    decreases vs, 2
  {
    if |vs| == 1 {
      SingleLayout(vs, target);
      var rest := OnlyFieldLeaves(vs[0].tys, route, target, base);
      VariantSteps(vs, 0, rest, target);
      path := [ToVariant(0)] + rest;
    } else if Payloads(vs, target) && route != [ToTag] {
      path := OnlyPayloadLeaves(vs, route, target, base);
    } else {
      TagOnly(vs, route, target, base);
      path := [ToTag];
    }
  }

  /** The enum has a tag and payloads. */
  ghost predicate Payloads(vs: seq<Variant>, target: IntWidth) {
    match LayoutOf(EnumT(vs), target).data
    case Union(_, _, _) => |vs| > 1
    case _ => false
  }

  lemma SingleLayout(vs: seq<Variant>, target: IntWidth)
    requires |vs| == 1
    ensures LayoutOf(EnumT(vs), target) == FinishAggregate(LayoutsOf(vs[0].tys, target))
  {
    var variants := VariantLayouts(vs, target);
    EnumOfOne(variants, FinishAggregate(LayoutsOf(vs[0].tys, target)));
    assert LayoutOf(EnumT(vs), target) == EnumLayout(variants);
  }

  lemma EnumOfOne(variants: seq<Layout>, l: Layout)
    requires |variants| == 1 && variants[0] == l
    ensures EnumLayout(variants) == l
  {
  }

  lemma {:induction false} OnlyPayloadLeaves(vs: seq<Variant>, route: seq<Step>, target: IntWidth, base: nat)
    returns (path: seq<Step>)
    requires Payloads(vs, target) && route != [ToTag] && HasScalar(LayoutOf(EnumT(vs), target), route, base)
    ensures LeadsTo(EnumT(vs), path, target, route)
    decreases vs, 1
  {
    var k, r, from := IntoVariant(vs, route, target, base);
    var rest := OnlyFieldLeaves(vs[k].tys, r, target, from);
    VariantSteps(vs, k, rest, target);
    path := [ToVariant(k)] + rest;
  }

  lemma TagOnly(vs: seq<Variant>, route: seq<Step>, target: IntWidth, base: nat)
    requires |vs| != 1 && HasScalar(LayoutOf(EnumT(vs), target), route, base)
    requires Payloads(vs, target) ==> route == [ToTag]
    ensures LeadsTo(EnumT(vs), [ToTag], target, route)
  {
    if |vs| > 1 {
      var l := EnumLayoutIs(vs, target);
    }
  }

  /** Nothing of a type takes up space exactly when it has no scalars. */
  lemma SizeZeroExact(t: Ty, target: IntWidth)
    ensures LayoutOf(t, target).size == 0 <==> forall path :: Leaf(t, path, target).None?
  {
    LayoutSound(t, target);
    forall path | Leaf(t, path, target).Some? ensures LayoutOf(t, target).size > 0 {
      LeafHeld(t, path, target, 0);
      HoldsSpace(LayoutOf(t, target), Route(t, path, target), Leaf(t, path, target).value, target);
    }
    if LayoutOf(t, target).size > 0 {
      var path := SpaceHasLeaf(t, target);
    }
  }

  lemma {:induction false} SpaceHasLeaf(t: Ty, target: IntWidth) returns (path: seq<Step>)
    requires LayoutOf(t, target).size > 0
    ensures Leaf(t, path, target).Some?
    decreases t, 0
  {
    match t
    case FatPtrT => path := [ToField(0)];
    case TupleT(ts) => path := SpaceHasField(ts, target);
    case StructT(_, ts) => path := SpaceHasField(ts, target);
    case EnumT(vs) =>
      if |vs| == 1 {
        var rest := SpaceHasField(vs[0].tys, target);
        path := [ToVariant(0)] + rest;
        assert path[1..] == rest;
      } else {
        path := [ToTag];
      }
    case _ => path := [];
  }

  lemma {:induction false} EmptyFields(layouts: seq<Layout>)
    requires forall i :: 0 <= i < |layouts| ==> layouts[i].size == 0
    ensures forall i :: 0 <= i < |layouts| ==> PlaceFields(layouts, 0)[i].offset == 0
  {
    if layouts != [] {
      EmptyFields(layouts[1..]);
      assert 0 % Pow2(layouts[0].align) == 0;
    }
  }

  lemma EmptyAggregate(layouts: seq<Layout>)
    requires forall i :: 0 <= i < |layouts| ==> layouts[i].size == 0
    ensures FinishAggregate(layouts).size == 0
  {
    EmptyFields(layouts);
    assert 0 % Pow2(MaxAlign(layouts)) == 0;
    if layouts != [] {
      var last := LastByOffset(PlaceFields(layouts, 0));
      assert last.offset == 0 && last.layout.size == 0;
    }
  }

  lemma {:induction false} SpaceHasField(ts: seq<Ty>, target: IntWidth) returns (path: seq<Step>)
    requires FinishAggregate(LayoutsOf(ts, target)).size > 0
    ensures FieldLeaf(ts, path, target).Some?
    decreases ts, 1
  {
    var layouts := LayoutsOf(ts, target);
    if forall i :: 0 <= i < |layouts| ==> layouts[i].size == 0 {
      EmptyAggregate(layouts);
    }
    var i :| 0 <= i < |layouts| && layouts[i].size > 0;
    var rest := SpaceHasLeaf(ts[i], target);
    FieldSteps(ts, i, rest, target);
    path := [ToField(i)] + rest;
  }

  // ----- different scalars of a type are kept apart -----

  lemma {:induction false} RoutesApart(t: Ty, p: seq<Step>, q: seq<Step>, target: IntWidth)
    requires Leaf(t, p, target).Some? && Leaf(t, q, target).Some? && p != q && !Alternatives(p, q)
    ensures Route(t, p, target) != Route(t, q, target)
    ensures !Alternatives(Route(t, p, target), Route(t, q, target))
    decreases t, 0
  {
    match t
    case TupleT(ts) => FieldRoutesApart(ts, p, q, target);
    case StructT(_, ts) => FieldRoutesApart(ts, p, q, target);
    case EnumT(vs) => VariantRoutesApart(vs, p, q, target);
    case _ =>
  }

  lemma {:induction false} FieldRoutesApart(ts: seq<Ty>, p: seq<Step>, q: seq<Step>, target: IntWidth)
    requires FieldLeaf(ts, p, target).Some? && FieldLeaf(ts, q, target).Some? && p != q && !Alternatives(p, q)
    ensures FieldRoute(ts, p, target) != FieldRoute(ts, q, target)
    ensures !Alternatives(FieldRoute(ts, p, target), FieldRoute(ts, q, target))
    decreases ts, 1
  {
    var (x, y) := (FieldRoute(ts, p, target), FieldRoute(ts, q, target));
    assert p == [p[0]] + p[1..] && q == [q[0]] + q[1..];
    assert x[0] == p[0] && y[0] == q[0];
    if p[0] == q[0] {
      RoutesApart(ts[p[0].index], p[1..], q[1..], target);
      assert x[1..] == Route(ts[p[0].index], p[1..], target) && y[1..] == Route(ts[q[0].index], q[1..], target);
    }
  }

  lemma {:induction false} VariantRoutesApart(vs: seq<Variant>, p: seq<Step>, q: seq<Step>, target: IntWidth)
    requires Leaf(EnumT(vs), p, target).Some? && Leaf(EnumT(vs), q, target).Some? && p != q && !Alternatives(p, q)
    ensures Route(EnumT(vs), p, target) != Route(EnumT(vs), q, target)
    ensures !Alternatives(Route(EnumT(vs), p, target), Route(EnumT(vs), q, target))
    decreases vs, 1
  {
    assert p == [p[0]] + p[1..] && q == [q[0]] + q[1..];
    if p != [ToTag] && q != [ToTag] {
      var (v, k) := (vs[p[0].index], p[0].index);
      assert p[0] == q[0] == ToVariant(k);
      FieldRoutesApart(v.tys, p[1..], q[1..], target);
      VariantSteps(vs, k, p[1..], target);
      VariantSteps(vs, k, q[1..], target);
      SameFirstStep(ToVariant(k), FieldRoute(v.tys, p[1..], target), FieldRoute(v.tys, q[1..], target));
    } else {
      TagRouteApart(vs, if p == [ToTag] then q else p, target);
    }
  }

  lemma SameFirstStep(step: Step, x: seq<Step>, y: seq<Step>)
    requires x != y && !Alternatives(x, y)
    ensures [step] + x != [step] + y && !Alternatives([step] + x, [step] + y)
  {
    assert ([step] + x)[1..] == x && ([step] + y)[1..] == y;
  }

  /** A scalar of a variant is not where the tag is. */
  lemma TagRouteApart(vs: seq<Variant>, q: seq<Step>, target: IntWidth)
    requires |vs| > 1 && Leaf(EnumT(vs), q, target).Some? && q != [ToTag]
    ensures var route := Route(EnumT(vs), q, target);
            && Route(EnumT(vs), [ToTag], target) == [ToTag]
            && route != [ToTag] && !Alternatives([ToTag], route) && !Alternatives(route, [ToTag])
  {
    var l := LayoutOf(EnumT(vs), target);
    VariantHeld(vs, q, target, 0);
    assert l.data.Union?;
    assert Route(EnumT(vs), q, target)[0] == q[0];
  }

  /** Where an object at `base` keeps one of its scalars. */
  function Stored(t: Ty, path: seq<Step>, target: IntWidth, base: nat): ScalarAt
    requires Leaf(t, path, target).Some?
  {
    LeafHeld(t, path, target, base);
    Reach(LayoutOf(t, target), Route(t, path, target), base).value
  }

  /**
   * In an aligned object of any type every scalar of the type has its kind and number of bytes,
   * starts at a multiple of that number and is inside, and two of them are disjoint unless they
   * belong to different variants of one enum.
   */
  lemma ScalarsStored(t: Ty, p: seq<Step>, q: seq<Step>, target: IntWidth, base: nat)
    requires base % Pow2(LayoutOf(t, target).align) == 0
    requires Leaf(t, p, target).Some? && Leaf(t, q, target).Some?
    ensures var s := Stored(t, p, target, base);
            && s.kind == Leaf(t, p, target).value && s.size == ScalarBytes(s.kind, target) && s.size > 0
            && s.offset % s.size == 0 && base <= s.offset && s.offset + s.size <= base + LayoutOf(t, target).size
    ensures p != q && !Alternatives(p, q) ==> Disjoint(Stored(t, p, target, base), Stored(t, q, target, base))
  {
    var l := LayoutOf(t, target);
    LayoutSound(t, target);
    LeafHeld(t, p, target, base);
    LeafHeld(t, q, target, base);
    ScalarsFit(l, Route(t, p, target), base);
    WidthPositive(Leaf(t, p, target).value, target);
    if p != q && !Alternatives(p, q) {
      RoutesApart(t, p, q, target);
      ScalarsDisjoint(l, Route(t, p, target), Route(t, q, target), base);
    }
  }
}
