/** Which trees read only tags that can be read. */
module TreeTags {
  import opened Core
  import opened Patterns
  import opened DecisionTree
  import opened MatchCompiler
  import opened MatchCompilerTheorems
  import opened MatchBindings
  import opened Layout
  import opened LayoutProofs
  import opened Thir
  import opened Lowering
  import opened Scoping
  import opened TreeSim

  /** Every enum that the tree switches on has a tag the lowering reads. */
  ghost predicate TreeTagged(t: Tree, target: IntWidth)
    decreases t
  {
    match t
    case Switch(place, cases, default) =>
      && (place.ty.EnumT? ==> TagTy(place.ty, target).Some?)
      && (forall i :: 0 <= i < |cases| ==> TreeTagged(cases[i].tree, target))
      && (default.Some? ==> TreeTagged(default.value, target))
    case _ => true
  }

  // ----- whether the tags can be read does not depend on the places -----

  /** The same tests at places of the same types, with the same outcomes. */
  ghost predicate SameTests(t: Tree, u: Tree)
    decreases t
  {
    match t
    case Fail => u.Fail?
    case Leaf(branch, _) => u.Leaf? && branch == u.branch
    case Switch(place, cases, default) =>
      && u.Switch? && place.ty == u.place.ty && |cases| == |u.cases|
      && (forall i :: 0 <= i < |cases| ==>
          cases[i].ctor == u.cases[i].ctor && SameTests(cases[i].tree, u.cases[i].tree))
      && (default.Some? <==> u.default.Some?)
      && (default.Some? ==> SameTests(default.value, u.default.value))
  }

  ghost predicate SameCases(cs: seq<Case>, ds: seq<Case>) {
    |cs| == |ds| && forall i :: 0 <= i < |cs| ==> cs[i].ctor == ds[i].ctor && SameTests(cs[i].tree, ds[i].tree)
  }

  lemma ConsCases(c: Case, d: Case, cs: seq<Case>, ds: seq<Case>)
    requires c.ctor == d.ctor && SameTests(c.tree, d.tree) && SameCases(cs, ds)
    ensures SameCases([c] + cs, [d] + ds)
  {
  }

  lemma {:induction false} SameTagged(t: Tree, u: Tree, target: IntWidth)
    requires SameTests(t, u)
    ensures TreeTagged(t, target) <==> TreeTagged(u, target)
    decreases t
  {
    if t.Switch? {
      forall i | 0 <= i < |t.cases|
        ensures TreeTagged(t.cases[i].tree, target) <==> TreeTagged(u.cases[i].tree, target)
      {
        SameTagged(t.cases[i].tree, u.cases[i].tree, target);
      }
      if t.default.Some? {
        SameTagged(t.default.value, u.default.value, target);
      }
    }
  }

  lemma {:induction false} CompileAlike(m: Matrix, m': Matrix)
    requires MatrixOk(m) && MatrixOk(m') && Alike(m, m') && SameBranches(m.rows, m'.rows)
    ensures SameTests(Compile(m), Compile(m'))
    decreases RowsSize(m.rows), 2, 0
  {
    if m.rows == [] {
    } else if AllWild(m.rows[0].cells) {
      assert m.rows[0].cells == m'.rows[0].cells && m.rows[0].branch == m'.rows[0].branch;
      assert RowOk(m.rows[0], m.cols) && RowOk(m'.rows[0], m'.cols);
    } else {
      var col := FirstRefutable(m.rows[0].cells);
      PicksColumn(m, col);
      AlikePicks(m, m', col);
      if Irrefutable(m.cols[col].ty) {
        ExpandShrinks(m, col);
        ExpandOk(m, col);
        ExpandOk(m', col);
        ExpandAlike(m, m', col);
        CompileAlike(Expand(m, col), Expand(m', col));
        CompileTuple(m, col);
        CompileTuple(m', col);
      } else {
        SwitchAlike(m, m', col);
      }
    }
  }

  ghost predicate SameBranches(rows: seq<Row>, rows': seq<Row>) {
    |rows| == |rows'| && forall r {:trigger rows[r]} :: 0 <= r < |rows| ==> rows[r].branch == rows'[r].branch
  }

  lemma {:induction false} SpecializeBranches(rows: seq<Row>, rows': seq<Row>, col: nat, c: Constructor, place: Place,
                                              place': Place, decl: Shape, arity: nat)
    requires SameCells(rows, rows') && SameBranches(rows, rows') && RowsShaped(rows, col) && RowsShaped(rows', col)
    ensures SameBranches(SpecializeRows(rows, col, c, place, decl, arity),
                         SpecializeRows(rows', col, c, place', decl, arity))
  {
    if rows != [] {
      assert rows[0].cells == rows'[0].cells && rows[0].branch == rows'[0].branch;
      SpecializeBranches(rows[1..], rows'[1..], col, c, place, place', decl, arity);
    }
  }

  lemma {:induction false} DefaultBranches(rows: seq<Row>, rows': seq<Row>, col: nat, place: Place, place': Place)
    requires SameCells(rows, rows') && SameBranches(rows, rows') && RowsShaped(rows, col) && RowsShaped(rows', col)
    ensures SameBranches(DefaultRows(rows, col, place), DefaultRows(rows', col, place'))
  {
    if rows != [] {
      assert rows[0].cells == rows'[0].cells && rows[0].branch == rows'[0].branch;
      DefaultBranches(rows[1..], rows'[1..], col, place, place');
    }
  }

  lemma {:induction false} SwitchAlike(m: Matrix, m': Matrix, col: nat)
    requires MatrixOk(m) && MatrixOk(m') && Alike(m, m') && SameBranches(m.rows, m'.rows)
    requires Picks(m, col) && Picks(m', col) && col < |m.cols| && !Irrefutable(m.cols[col].ty)
    ensures SameTests(Compile(m), Compile(m'))
    decreases RowsSize(m.rows), 1
  {
    AlikePicks(m, m', col);
    PicksColumn(m, col);
    PicksColumn(m', col);
    CasesAlike(m, m', col, Signature(m.rows, col));
    DefaultShrinks(m, col);
    DefaultOk(m, col);
    DefaultOk(m', col);
    DefaultAlike(m, m', col);
    DefaultBranches(m.rows, m'.rows, col, m.cols[col], m'.cols[col]);
    CompileAlike(Default(m, col), Default(m', col));
    CompileSwitch(m, col);
    CompileSwitch(m', col);
  }

  lemma {:induction false} CasesAlike(m: Matrix, m': Matrix, col: nat, sig: seq<Constructor>)
    requires MatrixOk(m) && MatrixOk(m') && Alike(m, m') && SameBranches(m.rows, m'.rows) && col < |m.cols|
    requires RowsShaped(m.rows, col) && RowsShaped(m'.rows, col) && SigFits(m, col, sig) && SigFits(m', col, sig)
    ensures SameCases(CompileCases(m, col, sig), CompileCases(m', col, sig))
    decreases RowsSize(m.rows), 0, |sig|
  {
    if sig != [] {
      FirstCase(m, col, sig);
      FirstCase(m', col, sig);
      CasesAlike(m, m', col, sig[1..]);
      CaseAlike(m, m', col, sig[0]);
      CompileAlike(Specialize(m, col, sig[0]), Specialize(m', col, sig[0]));
      ConsCases(Case(sig[0], Compile(Specialize(m, col, sig[0]))), Case(sig[0], Compile(Specialize(m', col, sig[0]))),
                CompileCases(m, col, sig[1..]), CompileCases(m', col, sig[1..]));
    }
  }

  lemma CaseAlike(m: Matrix, m': Matrix, col: nat, c: Constructor)
    requires Alike(m, m') && SameBranches(m.rows, m'.rows) && ColumnFits(m, col, c) && ColumnFits(m', col, c)
    ensures Alike(Specialize(m, col, c), Specialize(m', col, c))
    ensures SameBranches(Specialize(m, col, c).rows, Specialize(m', col, c).rows)
  {
    var (place, place') := (m.cols[col], m'.cols[col]);
    ColumnReady(m, col);
    ColumnReady(m', col);
    SpecializeAlike(m, m', col, c);
    assert place.ty == place'.ty;
    SpecializeBranches(m.rows, m'.rows, col, c, place, place', DeclShape(place.ty, c), |CtorPlaces(place, c)|);
  }

  // ----- the tree of a match -----

  /** The tree of a match on a scrutinee of type t, wherever the scrutinee is. */
  ghost function MatchTree(arms: seq<Arm>, t: Ty): Tree
    requires ArmsTyped(arms, t)
  {
    MatchMatrixOk(Place(0, [], t), arms);
    Compile(MatchMatrix(Place(0, [], t), arms))
  }

  lemma TaggedAnywhere(place: Place, arms: seq<Arm>, target: IntWidth)
    requires ArmsTyped(arms, place.ty)
    ensures MatrixOk(MatchMatrix(place, arms))
    ensures TreeTagged(Compile(MatchMatrix(place, arms)), target) <==> TreeTagged(MatchTree(arms, place.ty), target)
  {
    MatchMatrixOk(place, arms);
    MatchMatrixOk(Place(0, [], place.ty), arms);
    CompileAlike(MatchMatrix(place, arms), MatchMatrix(Place(0, [], place.ty), arms));
    SameTagged(Compile(MatchMatrix(place, arms)), MatchTree(arms, place.ty), target);
  }

  // ----- what the patterns say about it -----

  /** The enums whose tag the lowering reads. */
  ghost function Readable(target: IntWidth): iset<Ty> {
    iset t: Ty | TagTy(t, target).Some?
  }

  lemma {:induction false} EnumsTagged(t: Tree, local: nat, branches: nat, target: IntWidth)
    requires TreeOk(t, local, branches, EnumsIn(Readable(target)))
    ensures TreeTagged(t, target)
    decreases t
  {
    if t.Switch? {
      forall i | 0 <= i < |t.cases| ensures TreeTagged(t.cases[i].tree, target) {
        EnumsTagged(t.cases[i].tree, local, branches, target);
      }
      if t.default.Some? {
        EnumsTagged(t.default.value, local, branches, target);
      }
    }
  }

  /** It is enough that the enums the patterns look into have readable tags; the others may be anything. */
  lemma ReadPatternsTagged(arms: seq<Arm>, t: Ty, target: IntWidth)
    requires ArmsTyped(arms, t) && ArmsMeet(arms, t, EnumsIn(Readable(target)))
    ensures TreeTagged(MatchTree(arms, t), target)
  {
    var place := Place(0, [], t);
    MatchMatrixOk(place, arms);
    ArmRowsMeet(place, arms, EnumsIn(Readable(target)));
    CompileTreeOk(MatchMatrix(place, arms), 0, |arms|, EnumsIn(Readable(target)));
    EnumsTagged(MatchTree(arms, t), 0, |arms|, target);
  }

  /** And the enum of the scrutinee must have one as soon as the first arm tests it. */
  lemma FirstTestTagged(arms: seq<Arm>, t: Ty, target: IntWidth)
    requires ArmsTyped(arms, t) && t.EnumT? && arms != [] && arms[0].pat.CtorPat?
    ensures TreeTagged(MatchTree(arms, t), target) ==> TagTy(t, target).Some?
  {
    var m := MatchMatrix(Place(0, [], t), arms);
    MatchMatrixOk(Place(0, [], t), arms);
    assert !IsWild(m.rows[0].cells[0]);
    assert Picks(m, 0);
    PicksColumn(m, 0);
    DefaultOk(m, 0);
    CompileSwitch(m, 0);
  }

  // ----- which tags can be read -----

  lemma {:induction false} MaxSizeZero(layouts: seq<Layout>)
    ensures MaxSize(layouts) == 0 <==> forall k :: 0 <= k < |layouts| ==> layouts[k].size == 0
  {
    if layouts != [] {
      MaxSizeZero(layouts[1..]);
      assert forall k :: 0 < k < |layouts| ==> layouts[k] == layouts[1..][k - 1];
    }
  }

  lemma PayloadSize(variants: seq<Layout>)
    ensures AlignUp(MaxSize(variants), Pow2(MaxAlign(variants))) == 0 <==> MaxSize(variants) == 0
  {
    AlignUpSpec(MaxSize(variants), Pow2(MaxAlign(variants)));
    assert 0 % Pow2(MaxAlign(variants)) == 0;
  }

  lemma TaggedData(variants: seq<Layout>)
    ensures MaxSize(variants) == 0 ==> AlwaysTagged(variants).data == Scalar(Int(TagWidthFor(|variants|)))
    ensures MaxSize(variants) > 0 ==>
              AlwaysTagged(variants).data.Union? && AlwaysTagged(variants).data.tag == TagWidthFor(|variants|)
  {
    PayloadSize(variants);
  }

  /** The lowering reads tags of these widths only. */
  predicate ReadWidth(w: IntWidth) {
    w == I8 || w == I32 || w == I64
  }

  lemma TagTyData(t: Ty, target: IntWidth)
    ensures TagTy(t, target).Some? <==>
              LayoutOf(t, target).data.Union? && ReadWidth(LayoutOf(t, target).data.tag)
  {
  }

  lemma WidthRead(n: nat)
    requires n < 0x1_0000_0000
    ensures ReadWidth(TagWidthFor(n)) <==> n <= 0x100 || 0x1_0000 < n
  {
  }

  lemma EnumRead(layouts: seq<Layout>)
    requires |layouts| < 0x1_0000_0000 && (|layouts| == 1 ==> !layouts[0].data.Union?)
    ensures EnumLayout(layouts).data.Union? && ReadWidth(EnumLayout(layouts).data.tag) <==>
              MaxSize(layouts) > 0 && (2 <= |layouts| <= 0x100 || 0x1_0000 < |layouts|)
  {
    TaggedData(layouts);
    WidthRead(|layouts|);
  }

  /** Some variant has a payload that takes up space. */
  ghost predicate HasPayload(vs: seq<Variant>, target: IntWidth) {
    exists k :: 0 <= k < |vs| && VariantLayouts(vs, target)[k].size > 0
  }

  lemma PayloadExact(vs: seq<Variant>, target: IntWidth)
    ensures HasPayload(vs, target) <==> MaxSize(VariantLayouts(vs, target)) > 0
  {
    MaxSizeZero(VariantLayouts(vs, target));
  }

  lemma VariantNotUnion(vs: seq<Variant>, target: IntWidth)
    requires vs != []
    ensures !VariantLayouts(vs, target)[0].data.Union?
  {
    assert VariantLayouts(vs, target)[0] == FinishAggregate(LayoutsOf(vs[0].tys, target));
  }

  lemma EnumLayoutOf(vs: seq<Variant>, target: IntWidth)
    ensures LayoutOf(EnumT(vs), target) == EnumLayout(VariantLayouts(vs, target))
  {
  }

  /**
   * The tag of an enum can be read if and only if it has two variants or more, one of
   * them with a payload, and a tag of one byte or four.
   */
  lemma TagReadable(vs: seq<Variant>, target: IntWidth)
    requires |vs| < 0x1_0000_0000
    ensures TagTy(EnumT(vs), target).Some? <==>
              HasPayload(vs, target) && (2 <= |vs| <= 0x100 || 0x1_0000 < |vs|)
  {
    TagTyData(EnumT(vs), target);
    EnumLayoutOf(vs, target);
    if vs != [] {
      VariantNotUnion(vs, target);
    }
    EnumRead(VariantLayouts(vs, target));
    PayloadExact(vs, target);
  }

  /** The tag is read as an integer of exactly the layout in which the enum stores it. */
  lemma TagReadAsStored(t: Ty, target: IntWidth)
    requires t.EnumT? && TyOk(t) && TagTy(t, target).Some?
    ensures var (l, kt) := (LayoutOf(t, target), TagTy(t, target).value);
            && l.data.Union? && kt.IntT? && LayoutOf(kt, target) == IntLayout(l.data.tag)
            && Reach(l, [ToTag], 0) == Some(ScalarAt(0, WidthSize(l.data.tag), WidthAlign(l.data.tag), Int(l.data.tag)))
  {
    var layouts := VariantLayouts(t.variants, target);
    if |layouts| > 1 {
      UnionTag(layouts);
      TagWidthCases(|layouts|);
    } else if layouts != [] {
      VariantNotUnion(t.variants, target);
    }
  }

  lemma TagWidthCases(n: nat)
    ensures TagWidthFor(n) == I8 || TagWidthFor(n) == I16 || TagWidthFor(n) == I32
  {
  }
}
