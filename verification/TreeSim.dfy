/** Running the switch blocks of a decision tree walks the tree. */
module TreeSim {
  import opened Core
  import opened Patterns
  import opened DecisionTree
  import opened MatchCompiler
  import opened MatchCompilerSteps
  import opened MatchCompilerTheorems
  import Layout
  import M = Mir
  import opened Builder
  import opened Lowering
  import opened LoweringShape
  import opened LoweringSim

  // ----- trees that come from a match -----

  ghost predicate CaseOk(c: Constructor, t: Ty, demand: Demand := Nothing) {
    match c
    case VariantC(k) => t.EnumT? && k < |t.variants|
    case IntC(n) => PatOk(IntPat(n), t, demand)
    case BoolC(_) => false
  }

  /** All places start at one local, leaves name existing branches, cases are distinct. */
  ghost predicate TreeOk(t: Tree, local: nat, branches: nat, demand: Demand := Nothing)
    decreases t
  {
    match t
    case Fail => true
    case Leaf(branch, bs) => branch < branches && forall i :: 0 <= i < |bs| ==> bs[i].place.local == local
    case Switch(place, cases, default) =>
      && place.local == local && TyOk(place.ty) && (place.ty.EnumT? || place.ty.IntT?)
      && (demand.EnumsIn? && place.ty.EnumT? ==> place.ty in demand.enums)
      && (forall i, j :: 0 <= i < j < |cases| ==> cases[i].ctor != cases[j].ctor)
      && (forall i :: 0 <= i < |cases| ==> CaseOk(cases[i].ctor, place.ty, demand))
      && (forall i :: 0 <= i < |cases| ==> TreeOk(cases[i].tree, local, branches, demand))
      && (default.Some? ==> TreeOk(default.value, local, branches, demand))
  }

  ghost predicate BindingsAt(bs: seq<Binding>, local: nat) {
    forall i :: 0 <= i < |bs| ==> bs[i].place.local == local
  }

  ghost predicate RowsAt(rows: seq<Row>, local: nat, branches: nat) {
    forall r {:trigger rows[r]} :: 0 <= r < |rows| ==> rows[r].branch < branches && BindingsAt(rows[r].bindings, local)
  }

  ghost predicate ColsLocal(cols: seq<Place>, local: nat) {
    forall i :: 0 <= i < |cols| ==> cols[i].local == local
  }

  lemma {:induction false} LeafBindingsAt(cells: seq<Cell>, cols: seq<Place>, bs: seq<Binding>, local: nat)
    requires |cells| == |cols| && ColsLocal(cols, local) && BindingsAt(bs, local)
    ensures BindingsAt(LeafBindings(cells, cols, bs), local)
  {
    if cells != [] {
      LeafBindingsAt(cells[1..], cols[1..], bs + CellBindings(cells[0], cols[0]), local);
    }
  }

  lemma {:induction false} SpecializeRowsAt(rows: seq<Row>, col: nat, c: Constructor, place: Place, decl: Shape,
                                            arity: nat, local: nat, branches: nat)
    requires forall r :: 0 <= r < |rows| ==> col < |rows[r].cells| && CellShaped(rows[r].cells[col])
    requires RowsAt(rows, local, branches) && place.local == local
    ensures RowsAt(SpecializeRows(rows, col, c, place, decl, arity), local, branches)
  {
    if rows != [] {
      SpecializeRowsAt(rows[1..], col, c, place, decl, arity, local, branches);
    }
  }

  lemma {:induction false} DefaultRowsAt(rows: seq<Row>, col: nat, place: Place, local: nat, branches: nat)
    requires forall r :: 0 <= r < |rows| ==> col < |rows[r].cells|
    requires RowsAt(rows, local, branches) && place.local == local
    ensures RowsAt(DefaultRows(rows, col, place), local, branches)
  {
    if rows != [] {
      DefaultRowsAt(rows[1..], col, place, local, branches);
    }
  }

  lemma SpliceLocal(cols: seq<Place>, col: nat, places: seq<Place>, local: nat)
    requires ColsLocal(cols, local) && col < |cols| && ColsLocal(places, local)
    ensures ColsLocal(Splice(cols, col, places), local)
  {
  }

  lemma {:induction false} CompileTreeOk(m: Matrix, local: nat, branches: nat, demand: Demand)
    requires MatrixOk(m) && RowsOk(m.rows, m.cols, demand) && ColsLocal(m.cols, local)
             && RowsAt(m.rows, local, branches)
    ensures TreeOk(Compile(m), local, branches, demand)
    decreases RowsSize(m.rows), 2, 0
  {
    if m.rows == [] {
    } else if AllWild(m.rows[0].cells) {
      assert RowOk(m.rows[0], m.cols);
      LeafBindingsAt(m.rows[0].cells, m.cols, m.rows[0].bindings, local);
    } else {
      assert RowOk(m.rows[0], m.cols);
      var col := FirstRefutable(m.rows[0].cells);
      PicksColumn(m, col);
      if Irrefutable(m.cols[col].ty) {
        SpliceLocal(m.cols, col, FieldPlaces(m.cols[col]), local);
        ExpandShrinks(m, col);
        ExpandOk(m, col);
        ExpandMeets(m, col, demand);
        CompileTreeOk(Expand(m, col), local, branches, demand);
        CompileTuple(m, col);
      } else {
        SwitchTreeOk(m, local, branches, col, demand);
      }
    }
  }

  lemma {:induction false} SwitchTreeOk(m: Matrix, local: nat, branches: nat, col: nat, demand: Demand)
    requires MatrixOk(m) && RowsOk(m.rows, m.cols, demand) && ColsLocal(m.cols, local)
             && RowsAt(m.rows, local, branches)
    requires Picks(m, col) && col < |m.cols| && !Irrefutable(m.cols[col].ty)
    ensures TreeOk(Compile(m), local, branches, demand)
    decreases RowsSize(m.rows), 1
  {
    PicksColumn(m, col);
    var sig := Signature(m.rows, col);
    CasesTreeOk(m, local, branches, col, sig, demand);
    if !IsComplete(sig, m.cols[col].ty) {
      DefaultShrinks(m, col);
      DefaultOk(m, col);
      DefaultMeets(m, col, demand);
      SpliceLocal(m.cols, col, [], local);
      DefaultRowsAt(m.rows, col, m.cols[col], local, branches);
      CompileTreeOk(Default(m, col), local, branches, demand);
    }
    SwitchNodeOk(m, local, branches, col, demand);
  }

  lemma SwitchNodeOk(m: Matrix, local: nat, branches: nat, col: nat, demand: Demand)
    requires MatrixOk(m) && RowsOk(m.rows, m.cols, demand) && ColsLocal(m.cols, local)
    requires Picks(m, col) && col < |m.cols| && !Irrefutable(m.cols[col].ty)
    requires forall r :: 0 <= r < |m.rows| ==> col < |m.rows[r].cells|
    requires SigFits(m, col, Signature(m.rows, col))
    requires forall i :: 0 <= i < |Signature(m.rows, col)| ==>
               TreeOk(CompileCases(m, col, Signature(m.rows, col))[i].tree, local, branches, demand)
    requires !IsComplete(Signature(m.rows, col), m.cols[col].ty) ==>
             MatrixOk(Default(m, col)) && TreeOk(Compile(Default(m, col)), local, branches, demand)
    ensures TreeOk(Compile(m), local, branches, demand)
  {
    var sig := Signature(m.rows, col);
    PicksColumn(m, col);
    DefaultOk(m, col);
    CompileSwitch(m, col);
    SwitchCtorsOk(m, col, demand);
    assert TyOk(m.cols[col].ty);
  }

  lemma SwitchCtorsOk(m: Matrix, col: nat, demand: Demand)
    requires MatrixOk(m) && RowsOk(m.rows, m.cols, demand)
    requires Picks(m, col) && col < |m.cols| && SigFits(m, col, Signature(m.rows, col))
    requires forall r :: 0 <= r < |m.rows| ==> col < |m.rows[r].cells|
    ensures CasesOk(CompileCases(m, col, Signature(m.rows, col)), m.cols[col].ty, demand)
  {
    var sig := Signature(m.rows, col);
    SignatureIncreasing(m.rows, col);
    CaseCtors(m, col, sig);
    SignatureCases(m, col, demand);
    forall i | 0 <= i < |sig| ensures CaseOk(sig[i], m.cols[col].ty, demand) {
      assert sig[i] in sig;
    }
    forall i, j | 0 <= i < j < |sig| ensures sig[i] != sig[j] {
      assert Before(sig[i], sig[j]);
    }
  }

  lemma SignatureCases(m: Matrix, col: nat, demand: Demand)
    requires Picks(m, col) && col < |m.cols| && RowsOk(m.rows, m.cols, demand)
    requires forall r :: 0 <= r < |m.rows| ==> col < |m.rows[r].cells|
    ensures forall c :: c in Signature(m.rows, col) ==> CaseOk(c, m.cols[col].ty, demand)
  {
    forall c | c in Signature(m.rows, col) ensures CaseOk(c, m.cols[col].ty, demand) {
      var r :| 0 <= r < |m.rows| && ConstructorOf(m.rows[r].cells[col]) == Some(c);
      assert RowOk(m.rows[r], m.cols, demand) && CellOk(m.rows[r].cells[col], m.cols[col].ty, demand);
    }
  }

  /** The matrix of a case is again one of the same match. */
  lemma CaseMatrixOk(m: Matrix, local: nat, branches: nat, col: nat, c: Constructor, demand: Demand)
    requires MatrixOk(m) && RowsOk(m.rows, m.cols, demand) && ColsLocal(m.cols, local)
    requires RowsAt(m.rows, local, branches) && ColumnFits(m, col, c)
    ensures MatrixOk(Specialize(m, col, c)) && ColsLocal(Specialize(m, col, c).cols, local)
    ensures RowsOk(Specialize(m, col, c).rows, Specialize(m, col, c).cols, demand)
    ensures RowsAt(Specialize(m, col, c).rows, local, branches)
  {
    var places := CtorPlaces(m.cols[col], c);
    ColumnReady(m, col);
    SpliceLocal(m.cols, col, places, local);
    SpecializeRowsAt(m.rows, col, c, m.cols[col], DeclShape(m.cols[col].ty, c), |places|, local, branches);
    SpecializeOk(m, col, c);
    SpecializeMeets(m, col, c, demand);
  }

  lemma {:induction false} CasesTreeOk(m: Matrix, local: nat, branches: nat, col: nat, sig: seq<Constructor>,
                                       demand: Demand)
    requires MatrixOk(m) && RowsOk(m.rows, m.cols, demand) && ColsLocal(m.cols, local)
    requires RowsAt(m.rows, local, branches) && col < |m.cols| && SigFits(m, col, sig)
    ensures forall i :: 0 <= i < |sig| ==> TreeOk(CompileCases(m, col, sig)[i].tree, local, branches, demand)
    decreases RowsSize(m.rows), 0, |sig|
  {
    if sig != [] {
      FirstCase(m, col, sig);
      CasesTreeOk(m, local, branches, col, sig[1..], demand);
      CaseMatrixOk(m, local, branches, col, sig[0], demand);
      CompileTreeOk(Specialize(m, col, sig[0]), local, branches, demand);
    }
  }

  // ----- switch keys -----

  /** The key a value is switched on: the tag of an enum, the 128-bit pattern of an integer. */
  ghost function ValueKey(c: Constructor): int {
    match c
    case VariantC(k) => M.Key(k)
    case IntC(n) => M.Key(n)
    case BoolC(_) => 0
  }

  /** As 128-bit patterns, no two constructors of well-typed values share a key. */
  lemma KeysDistinct(c: Constructor, v: Value, t: Ty)
    requires CaseOk(c, t) && TyOk(t) && HasType(v, t) && Head(v).Some?
    ensures CaseKey(c, t.EnumT?).Some?
    ensures CaseKey(c, t.EnumT?).value == ValueKey(Head(v).value) <==> c == Head(v).value
  {
  }

  /** The pattern of a value of the type: negative numbers wrap around once. */
  lemma PatternOf(n: int, width: WidthKind, signed: bool)
    requires InRange(n, width, signed)
    ensures n % (2 * HalfRange(width)) == if n < 0 then n + 2 * HalfRange(width) else n
  {
    match width
    case System =>
    case Fixed(I8) =>
    case Fixed(I16) =>
    case Fixed(I32) =>
    case Fixed(I64) =>
    case Fixed(I128) =>
  }

  /** What the back end compares a value with for the literal lit. */
  lemma PatternOfLiteral(lit: int, width: WidthKind)
    requires 0 <= lit < TWO_TO_63
    ensures M.Key(lit) % TWO_TO_64 == lit
    ensures lit < 2 * HalfRange(width) ==> lit % (2 * HalfRange(width)) == lit
  {
  }

  /** A literal in the range of its type is hit by itself only. */
  lemma LiteralFaithful(lit: int, n: int, width: WidthKind, signed: bool)
    requires 0 <= lit < TWO_TO_63 && InRange(lit, width, signed) && InRange(n, width, signed)
    ensures M.Hits(M.Key(lit), n, IntT(width, signed)) <==> n == lit
  {
    PatternOf(n, width, signed);
    PatternOf(lit, width, signed);
    PatternOfLiteral(lit, width);
  }

  /** The value of the type that a literal is confused with. */
  function Wrapped(lit: int, width: WidthKind, signed: bool): int {
    var r := lit % (2 * HalfRange(width));
    if signed && r >= HalfRange(width) then r - 2 * HalfRange(width) else r
  }

  lemma WrappedHit(lit: int, width: WidthKind, signed: bool)
    requires 0 <= lit < TWO_TO_63
    ensures InRange(Wrapped(lit, width, signed), width, signed)
    ensures M.Hits(M.Key(lit), Wrapped(lit, width, signed), IntT(width, signed))
  {
    var n := Wrapped(lit, width, signed);
    assert HalfRange(width) > 0;
    PatternOf(n, width, signed);
    PatternOfLiteral(lit, width);
  }

  ghost predicate OnlyItself(lit: int, width: WidthKind, signed: bool) {
    forall n :: InRange(n, width, signed) ==> (M.Hits(M.Key(lit), n, IntT(width, signed)) <==> n == lit)
  }

  /**
   * The front end accepts any literal against any integer type. The branch of a literal
   * is taken for the literal and for no other value of the type if and only if the
   * literal is in the range of the type.
   */
  lemma LiteralKeysExact(lit: int, width: WidthKind, signed: bool)
    requires 0 <= lit < TWO_TO_63
    ensures OnlyItself(lit, width, signed) <==> InRange(lit, width, signed)
  {
    if InRange(lit, width, signed) {
      forall n | InRange(n, width, signed) ensures M.Hits(M.Key(lit), n, IntT(width, signed)) <==> n == lit {
        LiteralFaithful(lit, n, width, signed);
      }
    } else {
      WrappedHit(lit, width, signed);
    }
  }

  /** `match b { 256 => .., _ => .. }` on a byte that holds 0 jumps to the branch of 256. */
  lemma LiteralConfused(m: M.Machine)
    ensures var byte := IntT(Fixed(I8), false);
            var sw := M.Switch(M.Move(Place(0, [], byte)), map[M.Key(256) := 1], 2);
            && PatOk(IntPat(256), byte) && HasType(IntV(0), byte) && !Matches(IntPat(256), IntV(0))
            && CaseKey(IntC(256), false) == Some(M.Key(256))
            && M.Terminate(m, map[0 := IntV(0)], sw) == M.At(1, 0, map[0 := IntV(0)])
  {
    var byte := IntT(Fixed(I8), false);
    var branches: map<int, nat> := map[M.Key(256) := 1];
    assert M.Key(256) in branches && M.Hits(M.Key(256), 0, byte);
    assert M.HasHit(branches, 0, byte);
    assert M.ReadPlace(map[0 := IntV(0)], Place(0, [], byte)) == Some(IntV(0));
  }

  /** The number n of type kt that stands for the inspected value: its tag, or the integer itself. */
  ghost predicate StandsFor(n: int, kt: Ty, v: Value, t: Ty) {
    if t.EnumT? then v.EnumV? && n == v.variant && kt.IntT? && |t.variants| <= M.Modulus(kt)
    else v == IntV(n) && kt == t
  }

  lemma UnionTag(variants: seq<Layout.Layout>)
    requires Layout.EnumLayout(variants).data.Union? && |variants| > 1
    ensures Layout.EnumLayout(variants).data.tag == Layout.TagWidthFor(|variants|)
  {
  }

  lemma TagWidthRoom(n: nat, kt: Ty)
    requires n < 0x1_0000_0000 && kt.IntT?
    requires (Layout.TagWidthFor(n) == I8 && kt.width == Fixed(I8)) || kt.width == Fixed(I32) || kt.width == System
    ensures n <= M.Modulus(kt)
  {
  }

  /** The tag type that the lowering reads holds every variant index. */
  lemma TagRoom(t: Ty, target: IntWidth)
    requires t.EnumT? && TyOk(t) && TagTy(t, target).Some?
    ensures TagTy(t, target).value.IntT? && |t.variants| <= M.Modulus(TagTy(t, target).value)
  {
    var kt := TagTy(t, target).value;
    var layouts := Layout.VariantLayouts(t.variants, target);
    assert |layouts| == |t.variants| < 0x1_0000_0000;
    if |layouts| > 1 {
      UnionTag(layouts);
      TagWidthRoom(|layouts|, kt);
    }
  }

  /** With literals in range, the key of a case is hit exactly by the values of its constructor. */
  lemma KeysFaithful(c: Constructor, v: Value, t: Ty, n: int, kt: Ty)
    requires CaseOk(c, t, LiteralsInRange) && TyOk(t) && HasType(v, t) && Head(v).Some? && StandsFor(n, kt, v, t)
    ensures CaseKey(c, t.EnumT?).Some?
    ensures M.Hits(CaseKey(c, t.EnumT?).value, n, kt) <==> c == Head(v).value
  {
    match c
    case VariantC(k) => TagFaithful(k, v.variant, kt, |t.variants|);
    case IntC(lit) => LiteralFaithful(lit, n, t.width, t.signed);
  }

  lemma TagFaithful(k: nat, n: nat, kt: Ty, count: nat)
    requires k < count && n < count && count < 0x1_0000_0000 && kt.IntT? && count <= M.Modulus(kt)
    ensures M.Hits(k, n, kt) <==> k == n
  {
    assert k % TWO_TO_64 == k;
    assert k % M.Modulus(kt) == k && n % M.Modulus(kt) == n;
  }

  // ----- leaves -----

  /** The pattern locals are assigned one after the other. */
  ghost function Assigned(bs: seq<Binding>, t: M.Store): M.Store
    decreases |bs|
  {
    if bs == [] then t
    else
      var r := M.ReadPlace(t, bs[0].place);
      Assigned(bs[1..], if r.Some? then t[bs[0].local := r.value] else t)
  }

  ghost predicate Avoids(bs: seq<Binding>, local: nat) {
    forall i :: 0 <= i < |bs| ==> bs[i].local != local
  }

  lemma {:induction false} SimBindings(w: World, b: State, bs: seq<Binding>, b': State, t: M.Store, local: nat)
    returns (n: nat)
    requires EmitBindings(w.env, b, bs) == Some(b') && Wf(b) && Fits(b', w.g)
    requires local in t && BindingsAt(bs, local) && Avoids(bs, local) && MatchCompilerSteps.Readable(bs, t[local])
    ensures Wf(b') && M.Run(w.g, w.m, Pos(b, t), n) == Pos(b', Assigned(bs, t))
    decreases |bs|
  {
    EmitBindingsSeg(w.env, b, bs);
    if bs == [] {
      n := 0;
    } else {
      var dest := PlaceOfLocal(b, bs[0].local).value;
      var st := M.AssignTo(dest, M.UseOf(MoveOrCopy(w.env, bs[0].place)));
      var b1 := Emit(b, st).value;
      var t1 := t[bs[0].local := M.ReadPlace(t, bs[0].place).value];
      EmitSeg(b, st);
      EmitBindingsSeg(w.env, b1, bs[1..]);
      FitsBack(b1, b', w.g);
      assert M.ExecStmt(w.m, t, st) == Some(t1);
      StepEmit(w, b, st, b1, t, t1);
      n := SimBindings(w, b1, bs[1..], b', t1, local);
      Chain(w, Pos(b, t), 1, Pos(b1, t1), n, Pos(b', Assigned(bs, t)));
      n := 1 + n;
    }
  }

  // ----- finding the block of a case -----

  lemma {:induction false} LoweredKeys(env: Env, b: State, cases: seq<Case>, bbs: seq<nat>, diverge: nat, onEnum: bool,
                                       key: int)
    requires LowerCases(env, b, cases, bbs, diverge, onEnum).Some?
    ensures key in LowerCases(env, b, cases, bbs, diverge, onEnum).value.1 ==>
              exists i :: 0 <= i < |cases| && CaseKey(cases[i].ctor, onEnum) == Some(key)
    decreases |cases|
  {
    if cases != [] {
      var b1 := SwitchTo(NewBlock(b), |b.blocks|).value;
      var b2 := LowerTree(env, b1, cases[0].tree, bbs, diverge).value;
      LoweredKeys(env, b2, cases[1..], bbs, diverge, onEnum, key);
      if key in LowerCases(env, b2, cases[1..], bbs, diverge, onEnum).value.1 {
        var i :| 0 <= i < |cases[1..]| && CaseKey(cases[1..][i].ctor, onEnum) == Some(key);
        assert CaseKey(cases[i + 1].ctor, onEnum) == Some(key);
      } else if key in LowerCases(env, b, cases, bbs, diverge, onEnum).value.1 {
        assert CaseKey(cases[0].ctor, onEnum) == Some(key);
      }
    }
  }

  /** A sub-tree was lowered from an empty block of its own, inside the part of the graph built so far. */
  ghost predicate Lowered(env: Env, b: State, sub: Tree, bbs: seq<nat>, diverge: nat, start: State, end: State,
                          b': State)
  {
    && LowerTree(env, start, sub, bbs, diverge) == Some(end)
    && Wf(start) && !Closed(start) && start.blocks[start.current] == EMPTY_BLOCK
    && b.locals <= start.locals && |b.blocks| <= |start.blocks| && Grow(end, b')
  }

  ghost predicate CasesOk(cases: seq<Case>, t: Ty, demand: Demand := Nothing) {
    && (forall i, j :: 0 <= i < j < |cases| ==> cases[i].ctor != cases[j].ctor)
    && (forall i :: 0 <= i < |cases| ==> CaseOk(cases[i].ctor, t, demand))
  }

  lemma LaterCasesOk(cases: seq<Case>, t: Ty)
    requires cases != [] && CasesOk(cases, t)
    ensures CasesOk(cases[1..], t)
  {
    forall i, j | 0 <= i < j < |cases[1..]| ensures cases[1..][i].ctor != cases[1..][j].ctor {
      assert cases[i + 1].ctor != cases[j + 1].ctor;
    }
  }

  lemma {:induction false} FindLowered(env: Env, b: State, cases: seq<Case>, bbs: seq<nat>, diverge: nat, t: Ty,
                                       v: Value)
    returns (start: State, end: State)
    requires Wf(b) && IdsIn(bbs, |b.blocks|) && diverge < |b.blocks|
    requires LowerCases(env, b, cases, bbs, diverge, t.EnumT?).Some?
    requires CasesOk(cases, t) && TyOk(t) && HasType(v, t) && Head(v).Some?
    requires FindCase(cases, Head(v).value).Some?
    ensures var (b', branches) := LowerCases(env, b, cases, bbs, diverge, t.EnumT?).value;
            && Lowered(env, b, FindCase(cases, Head(v).value).value, bbs, diverge, start, end, b')
            && ValueKey(Head(v).value) in branches && branches[ValueKey(Head(v).value)] == start.current
    decreases |cases|
  {
    var c := Head(v).value;
    FreshSwitch(b);
    var b1 := SwitchTo(NewBlock(b), |b.blocks|).value;
    var b2 := LowerTree(env, b1, cases[0].tree, bbs, diverge).value;
    LowerTreeFill(env, b1, cases[0].tree, bbs, diverge);
    SubTreeKeep(b, b1, b2);
    LowerCasesKeep(env, b2, cases[1..], bbs, diverge, t.EnumT?);
    KeysDistinct(cases[0].ctor, v, t);
    LaterCasesOk(cases, t);
    if cases[0].ctor == c {
      start, end := b1, b2;
      KeyNotLater(env, b2, cases, bbs, diverge, t, v);
    } else {
      start, end := FindLowered(env, b2, cases[1..], bbs, diverge, t, v);
    }
  }

  lemma KeyNotLater(env: Env, b2: State, cases: seq<Case>, bbs: seq<nat>, diverge: nat, t: Ty, v: Value)
    requires cases != [] && LowerCases(env, b2, cases[1..], bbs, diverge, t.EnumT?).Some?
    requires CasesOk(cases, t) && TyOk(t) && HasType(v, t) && Head(v) == Some(cases[0].ctor)
    ensures ValueKey(cases[0].ctor) !in LowerCases(env, b2, cases[1..], bbs, diverge, t.EnumT?).value.1
  {
    var key := ValueKey(cases[0].ctor);
    LoweredKeys(env, b2, cases[1..], bbs, diverge, t.EnumT?, key);
    forall i | 0 <= i < |cases[1..]| ensures CaseKey(cases[1..][i].ctor, t.EnumT?) != Some(key) {
      assert cases[0].ctor != cases[i + 1].ctor;
      KeysDistinct(cases[i + 1].ctor, v, t);
    }
  }

  lemma {:induction false} NoCase(cases: seq<Case>, c: Constructor)
    requires FindCase(cases, c).None?
    ensures forall i :: 0 <= i < |cases| ==> cases[i].ctor != c
  {
    if cases != [] {
      NoCase(cases[1..], c);
    }
  }

  lemma KeyAbsent(env: Env, b: State, cases: seq<Case>, bbs: seq<nat>, diverge: nat, t: Ty, v: Value)
    requires LowerCases(env, b, cases, bbs, diverge, t.EnumT?).Some?
    requires CasesOk(cases, t) && TyOk(t) && HasType(v, t) && Head(v).Some? && FindCase(cases, Head(v).value).None?
    ensures ValueKey(Head(v).value) !in LowerCases(env, b, cases, bbs, diverge, t.EnumT?).value.1
  {
    var key := ValueKey(Head(v).value);
    NoCase(cases, Head(v).value);
    LoweredKeys(env, b, cases, bbs, diverge, t.EnumT?, key);
    forall i | 0 <= i < |cases| ensures CaseKey(cases[i].ctor, t.EnumT?) != Some(key) {
      KeysDistinct(cases[i].ctor, v, t);
    }
  }

  lemma StillCasesOk(cases: seq<Case>, t: Ty)
    requires CasesOk(cases, t, LiteralsInRange)
    ensures CasesOk(cases, t)
  {
    forall i | 0 <= i < |cases| ensures CaseOk(cases[i].ctor, t) {
      assert CaseOk(cases[i].ctor, t, LiteralsInRange);
    }
  }

  /** A key of the table is hit exactly when it is the key of the inspected value. */
  lemma HitKey(env: Env, b: State, cases: seq<Case>, bbs: seq<nat>, diverge: nat, t: Ty, v: Value, n: int, kt: Ty,
               key: int)
    requires LowerCases(env, b, cases, bbs, diverge, t.EnumT?).Some?
    requires CasesOk(cases, t, LiteralsInRange) && TyOk(t) && HasType(v, t) && Head(v).Some? && StandsFor(n, kt, v, t)
    requires key in LowerCases(env, b, cases, bbs, diverge, t.EnumT?).value.1
    ensures M.Hits(key, n, kt) <==> key == ValueKey(Head(v).value)
  {
    LoweredKeys(env, b, cases, bbs, diverge, t.EnumT?, key);
    var i :| 0 <= i < |cases| && CaseKey(cases[i].ctor, t.EnumT?) == Some(key);
    StillCasesOk(cases, t);
    KeysFaithful(cases[i].ctor, v, t, n, kt);
    KeysDistinct(cases[i].ctor, v, t);
  }

  /** So the switch jumps to the block of the value's own key, if the table has it. */
  lemma ChosenKey(branches: map<int, nat>, default: nat, n: int, kt: Ty, own: int)
    requires forall key :: key in branches ==> (M.Hits(key, n, kt) <==> key == own)
    ensures M.Chosen(branches, default, n, kt) == if own in branches then branches[own] else default
  {
  }

  // ----- the walk -----

  /** What a run of the lowered tree does, given what a walk of the tree answers. */
  ghost predicate TreePost(o: WalkResult, b: State, bbs: seq<nat>, t: M.Store, pre: M.Store, c: M.Config) {
    match o
    case Matched(branch, bs) => branch < |bbs| && Same(t, pre, |b.locals|)
                                && c == M.At(bbs[branch], 0, Assigned(bs, pre))
    case NoMatch => Stopped(b, t, c)
    case Stuck => false
  }

  /** The bindings a walk arrives with can be read, and do not overwrite the scrutinee. */
  ghost predicate WalkOk(o: WalkResult, root: Value, local: nat) {
    match o
    case Matched(_, bs) => MatchCompilerSteps.Readable(bs, root) && Avoids(bs, local)
    case NoMatch => true
    case Stuck => false
  }

  ghost predicate TreeReady(w: World, b: State, t: Tree, bbs: seq<nat>, diverge: nat, b': State, root: Value,
                            local: nat, s: M.Store)
  {
    && Wf(b) && !Closed(b) && Fits(b', w.g) && IdsIn(bbs, |b.blocks|) && diverge < |b.blocks|
    && local < |b.locals| && local in s && s[local] == root
    && TreeOk(t, local, |bbs|, LiteralsInRange) && WalkOk(Walk(t, root), root, local)
  }

  lemma {:induction false} SimTree(w: World, b: State, t: Tree, bbs: seq<nat>, diverge: nat, b': State, root: Value,
                                   local: nat, s: M.Store)
    returns (n: nat, c: M.Config, pre: M.Store)
    requires LowerTree(w.env, b, t, bbs, diverge) == Some(b') && TreeReady(w, b, t, bbs, diverge, b', root, local, s)
    ensures M.Run(w.g, w.m, Pos(b, s), n) == c && TreePost(Walk(t, root), b, bbs, s, pre, c)
    decreases t, 1
  {
    match t
    case Leaf(branch, bs) =>
      var b1 := EmitBindings(w.env, b, bs).value;
      EmitBindingsSeg(w.env, b, bs);
      TerminateKeeps(b1, M.Goto(bbs[branch]));
      FitsBack(b1, b', w.g);
      n := SimBindings(w, b, bs, b1, s, local);
      pre := s;
      c := M.At(bbs[branch], 0, Assigned(bs, s));
      StepTerminate(w, b1, M.Goto(bbs[branch]), b', Assigned(bs, s));
      Chain(w, Pos(b, s), n, Pos(b1, Assigned(bs, s)), 1, c);
      n := n + 1;
    case Fail =>
      StepTerminate(w, b, M.Diverge, b', s);
      n, c, pre := 1, M.Done(M.Diverged, s), s;
    case Switch(place, _, _) =>
      var v := Project(root, place.projs).value;
      if place.ty.EnumT? {
        n, c, pre := SimEnumSwitch(w, b, t, bbs, diverge, b', root, local, s);
      } else {
        assert M.EvalOperand(s, M.Move(place)) == Some(v);
        n, c, pre := SimSwitch(w, b, M.Move(place), t, bbs, diverge, b', root, local, s);
      }
  }

  /** The number under the operand stands for the inspected value. */
  ghost predicate OperandKey(o: M.Operand, s: M.Store, v: Value, t: Ty) {
    && Head(v).Some? && M.EvalOperand(s, o).Some? && M.EvalOperand(s, o).value.IntV?
    && StandsFor(M.EvalOperand(s, o).value.n, M.OperandTy(o), v, t)
  }

  /** Reading the tag of the inspected value into a local of its own. */
  lemma TagStep(w: World, b: State, place: Place, tagTy: Ty, b1: State, v: Value, s: M.Store)
    requires Wf(b) && Fits(b1, w.g) && place.ty.EnumT? && TyOk(place.ty) && HasType(v, place.ty)
             && M.ReadPlace(s, place) == Some(v)
    requires Emit(NewLocal(b, tagTy), M.AssignTo(Place(|b.locals|, [], tagTy), M.Discriminant(place, tagTy))) ==
             Some(b1)
    requires TagTy(place.ty, w.env.target) == Some(tagTy)
    ensures Seg(b, b1) && !Closed(b1)
    ensures var s1 := s[|b.locals| := IntV(v.variant)];
            && M.Run(w.g, w.m, Pos(b, s), 1) == Pos(b1, s1)
            && Same(s, s1, |b.locals|)
            && OperandKey(M.Move(Place(|b.locals|, [], tagTy)), s1, v, place.ty)
  {
    TagRoom(place.ty, w.env.target);
    var tag := Place(|b.locals|, [], tagTy);
    var st := M.AssignTo(tag, M.Discriminant(place, tagTy));
    var b0 := NewLocal(b, tagTy);
    NewLocalSeg(b, tagTy);
    EmitSeg(b0, st);
    SegTrans(b, b0, b1);
    var s1 := s[|b.locals| := IntV(v.variant)];
    assert M.ExecStmt(w.m, s, st) == Some(s1);
    StepEmit(w, b0, st, b1, s, s1);
    assert Pos(b0, s) == Pos(b, s);
    ReadLocal(s1, |b.locals|, tagTy);
  }

  /** An enum is switched on its tag. */
  lemma {:induction false} SimEnumSwitch(w: World, b: State, t: Tree, bbs: seq<nat>, diverge: nat, b': State,
                                         root: Value, local: nat, s: M.Store)
    returns (n: nat, c: M.Config, pre: M.Store)
    requires t.Switch? && t.place.ty.EnumT?
    requires LowerTree(w.env, b, t, bbs, diverge) == Some(b') && TreeReady(w, b, t, bbs, diverge, b', root, local, s)
    ensures M.Run(w.g, w.m, Pos(b, s), n) == c && TreePost(Walk(t, root), b, bbs, s, pre, c)
    decreases t, 0, 1
  {
    var v := Project(root, t.place.projs).value;
    var tagTy := TagTy(t.place.ty, w.env.target).value;
    var tag := Place(|b.locals|, [], tagTy);
    var b1 := Emit(NewLocal(b, tagTy), M.AssignTo(tag, M.Discriminant(t.place, tagTy))).value;
    TagSeg(b, t.place, tagTy, b1);
    LowerSwitchFill(w.env, b1, M.Move(tag), t, bbs, diverge);
    FitsBack(b1, b', w.g);
    TagStep(w, b, t.place, tagTy, b1, v, s);
    var s1 := s[|b.locals| := IntV(v.variant)];
    n, c, pre := SimSwitch(w, b1, M.Move(tag), t, bbs, diverge, b', root, local, s1);
    Chain(w, Pos(b, s), 1, Pos(b1, s1), n, c);
    TreePostBack(Walk(t, root), b, b1, bbs, s, s1, pre, c);
    n := 1 + n;
  }

  lemma TagSeg(b: State, place: Place, tagTy: Ty, b1: State)
    requires Wf(b)
             && Emit(NewLocal(b, tagTy), M.AssignTo(Place(|b.locals|, [], tagTy), M.Discriminant(place, tagTy))) ==
                Some(b1)
    ensures Seg(b, b1) && !Closed(b1)
  {
    NewLocalSeg(b, tagTy);
    EmitSeg(NewLocal(b, tagTy), M.AssignTo(Place(|b.locals|, [], tagTy), M.Discriminant(place, tagTy)));
    SegTrans(b, NewLocal(b, tagTy), b1);
  }

  lemma TreePostBack(o: WalkResult, b: State, b1: State, bbs: seq<nat>, s: M.Store, s1: M.Store, pre: M.Store,
                     c: M.Config)
    requires TreePost(o, b1, bbs, s1, pre, c) && Same(s, s1, |b.locals|) && |b.locals| <= |b1.locals|
    ensures TreePost(o, b, bbs, s, pre, c)
  {
    if o.Matched? {
      SameTrans(s, s1, pre, |b.locals|, |b1.locals|);
    } else {
      SameTrans(s, s1, c.store, |b.locals|, |b1.locals|);
    }
  }

  lemma {:induction false} SimSwitch(w: World, b: State, o: M.Operand, t: Tree, bbs: seq<nat>, diverge: nat, b': State,
                                     root: Value, local: nat, s: M.Store)
    returns (n: nat, c: M.Config, pre: M.Store)
    requires t.Switch? && LowerSwitch(w.env, b, o, t, bbs, diverge) == Some(b')
             && TreeReady(w, b, t, bbs, diverge, b', root, local, s)
    requires OperandKey(o, s, Project(root, t.place.projs).value, t.place.ty)
    ensures M.Run(w.g, w.m, Pos(b, s), n) == c && TreePost(Walk(t, root), b, bbs, s, pre, c)
    decreases t, 0, 0
  {
    var v := Project(root, t.place.projs).value;
    var head := Head(v).value;
    var start, end := SwitchTarget(w, b, o, t, bbs, diverge, b', v, s);
    var sub := if FindCase(t.cases, head).Some? then FindCase(t.cases, head).value else t.default.value;
    SubTreeSmaller(t, head);
    SubTreeReady(w, b, t, sub, bbs, diverge, b', start, end, root, local, s);
    n, c, pre := SimTree(w, start, sub, bbs, diverge, end, root, local, s);
    Chain(w, Pos(b, s), 1, Pos(start, s), n, c);
    SubTreePost(Walk(sub, root), b, start, bbs, s, pre, c);
    n := 1 + n;
  }

  /** The sub-tree that the walk continues in is as fit to be run as the whole. */
  lemma SubTreeReady(w: World, b: State, t: Tree, sub: Tree, bbs: seq<nat>, diverge: nat, b': State, start: State,
                     end: State, root: Value, local: nat, s: M.Store)
    requires t.Switch? && TreeReady(w, b, t, bbs, diverge, b', root, local, s)
    requires Lowered(w.env, b, sub, bbs, diverge, start, end, b') && Fits(end, w.g)
    requires Head(Project(root, t.place.projs).value).Some?
    requires var head := Head(Project(root, t.place.projs).value).value;
             if FindCase(t.cases, head).Some? then sub == FindCase(t.cases, head).value else t.default == Some(sub)
    ensures Walk(sub, root) == Walk(t, root)
    ensures TreeReady(w, start, sub, bbs, diverge, end, root, local, s)
  {
    var head := Head(Project(root, t.place.projs).value).value;
    if FindCase(t.cases, head).Some? {
      var i :| 0 <= i < |t.cases| && t.cases[i] == Case(head, sub);
      assert TreeOk(t.cases[i].tree, local, |bbs|, LiteralsInRange);
    }
  }

  lemma SubTreePost(o: WalkResult, b: State, start: State, bbs: seq<nat>, s: M.Store, pre: M.Store, c: M.Config)
    requires TreePost(o, start, bbs, s, pre, c) && |b.locals| <= |start.locals|
    ensures TreePost(o, b, bbs, s, pre, c)
  {
  }

  lemma SubTreeSmaller(t: Tree, c: Constructor)
    requires t.Switch?
    ensures FindCase(t.cases, c).Some? ==> FindCase(t.cases, c).value < t
    ensures t.default.Some? ==> t.default.value < t
  {
    if FindCase(t.cases, c).Some? {
      var i :| 0 <= i < |t.cases| && t.cases[i] == Case(c, FindCase(t.cases, c).value);
      assert t.cases[i].tree < t.cases[i] && t.cases[i] < t;
    }
  }

  /** One step of the switch leads to the start of the sub-tree the walk continues in. */
  lemma SwitchTarget(w: World, b: State, o: M.Operand, t: Tree, bbs: seq<nat>, diverge: nat, b': State, v: Value,
                     s: M.Store)
    returns (start: State, end: State)
    requires t.Switch? && LowerSwitch(w.env, b, o, t, bbs, diverge) == Some(b') && Fits(b', w.g)
    requires Wf(b) && !Closed(b) && IdsIn(bbs, |b.blocks|) && diverge < |b.blocks|
    requires CasesOk(t.cases, t.place.ty, LiteralsInRange) && TyOk(t.place.ty) && HasType(v, t.place.ty)
    requires OperandKey(o, s, v, t.place.ty)
    requires FindCase(t.cases, Head(v).value).Some? || t.default.Some?
    ensures var sub := if FindCase(t.cases, Head(v).value).Some? then FindCase(t.cases, Head(v).value).value
            else t.default.value;
            Lowered(w.env, b, sub, bbs, diverge, start, end, b') && Fits(end, w.g)
    ensures M.Run(w.g, w.m, Pos(b, s), 1) == Pos(start, s)
  {
    var onEnum := t.place.ty.EnumT?;
    var (b1, branches) := LowerCases(w.env, b, t.cases, bbs, diverge, onEnum).value;
    LowerCasesKeep(w.env, b, t.cases, bbs, diverge, onEnum);
    StillCasesOk(t.cases, t.place.ty);
    OwnKey(w, b, o, t, bbs, diverge, branches, v, s);
    if t.default.None? {
      start, end := FindLowered(w.env, b, t.cases, bbs, diverge, t.place.ty, v);
      SwitchStep(w, b, o, b1, branches, diverge, b', v, t.place.ty, s);
      GrowTrans(end, b1, b');
    } else {
      FreshSwitch(b1);
      var b2 := SwitchTo(NewBlock(b1), |b1.blocks|).value;
      var b3 := LowerTree(w.env, b2, t.default.value, bbs, diverge).value;
      LowerTreeFill(w.env, b2, t.default.value, bbs, diverge);
      SubTreeKeep(b1, b2, b3);
      KeepTrans(b, b1, b3);
      start, end := DefaultTarget(w, b, t, bbs, diverge, b1, branches, b2, b3, v);
      SwitchStep(w, b, o, b3, branches, |b1.blocks|, b', v, t.place.ty, s);
      GrowTrans(end, b3, b');
    }
    FitsBack(end, b', w.g);
  }

  /** A table whose keys are hit exactly when they are the key of the inspected value. */
  ghost predicate KeyedBy(branches: map<int, nat>, o: M.Operand, s: M.Store, v: Value, t: Ty)
    requires OperandKey(o, s, v, t)
  {
    forall key :: key in branches ==>
      (M.Hits(key, M.EvalOperand(s, o).value.n, M.OperandTy(o)) <==> key == ValueKey(Head(v).value))
  }

  lemma OwnKey(w: World, b: State, o: M.Operand, t: Tree, bbs: seq<nat>, diverge: nat, branches: map<int, nat>,
               v: Value, s: M.Store)
    requires t.Switch? && LowerCases(w.env, b, t.cases, bbs, diverge, t.place.ty.EnumT?).Some?
    requires branches == LowerCases(w.env, b, t.cases, bbs, diverge, t.place.ty.EnumT?).value.1
    requires CasesOk(t.cases, t.place.ty, LiteralsInRange) && TyOk(t.place.ty) && HasType(v, t.place.ty)
    requires OperandKey(o, s, v, t.place.ty)
    ensures KeyedBy(branches, o, s, v, t.place.ty)
  {
    var (n, kt) := (M.EvalOperand(s, o).value.n, M.OperandTy(o));
    forall key | key in branches ensures M.Hits(key, n, kt) <==> key == ValueKey(Head(v).value) {
      HitKey(w.env, b, t.cases, bbs, diverge, t.place.ty, v, n, kt, key);
    }
  }

  lemma DefaultTarget(w: World, b: State, t: Tree, bbs: seq<nat>, diverge: nat, b1: State, branches: map<int, nat>,
                      b2: State, b3: State, v: Value)
    returns (start: State, end: State)
    requires t.Switch? && t.default.Some? && Wf(b) && IdsIn(bbs, |b.blocks|) && diverge < |b.blocks|
    requires LowerCases(w.env, b, t.cases, bbs, diverge, t.place.ty.EnumT?) == Some((b1, branches)) && Keep(b, b1)
             && Keep(b1, b3)
    requires CasesOk(t.cases, t.place.ty) && TyOk(t.place.ty) && HasType(v, t.place.ty) && Head(v).Some?
    requires Wf(b2) && !Closed(b2) && b2.current == |b1.blocks| && b2.blocks == b1.blocks + [EMPTY_BLOCK]
             && b2.locals == b1.locals
    requires LowerTree(w.env, b2, t.default.value, bbs, diverge) == Some(b3)
    ensures var sub := if FindCase(t.cases, Head(v).value).Some? then FindCase(t.cases, Head(v).value).value
            else t.default.value;
            Lowered(w.env, b, sub, bbs, diverge, start, end, b3)
    ensures var key := ValueKey(Head(v).value); start.current == if key in branches then branches[key] else |b1.blocks|
  {
    if FindCase(t.cases, Head(v).value).Some? {
      start, end := FindLowered(w.env, b, t.cases, bbs, diverge, t.place.ty, v);
      GrowTrans(end, b1, b3);
    } else {
      KeyAbsent(w.env, b, t.cases, bbs, diverge, t.place.ty, v);
      start, end := b2, b3;
    }
  }

  lemma SwitchStep(w: World, b: State, o: M.Operand, b3: State, branches: map<int, nat>, default: nat, b': State,
                   v: Value, ty: Ty, s: M.Store)
    requires Keep(b, b3) && !Closed(b) && OperandKey(o, s, v, ty) && Fits(b', w.g)
    requires KeyedBy(branches, o, s, v, ty)
    requires default < |b3.blocks| && forall k :: k in branches ==> branches[k] < |b3.blocks|
    requires SwitchTo(b3, b.current).Some?
    requires TerminateWith(SwitchTo(b3, b.current).value, M.Switch(o, branches, default)) == Some(b')
    ensures Grow(b3, b')
    ensures var key := ValueKey(Head(v).value);
            M.Run(w.g, w.m, Pos(b, s), 1) == M.At(if key in branches then branches[key] else default, 0, s)
  {
    var b4 := SwitchTo(b3, b.current).value;
    var tm := M.Switch(o, branches, default);
    SwitchKeeps(b3, b.current);
    TerminateKeeps(b4, tm);
    GrowTrans(b3, b4, b');
    StepTerminate(w, b4, tm, b', s);
    ChosenKey(branches, default, M.EvalOperand(s, o).value.n, M.OperandTy(o), ValueKey(Head(v).value));
    assert Pos(b4, s) == Pos(b, s);
  }
}
