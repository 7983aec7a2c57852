/** The tree of a well-scoped match can be lowered exactly when the tags it reads can be read. */
module TreeLowering {
  import opened Core
  import opened Patterns
  import opened DecisionTree
  import opened MatchCompiler
  import opened MatchCompilerTheorems
  import M = Mir
  import opened Builder
  import opened Lowering
  import opened LoweringShape
  import opened Scoping
  import opened TreeSim
  import opened TreeTags

  ghost predicate PatNamed(p: Pattern, users: nat)
    decreases p
  {
    match p
    case Bind(x) => x < users
    case TuplePat(ps) => forall i :: 0 <= i < |ps| ==> PatNamed(ps[i], users)
    case StructPat(_, ps) => forall i :: 0 <= i < |ps| ==> PatNamed(ps[i], users)
    case CtorPat(_, _, ps) => forall i :: 0 <= i < |ps| ==> PatNamed(ps[i], users)
    case _ => true
  }

  ghost predicate Below(xs: seq<nat>, users: nat) {
    forall i :: 0 <= i < |xs| ==> xs[i] < users
  }

  lemma {:induction false} BindersBelow(p: Pattern, users: nat)
    requires Below(BinderLocals(p), users)
    ensures PatNamed(p, users)
    decreases p, 0
  {
    match p
    case Bind(x) => assert BinderLocals(p)[0] == x;
    case TuplePat(ps) => AllBindersBelow(ps, users);
    case StructPat(_, ps) => AllBindersBelow(ps, users);
    case CtorPat(_, _, ps) => AllBindersBelow(ps, users);
    case _ =>
  }

  lemma {:induction false} AllBindersBelow(ps: seq<Pattern>, users: nat)
    requires Below(AllBinderLocals(ps), users)
    ensures forall i :: 0 <= i < |ps| ==> PatNamed(ps[i], users)
    decreases ps, 1
  {
    if ps != [] {
      var (a, b) := (BinderLocals(ps[0]), AllBinderLocals(ps[1..]));
      assert forall i :: 0 <= i < |a| ==> a[i] == (a + b)[i];
      assert forall i :: 0 <= i < |b| ==> b[i] == (a + b)[|a| + i];
      BindersBelow(ps[0], users);
      AllBindersBelow(ps[1..], users);
      forall i | 0 <= i < |ps| ensures PatNamed(ps[i], users) {
        if i > 0 { assert ps[i] == ps[1..][i - 1]; }
      }
    }
  }

  // ----- matrices -----

  ghost predicate BindingsNamed(bs: seq<Binding>, users: nat) {
    forall i :: 0 <= i < |bs| ==> bs[i].local < users
  }

  ghost predicate CellNamed(c: Cell, users: nat) {
    c.Some? ==> PatNamed(c.value, users)
  }

  ghost predicate RowNamed(row: Row, users: nat) {
    BindingsNamed(row.bindings, users) && forall i :: 0 <= i < |row.cells| ==> CellNamed(row.cells[i], users)
  }

  ghost predicate RowsNamed(rows: seq<Row>, users: nat) {
    forall r {:trigger rows[r]} :: 0 <= r < |rows| ==> RowNamed(rows[r], users)
  }

  /** The bindings of the leaves go to the function's own locals. */
  ghost predicate TreeNamed(t: Tree, users: nat)
    decreases t
  {
    match t
    case Fail => true
    case Leaf(_, bs) => BindingsNamed(bs, users)
    case Switch(_, cases, default) =>
      && (forall i :: 0 <= i < |cases| ==> TreeNamed(cases[i].tree, users))
      && (default.Some? ==> TreeNamed(default.value, users))
  }

  lemma SubCellsNamed(p: Pattern, decl: Shape, users: nat)
    requires p.CtorPat? && (p.shape.StructShape? ==> |p.shape.names| == |p.args|) && PatNamed(p, users)
    ensures forall i :: 0 <= i < |SubCells(p, decl)| ==> CellNamed(SubCells(p, decl)[i], users)
  {
  }

  lemma SpliceNamed(cells: seq<Cell>, col: nat, mid: seq<Cell>, users: nat)
    requires col < |cells| && (forall i :: 0 <= i < |cells| ==> CellNamed(cells[i], users))
    requires forall i :: 0 <= i < |mid| ==> CellNamed(mid[i], users)
    ensures forall i :: 0 <= i < |Splice(cells, col, mid)| ==> CellNamed(Splice(cells, col, mid)[i], users)
  {
  }

  lemma SpecializeRowNamed(row: Row, col: nat, c: Constructor, place: Place, decl: Shape, arity: nat, users: nat)
    requires col < |row.cells| && CellShaped(row.cells[col]) && RowNamed(row, users)
    ensures var r := SpecializeRow(row, col, c, place, decl, arity); r.Some? ==> RowNamed(r.value, users)
  {
    var cell := row.cells[col];
    if ConstructorOf(cell) == Some(c) {
      if cell.value.CtorPat? {
        SubCellsNamed(cell.value, decl, users);
      }
      SpliceNamed(row.cells, col, SubCells(cell.value, decl), users);
    } else {
      SpliceNamed(row.cells, col, Wildcards(arity), users);
    }
  }

  lemma {:induction false} SpecializeRowsNamed(rows: seq<Row>, col: nat, c: Constructor, place: Place, decl: Shape,
                                               arity: nat, users: nat)
    requires forall r :: 0 <= r < |rows| ==> col < |rows[r].cells| && CellShaped(rows[r].cells[col])
    requires RowsNamed(rows, users)
    ensures RowsNamed(SpecializeRows(rows, col, c, place, decl, arity), users)
  {
    if rows != [] {
      SpecializeRowNamed(rows[0], col, c, place, decl, arity, users);
      SpecializeRowsNamed(rows[1..], col, c, place, decl, arity, users);
    }
  }

  lemma {:induction false} DefaultRowsNamed(rows: seq<Row>, col: nat, place: Place, users: nat)
    requires forall r :: 0 <= r < |rows| ==> col < |rows[r].cells|
    requires RowsNamed(rows, users)
    ensures RowsNamed(DefaultRows(rows, col, place), users)
  {
    if rows != [] {
      SpliceNamed(rows[0].cells, col, [], users);
      DefaultRowsNamed(rows[1..], col, place, users);
    }
  }

  lemma ExpandRowsNamed(rows: seq<Row>, col: nat, arity: nat, users: nat)
    requires forall r :: 0 <= r < |rows| ==> col < |rows[r].cells|
    requires RowsNamed(rows, users)
    ensures RowsNamed(ExpandRows(rows, col, arity), users)
  {
    forall r | 0 <= r < |rows| ensures RowNamed(ExpandRow(rows[r], col, arity), users) {
      var cells := match rows[r].cells[col]
                   case Some(TuplePat(ps)) => Known(ps)
                   case Some(StructPat(_, ps)) => Known(ps)
                   case _ => Wildcards(arity);
      assert CellNamed(rows[r].cells[col], users);
      SpliceNamed(rows[r].cells, col, cells, users);
    }
  }

  // ----- compilation -----

  lemma {:induction false} LeafBindingsNamed(cells: seq<Cell>, cols: seq<Place>, bs: seq<Binding>, users: nat)
    requires |cells| == |cols| && BindingsNamed(bs, users) && forall i :: 0 <= i < |cells| ==>
             CellNamed(cells[i], users)
    ensures BindingsNamed(LeafBindings(cells, cols, bs), users)
  {
    if cells != [] {
      assert CellNamed(cells[0], users);
      LeafBindingsNamed(cells[1..], cols[1..], bs + CellBindings(cells[0], cols[0]), users);
    }
  }

  lemma {:induction false} CompileNamed(m: Matrix, users: nat)
    requires MatrixOk(m) && RowsNamed(m.rows, users)
    ensures TreeNamed(Compile(m), users)
    decreases RowsSize(m.rows), 2, 0
  {
    if m.rows == [] {
    } else if AllWild(m.rows[0].cells) {
      assert RowOk(m.rows[0], m.cols) && RowNamed(m.rows[0], users);
      LeafBindingsNamed(m.rows[0].cells, m.cols, m.rows[0].bindings, users);
    } else {
      assert RowOk(m.rows[0], m.cols);
      var col := FirstRefutable(m.rows[0].cells);
      PicksColumn(m, col);
      if Irrefutable(m.cols[col].ty) {
        ExpandRowsNamed(m.rows, col, |FieldPlaces(m.cols[col])|, users);
        ExpandShrinks(m, col);
        ExpandOk(m, col);
        CompileNamed(Expand(m, col), users);
        CompileTuple(m, col);
      } else {
        SwitchNamed(m, users, col);
      }
    }
  }

  lemma {:induction false} SwitchNamed(m: Matrix, users: nat, col: nat)
    requires MatrixOk(m) && RowsNamed(m.rows, users)
    requires Picks(m, col) && col < |m.cols| && !Irrefutable(m.cols[col].ty)
    ensures TreeNamed(Compile(m), users)
    decreases RowsSize(m.rows), 1
  {
    PicksColumn(m, col);
    CasesNamed(m, users, col, Signature(m.rows, col));
    DefaultShrinks(m, col);
    DefaultOk(m, col);
    DefaultRowsNamed(m.rows, col, m.cols[col], users);
    CompileNamed(Default(m, col), users);
    CompileSwitch(m, col);
  }

  lemma {:induction false} CasesNamed(m: Matrix, users: nat, col: nat, sig: seq<Constructor>)
    requires MatrixOk(m) && RowsNamed(m.rows, users) && col < |m.cols| && SigFits(m, col, sig)
    ensures forall i :: 0 <= i < |sig| ==> TreeNamed(CompileCases(m, col, sig)[i].tree, users)
    decreases RowsSize(m.rows), 0, |sig|
  {
    if sig != [] {
      var (place, c) := (m.cols[col], sig[0]);
      FirstCase(m, col, sig);
      CasesNamed(m, users, col, sig[1..]);
      ColumnReady(m, col);
      SpecializeRowsNamed(m.rows, col, c, place, DeclShape(place.ty, c), |CtorPlaces(place, c)|, users);
      CompileNamed(Specialize(m, col, c), users);
    }
  }

  /** The tree of a match is Fail exactly when the match has no arms. */
  lemma {:induction false} CompileFails(m: Matrix)
    requires MatrixOk(m)
    ensures Compile(m).Fail? <==> m.rows == []
    decreases RowsSize(m.rows)
  {
    if m.rows != [] && !AllWild(m.rows[0].cells) {
      assert RowOk(m.rows[0], m.cols);
      var col := FirstRefutable(m.rows[0].cells);
      PicksColumn(m, col);
      if Irrefutable(m.cols[col].ty) {
        ColumnReady(m, col);
        ExpandShrinks(m, col);
        ExpandOk(m, col);
        CompileFails(Expand(m, col));
        CompileTuple(m, col);
      } else {
        DefaultOk(m, col);
        CompileSwitch(m, col);
      }
    }
  }

  // ----- when lowering a tree panics -----

  lemma {:induction false} BindingsLower(env: Env, b: State, bs: seq<Binding>)
    requires Wf(b) && !Closed(b) && BindingsNamed(bs, |b.locals|)
    ensures EmitBindings(env, b, bs).Some?
    decreases |bs|
  {
    if bs != [] {
      var st := M.AssignTo(PlaceOfLocal(b, bs[0].local).value, M.UseOf(MoveOrCopy(env, bs[0].place)));
      EmitSeg(b, st);
      BindingsLower(env, Emit(b, st).value, bs[1..]);
    }
  }

  lemma {:induction false} TreeLowered(env: Env, b: State, t: Tree, bbs: seq<nat>, diverge: nat, local: nat, users: nat)
    requires Wf(b) && !Closed(b) && IdsIn(bbs, |b.blocks|) && diverge < |b.blocks| && users <= |b.locals|
    requires TreeOk(t, local, |bbs|) && TreeNamed(t, users)
    ensures LowerTree(env, b, t, bbs, diverge).Some? <==> TreeTagged(t, env.target)
    decreases t, 1
  {
    match t
    case Leaf(branch, bs) =>
      BindingsLower(env, b, bs);
      EmitBindingsSeg(env, b, bs);
    case Fail =>
    case Switch(place, _, _) =>
      if place.ty.EnumT? && TagTy(place.ty, env.target).None? {
      } else if place.ty.EnumT? {
        var tagTy := TagTy(place.ty, env.target).value;
        var st := M.AssignTo(Place(|b.locals|, [], tagTy), M.Discriminant(place, tagTy));
        NewLocalSeg(b, tagTy);
        EmitSeg(NewLocal(b, tagTy), st);
        SwitchLowered(env, Emit(NewLocal(b, tagTy), st).value, M.Move(Place(|b.locals|, [], tagTy)), t, bbs, diverge,
                      local, users);
      } else {
        SwitchLowered(env, b, M.Move(place), t, bbs, diverge, local, users);
      }
  }

  lemma {:induction false} SwitchLowered(env: Env, b: State, o: M.Operand, t: Tree, bbs: seq<nat>, diverge: nat,
                                         local: nat, users: nat)
    requires t.Switch? && Wf(b) && !Closed(b) && IdsIn(bbs, |b.blocks|) && diverge < |b.blocks| && users <= |b.locals|
    requires TreeOk(t, local, |bbs|) && TreeNamed(t, users)
    ensures LowerSwitch(env, b, o, t, bbs, diverge).Some? <==>
              && (forall i :: 0 <= i < |t.cases| ==> TreeTagged(t.cases[i].tree, env.target))
              && (t.default.Some? ==> TreeTagged(t.default.value, env.target))
    decreases t, 0
  {
    var onEnum := t.place.ty.EnumT?;
    CasesLowered(env, b, t.cases, t.place.ty, bbs, diverge, local, users);
    if LowerCases(env, b, t.cases, bbs, diverge, onEnum).Some? {
      LowerCasesKeep(env, b, t.cases, bbs, diverge, onEnum);
      var (b1, branches) := LowerCases(env, b, t.cases, bbs, diverge, onEnum).value;
      OpenSpec(b, b.current);
      OpenSpec(b1, b.current);
      if t.default.Some? {
        FreshSwitch(b1);
        var b2 := SwitchTo(NewBlock(b1), |b1.blocks|).value;
        TreeLowered(env, b2, t.default.value, bbs, diverge, local, users);
        if LowerTree(env, b2, t.default.value, bbs, diverge).Some? {
          LowerTreeFill(env, b2, t.default.value, bbs, diverge);
          var b3 := LowerTree(env, b2, t.default.value, bbs, diverge).value;
          SubTreeKeep(b1, b2, b3);
          OpenSpec(b3, b.current);
        }
      }
    }
  }

  lemma {:induction false} CasesLowered(env: Env, b: State, cases: seq<Case>, ty: Ty, bbs: seq<nat>, diverge: nat,
                                        local: nat, users: nat)
    requires Wf(b) && IdsIn(bbs, |b.blocks|) && diverge < |b.blocks| && users <= |b.locals| && (ty.EnumT? || ty.IntT?)
    requires forall i :: 0 <= i < |cases| ==>
               CaseOk(cases[i].ctor, ty) && TreeOk(cases[i].tree, local, |bbs|)
                 && TreeNamed(cases[i].tree, users)
    ensures LowerCases(env, b, cases, bbs, diverge, ty.EnumT?).Some? <==>
              forall i :: 0 <= i < |cases| ==> TreeTagged(cases[i].tree, env.target)
    decreases cases, 0
  {
    if cases != [] {
      FreshSwitch(b);
      var b1 := SwitchTo(NewBlock(b), |b.blocks|).value;
      assert cases[0].tree < cases[0];
      TreeLowered(env, b1, cases[0].tree, bbs, diverge, local, users);
      if LowerTree(env, b1, cases[0].tree, bbs, diverge).Some? {
        LowerTreeFill(env, b1, cases[0].tree, bbs, diverge);
        var b2 := LowerTree(env, b1, cases[0].tree, bbs, diverge).value;
        SubTreeKeep(b, b1, b2);
        CasesLowered(env, b2, cases[1..], ty, bbs, diverge, local, users);
      }
    }
  }
}
