/**
 * Struct patterns whose fields are not written in the order of the field table. The compiler
 * never reads the field names of a struct pattern, so it treats each of them as if it were
 * written in the order of the table; what that does follows from the theorems on matrices
 * whose patterns are in order.
 */
module StructOrder {
  import opened Core
  import opened Patterns
  import opened DecisionTree
  import opened MatchCompiler
  import opened MatchCompilerSteps
  import opened MatchCompilerTheorems
  import opened MatchBindings

  // ----- patterns that differ in the field names of struct patterns only -----

  ghost predicate Renamed(p: Pattern, q: Pattern)
    decreases p
  {
    match p
    case TuplePat(ps) => q.TuplePat? && |ps| == |q.pats| && forall i :: 0 <= i < |ps| ==> Renamed(ps[i], q.pats[i])
    case StructPat(_, ps) =>
      q.StructPat? && |ps| == |q.pats| && forall i :: 0 <= i < |ps| ==> Renamed(ps[i], q.pats[i])
    case CtorPat(k, shape, ps) =>
      && q.CtorPat? && k == q.idx && shape == q.shape && |ps| == |q.args|
      && forall i :: 0 <= i < |ps| ==> Renamed(ps[i], q.args[i])
    case _ => p == q
  }

  ghost predicate CellRenamed(a: Cell, b: Cell) {
    if a.Some? then b.Some? && Renamed(a.value, b.value) else b.None?
  }

  ghost predicate CellsRenamed(a: seq<Cell>, b: seq<Cell>) {
    |a| == |b| && forall i :: 0 <= i < |a| ==> CellRenamed(a[i], b[i])
  }

  ghost predicate RowRenamed(x: Row, y: Row) {
    x.branch == y.branch && x.bindings == y.bindings && CellsRenamed(x.cells, y.cells)
  }

  ghost predicate RowsRenamed(xs: seq<Row>, ys: seq<Row>) {
    |xs| == |ys| && forall r {:trigger xs[r]} :: 0 <= r < |xs| ==> RowRenamed(xs[r], ys[r])
  }

  ghost predicate OptionRenamed(x: Option<Row>, y: Option<Row>) {
    if x.Some? then y.Some? && RowRenamed(x.value, y.value) else y.None?
  }

  /** What the compiler looks at in a cell is not renamed. */
  lemma CellSeen(a: Cell, b: Cell, place: Place)
    requires CellRenamed(a, b)
    ensures IsWild(a) == IsWild(b) && ConstructorOf(a) == ConstructorOf(b)
            && CellBindings(a, place) == CellBindings(b, place)
    ensures Destructures(a) == Destructures(b)
  {
  }

  lemma SpliceRenamed(a: seq<Cell>, b: seq<Cell>, col: nat, u: seq<Cell>, w: seq<Cell>)
    requires CellsRenamed(a, b) && col < |a| && CellsRenamed(u, w)
    ensures CellsRenamed(Splice(a, col, u), Splice(b, col, w))
  {
  }

  lemma {:induction false} FindRenamed(names: seq<Symbol>, ps: seq<Pattern>, qs: seq<Pattern>, name: Symbol)
    requires |names| == |ps| == |qs| && forall i :: 0 <= i < |ps| ==> Renamed(ps[i], qs[i])
    ensures CellRenamed(FindPat(names, ps, name), FindPat(names, qs, name))
  {
    if names != [] && names[0] != name {
      FindRenamed(names[1..], ps[1..], qs[1..], name);
    }
  }

  lemma SubCellsRenamed(p: Pattern, q: Pattern, decl: Shape)
    requires p.CtorPat? && Renamed(p, q) && CellShaped(Some(p))
    ensures CellShaped(Some(q)) && CellsRenamed(SubCells(p, decl), SubCells(q, decl))
  {
    if p.shape.StructShape? && decl.StructShape? {
      forall i | 0 <= i < |decl.names| ensures CellRenamed(SubCells(p, decl)[i], SubCells(q, decl)[i]) {
        FindRenamed(p.shape.names, p.args, q.args, decl.names[i]);
      }
    }
  }

  // ----- the steps of the compiler -----

  lemma SpecializeRowRenamed(x: Row, y: Row, col: nat, c: Constructor, place: Place, decl: Shape, arity: nat)
    requires RowRenamed(x, y) && col < |x.cells| && CellShaped(x.cells[col]) && CellShaped(y.cells[col])
    ensures OptionRenamed(SpecializeRow(x, col, c, place, decl, arity), SpecializeRow(y, col, c, place, decl, arity))
  {
    var (a, b) := (x.cells[col], y.cells[col]);
    CellSeen(a, b, place);
    if ConstructorOf(a) == Some(c) {
      if a.value.CtorPat? {
        SubCellsRenamed(a.value, b.value, decl);
      }
      SpliceRenamed(x.cells, y.cells, col, SubCells(a.value, decl), SubCells(b.value, decl));
    } else {
      SpliceRenamed(x.cells, y.cells, col, Wildcards(arity), Wildcards(arity));
    }
  }

  lemma {:induction false} SpecializeRenamed(xs: seq<Row>, ys: seq<Row>, col: nat, c: Constructor, place: Place,
                                             decl: Shape, arity: nat)
    requires RowsRenamed(xs, ys) && RowsShaped(xs, col) && RowsShaped(ys, col)
    ensures RowsRenamed(SpecializeRows(xs, col, c, place, decl, arity), SpecializeRows(ys, col, c, place, decl, arity))
  {
    if xs != [] {
      assert RowRenamed(xs[0], ys[0]);
      SpecializeRowRenamed(xs[0], ys[0], col, c, place, decl, arity);
      RenamedTail(xs, ys);
      SpecializeRenamed(xs[1..], ys[1..], col, c, place, decl, arity);
    }
  }

  lemma RenamedTail(xs: seq<Row>, ys: seq<Row>)
    requires RowsRenamed(xs, ys) && xs != []
    ensures RowsRenamed(xs[1..], ys[1..])
  {
    forall r {:trigger xs[1..][r]} | 0 <= r < |xs[1..]| ensures RowRenamed(xs[1..][r], ys[1..][r]) {
      assert RowRenamed(xs[r + 1], ys[r + 1]);
    }
  }

  lemma {:induction false} DefaultRenamed(xs: seq<Row>, ys: seq<Row>, col: nat, place: Place)
    requires RowsRenamed(xs, ys) && RowsShaped(xs, col) && RowsShaped(ys, col)
    ensures RowsRenamed(DefaultRows(xs, col, place), DefaultRows(ys, col, place))
  {
    if xs != [] {
      assert RowRenamed(xs[0], ys[0]);
      CellSeen(xs[0].cells[col], ys[0].cells[col], place);
      SpliceRenamed(xs[0].cells, ys[0].cells, col, [], []);
      RenamedTail(xs, ys);
      DefaultRenamed(xs[1..], ys[1..], col, place);
    }
  }

  lemma ExpandRenamed(xs: seq<Row>, ys: seq<Row>, col: nat, arity: nat)
    requires RowsRenamed(xs, ys) && RowsShaped(xs, col) && RowsShaped(ys, col)
    ensures RowsRenamed(ExpandRows(xs, col, arity), ExpandRows(ys, col, arity))
  {
    forall r | 0 <= r < |xs| ensures RowRenamed(ExpandRow(xs[r], col, arity), ExpandRow(ys[r], col, arity)) {
      var (a, b) := (xs[r].cells[col], ys[r].cells[col]);
      assert RowRenamed(xs[r], ys[r]) && CellRenamed(a, b);
      SpliceRenamed(xs[r].cells, ys[r].cells, col, FieldCells(a, arity), FieldCells(b, arity));
    }
  }

  lemma {:induction false} SignatureRenamed(xs: seq<Row>, ys: seq<Row>, col: nat)
    requires RowsRenamed(xs, ys) && RowsShaped(xs, col) && RowsShaped(ys, col)
    ensures Signature(xs, col) == Signature(ys, col)
  {
    if xs != [] {
      var n := |xs| - 1;
      assert RowRenamed(xs[n], ys[n]) && CellRenamed(xs[n].cells[col], ys[n].cells[col]);
      SignatureRenamed(xs[..n], ys[..n], col);
    }
  }

  lemma {:induction false} LeafRenamed(a: seq<Cell>, b: seq<Cell>, cols: seq<Place>, bindings: seq<Binding>)
    requires CellsRenamed(a, b) && |a| == |cols|
    ensures LeafBindings(a, cols, bindings) == LeafBindings(b, cols, bindings)
  {
    if a != [] {
      CellSeen(a[0], b[0], cols[0]);
      LeafRenamed(a[1..], b[1..], cols[1..], bindings + CellBindings(a[0], cols[0]));
    }
  }

  // ----- the compiler does not read the names -----

  ghost predicate MatrixRenamed(m: Matrix, m': Matrix) {
    m.cols == m'.cols && RowsRenamed(m.rows, m'.rows)
  }

  lemma FirstRenamed(m: Matrix, m': Matrix)
    requires MatrixRenamed(m, m') && m.rows != []
    ensures AllWild(m.rows[0].cells) == AllWild(m'.rows[0].cells)
    ensures !AllWild(m.rows[0].cells) ==> FirstRefutable(m.rows[0].cells) == FirstRefutable(m'.rows[0].cells)
  {
    var (a, b) := (m.rows[0].cells, m'.rows[0].cells);
    assert RowRenamed(m.rows[0], m'.rows[0]);
    forall i | 0 <= i < |a| ensures IsWild(a[i]) == IsWild(b[i]) {
      assert CellRenamed(a[i], b[i]);
    }
  }

  lemma RenamedPicks(m: Matrix, m': Matrix, col: nat)
    requires MatrixRenamed(m, m') && MatrixOk(m') && Picks(m, col)
    ensures Picks(m', col) && col < |m.cols| && RowsShaped(m.rows, col) && RowsShaped(m'.rows, col)
    ensures Signature(m.rows, col) == Signature(m'.rows, col)
    ensures SigFits(m, col, Signature(m.rows, col)) && SigFits(m', col, Signature(m.rows, col))
  {
    FirstRenamed(m, m');
    PicksColumn(m, col);
    PicksColumn(m', col);
    SignatureRenamed(m.rows, m'.rows, col);
  }

  /** Two matrices that differ in the field names of struct patterns only have the same tree. */
  lemma {:induction false} NamesUnread(m: Matrix, m': Matrix)
    requires MatrixOk(m) && MatrixOk(m') && MatrixRenamed(m, m')
    ensures Compile(m) == Compile(m')
    decreases RowsSize(m.rows), 2, 0
  {
    if m.rows == [] {
    } else if AllWild(m.rows[0].cells) {
      FirstRenamed(m, m');
      assert RowRenamed(m.rows[0], m'.rows[0]) && RowOk(m.rows[0], m.cols);
      LeafRenamed(m.rows[0].cells, m'.rows[0].cells, m.cols, m.rows[0].bindings);
    } else {
      var col := FirstRefutable(m.rows[0].cells);
      RenamedPicks(m, m', col);
      if Irrefutable(m.cols[col].ty) {
        ExpandShrinks(m, col);
        ExpandOk(m, col);
        ExpandOk(m', col);
        ExpandRenamed(m.rows, m'.rows, col, |FieldPlaces(m.cols[col])|);
        NamesUnread(Expand(m, col), Expand(m', col));
        CompileTuple(m, col);
        CompileTuple(m', col);
      } else {
        SwitchNamesUnread(m, m', col);
      }
    }
  }

  lemma {:induction false} SwitchNamesUnread(m: Matrix, m': Matrix, col: nat)
    requires MatrixOk(m) && MatrixOk(m') && MatrixRenamed(m, m')
    requires Picks(m, col) && col < |m.cols| && !Irrefutable(m.cols[col].ty)
    ensures Compile(m) == Compile(m')
    decreases RowsSize(m.rows), 1
  {
    RenamedPicks(m, m', col);
    DefaultShrinks(m, col);
    DefaultOk(m, col);
    DefaultOk(m', col);
    DefaultRenamed(m.rows, m'.rows, col, m.cols[col]);
    NamesUnread(Default(m, col), Default(m', col));
    CasesNamesUnread(m, m', col, Signature(m.rows, col));
    CompileSwitch(m, col);
    CompileSwitch(m', col);
  }

  lemma {:induction false} CasesNamesUnread(m: Matrix, m': Matrix, col: nat, sig: seq<Constructor>)
    requires MatrixOk(m) && MatrixOk(m') && MatrixRenamed(m, m') && col < |m.cols|
    requires RowsShaped(m.rows, col) && RowsShaped(m'.rows, col)
    requires SigFits(m, col, sig) && SigFits(m', col, sig)
    ensures CompileCases(m, col, sig) == CompileCases(m', col, sig)
    decreases RowsSize(m.rows), 0, |sig|
  {
    if sig != [] {
      var (place, c) := (m.cols[col], sig[0]);
      FirstCase(m, col, sig);
      FirstCase(m', col, sig);
      CasesNamesUnread(m, m', col, sig[1..]);
      SpecializeRenamed(m.rows, m'.rows, col, c, place, DeclShape(place.ty, c), |CtorPlaces(place, c)|);
      NamesUnread(Specialize(m, col, c), Specialize(m', col, c));
    }
  }

  // ----- the patterns as the compiler reads them -----

  /** The pattern with the field names of every struct pattern replaced by the table's, in order. */
  ghost function Reread(p: Pattern, t: Ty): (q: Pattern)
    requires PatOk(p, t)
    ensures Renamed(p, q)
    decreases p
  {
    match p
    case TuplePat(ps) =>
      TuplePat(seq(|ps|, i requires 0 <= i < |ps| => Reread(ps[i], t.elems[i])))
    case StructPat(_, ps) =>
      StructPat(t.names, seq(|ps|, i requires 0 <= i < |ps| => Reread(ps[i], t.fields[i])))
    case CtorPat(k, shape, ps) =>
      var v := t.variants[k];
      CtorPat(k, shape, seq(|ps|, i requires 0 <= i < |ps| => Reread(ps[i], v.tys[Slot(shape, v.shape, i)])))
    case _ => p
  }

  lemma {:induction false} RereadOk(p: Pattern, t: Ty, demand: Demand)
    requires TyOk(t) && PatOk(p, t) && (demand.InOrder? || PatOk(p, t, demand))
    ensures PatOk(Reread(p, t), t, demand)
    decreases p
  {
    match p
    case TuplePat(ps) =>
      forall i | 0 <= i < |ps| ensures PatOk(Reread(ps[i], t.elems[i]), t.elems[i], demand) {
        RereadOk(ps[i], t.elems[i], demand);
      }
    case StructPat(_, ps) =>
      forall i | 0 <= i < |ps| ensures PatOk(Reread(ps[i], t.fields[i]), t.fields[i], demand) {
        RereadOk(ps[i], t.fields[i], demand);
      }
    case CtorPat(k, shape, ps) =>
      var v := t.variants[k];
      forall i | 0 <= i < |ps|
        ensures Slot(shape, v.shape, i) < |v.tys|
        ensures PatOk(Reread(ps[i], v.tys[Slot(shape, v.shape, i)]), v.tys[Slot(shape, v.shape, i)], demand)
      {
        RereadOk(ps[i], v.tys[Slot(shape, v.shape, i)], demand);
      }
    case _ =>
  }

  ghost function RereadCell(c: Cell, t: Ty): Cell
    requires CellOk(c, t)
  {
    if c.Some? then Some(Reread(c.value, t)) else None
  }

  ghost function RereadRow(row: Row, cols: seq<Place>): Row
    requires RowOk(row, cols)
  {
    Row(seq(|cols|, i requires 0 <= i < |cols| => RereadCell(row.cells[i], cols[i].ty)), row.branch, row.bindings)
  }

  ghost function RereadMatrix(m: Matrix): Matrix
    requires MatrixOk(m)
  {
    Matrix(m.cols, seq(|m.rows|, r requires 0 <= r < |m.rows| => RereadRow(m.rows[r], m.cols)))
  }

  lemma RereadMeets(m: Matrix, demand: Demand)
    requires MatrixOk(m) && (demand.InOrder? || RowsOk(m.rows, m.cols, demand))
    ensures RowsOk(RereadMatrix(m).rows, m.cols, demand)
  {
    forall r {:trigger RereadMatrix(m).rows[r]} | 0 <= r < |m.rows|
      ensures RowOk(RereadMatrix(m).rows[r], m.cols, demand)
    {
      assert RowOk(m.rows[r], m.cols) && (demand.InOrder? || RowOk(m.rows[r], m.cols, demand));
      forall i | 0 <= i < |m.cols| ensures CellOk(RereadMatrix(m).rows[r].cells[i], m.cols[i].ty, demand) {
        assert CellOk(m.rows[r].cells[i], m.cols[i].ty);
        assert demand.InOrder? || CellOk(m.rows[r].cells[i], m.cols[i].ty, demand);
        if m.rows[r].cells[i].Some? {
          RereadOk(m.rows[r].cells[i].value, m.cols[i].ty, demand);
        }
      }
    }
  }

  /** Whatever the order of the fields, a match is compiled as if they were in the order of the table. */
  lemma RereadCompiles(m: Matrix)
    requires MatrixOk(m)
    ensures MatrixOk(RereadMatrix(m)) && RowsOk(RereadMatrix(m).rows, m.cols, InOrder)
    ensures Compile(m) == Compile(RereadMatrix(m))
  {
    RereadMeets(m, Nothing);
    RereadMeets(m, InOrder);
    forall r {:trigger m.rows[r]} | 0 <= r < |m.rows| ensures RowRenamed(m.rows[r], RereadMatrix(m).rows[r]) {
      assert RowOk(m.rows[r], m.cols);
    }
    NamesUnread(m, RereadMatrix(m));
  }

  /** So walking its tree answers what its patterns mean when they are read in the order of the table. */
  lemma RereadAnswers(m: Matrix, root: Value, vals: seq<Value>)
    requires MatrixOk(m) && ColsAt(m.cols, root, vals) && RowsReadable(m.rows, root)
    ensures MatrixOk(RereadMatrix(m)) && Answers(Walk(Compile(m), root), RereadMatrix(m), root, vals)
  {
    RereadCompiles(m);
    forall r {:trigger RereadMatrix(m).rows[r]} | 0 <= r < |m.rows|
      ensures Readable(RereadMatrix(m).rows[r].bindings, root)
    {
      assert Readable(m.rows[r].bindings, root);
    }
    CompileCorrect(RereadMatrix(m), root, vals);
  }

  // ----- a struct pattern of binders -----

  function BinderPats(xs: seq<nat>): (ps: seq<Pattern>)
    ensures |ps| == |xs| && forall i :: 0 <= i < |xs| ==> ps[i] == Bind(xs[i])
  {
    seq(|xs|, i requires 0 <= i < |xs| => Bind(xs[i]))
  }

  /** `match v { { names[0]: xs[0], names[1]: xs[1], .. } => .. }` */
  function StructMatch(place: Place, names: seq<Symbol>, xs: seq<nat>): Matrix {
    Matrix([place], [Row([Some(StructPat(names, BinderPats(xs)))], 0, [])])
  }

  ghost predicate StructMatchOk(place: Place, names: seq<Symbol>, xs: seq<nat>) {
    && place.ty.StructT? && TyOk(place.ty) && Renaming(names, place.ty.names)
    && |xs| == |names| && Distinct(xs)
  }

  /** The value of the field called `name`. */
  function FieldOf(v: Value, name: Symbol): Value
    requires v.StructV? && |v.names| == |v.fields| && name in v.names
  {
    v.fields[IndexOf(v.names, name)]
  }

  lemma StructMatchReread(place: Place, names: seq<Symbol>, xs: seq<nat>)
    requires StructMatchOk(place, names, xs)
    ensures MatrixOk(StructMatch(place, names, xs))
    ensures RereadMatrix(StructMatch(place, names, xs)) == StructMatch(place, place.ty.names, xs)
  {
    var m := StructMatch(place, names, xs);
    assert PatOk(m.rows[0].cells[0].value, place.ty);
    assert RowOk(m.rows[0], m.cols);
    assert Reread(StructPat(names, BinderPats(xs)), place.ty).pats == BinderPats(xs);
    assert RereadMatrix(m).rows[0].cells == StructMatch(place, place.ty.names, xs).rows[0].cells;
  }

  lemma BinderBinds(xs: seq<nat>, vs: seq<Value>, i: nat, w: Value)
    requires |xs| == |vs| && Distinct(xs) && i < |xs|
    ensures (xs[i], w) in BindsAll(BinderPats(xs), vs) <==> w == vs[i]
  {
    var ps := BinderPats(xs);
    BindsAllMember(ps, vs, (xs[i], w));
    if j :| 0 <= j < |ps| && (xs[i], w) in Binds(ps[j], vs[j]) {
      assert Binds(ps[j], vs[j]) == [(xs[j], vs[j])];
    }
    assert Binds(ps[i], vs[i])[0] == (xs[i], vs[i]);
  }

  lemma BindersInOrder(t: Ty, xs: seq<nat>, v: Value, i: nat, w: Value)
    requires t.StructT? && TyOk(t) && HasType(v, t) && |xs| == |t.names| && Distinct(xs) && i < |xs|
    ensures Matches(StructPat(t.names, BinderPats(xs)), v)
    ensures (xs[i], w) in Binds(StructPat(t.names, BinderPats(xs)), v) <==> w == v.fields[i]
  {
    FieldParts(StructPat(t.names, BinderPats(xs)), t, v);
    BinderBinds(xs, v.fields, i, w);
  }

  lemma OneRowAnswers(place: Place, p: Pattern, root: Value, v: Value, b: (nat, Value))
    requires Ready(Matrix([place], [Row([Some(p)], 0, [])]), root, [v]) && Matches(p, v)
    ensures var o := Walk(Compile(Matrix([place], [Row([Some(p)], 0, [])])), root);
            o.Matched? && o.branch == 0 && (Recorded(o.bindings, root, b) <==> b in Binds(p, v))
  {
    var m := Matrix([place], [Row([Some(p)], 0, [])]);
    var row := m.rows[0];
    assert CellMatches(row.cells[0], [v][0]) && CellsMatch(row.cells, [v]);
    assert CellBinds(row.cells[0], [v][0], b) <==> b in Binds(p, v);
    assert RowBinds(row, root, [v], b) <==> b in Binds(p, v);
    OneRowKeeps(m);
    NothingDropped(m, root, [v], b);
    CompileCorrect(m, root, [v]);
  }

  /** Each binder is bound to the field at its position, whatever field it is written for. */
  lemma BoundByPosition(place: Place, names: seq<Symbol>, xs: seq<nat>, root: Value, v: Value, i: nat, w: Value)
    requires StructMatchOk(place, names, xs) && Project(root, place.projs) == Some(v) && HasType(v, place.ty)
    requires i < |xs|
    ensures MatrixOk(StructMatch(place, names, xs))
    ensures var o := Walk(Compile(StructMatch(place, names, xs)), root);
            o.Matched? && o.branch == 0 && (Recorded(o.bindings, root, (xs[i], w)) <==> w == v.fields[i])
  {
    var m := StructMatch(place, names, xs);
    StructMatchReread(place, names, xs);
    RereadCompiles(m);
    assert ColsAt([place], root, [v]);
    BindersInOrder(place.ty, xs, v, i, w);
    OneRowAnswers(place, StructPat(place.ty.names, BinderPats(xs)), root, v, (xs[i], w));
  }

  lemma StructMatchTaken(place: Place, names: seq<Symbol>, xs: seq<nat>, root: Value, v: Value)
    requires StructMatchOk(place, names, xs) && Project(root, place.projs) == Some(v) && HasType(v, place.ty)
    ensures MatrixOk(StructMatch(place, names, xs))
    ensures Walk(Compile(StructMatch(place, names, xs)), root).Matched?
  {
    var p := StructPat(place.ty.names, BinderPats(xs));
    StructMatchReread(place, names, xs);
    RereadCompiles(StructMatch(place, names, xs));
    assert ColsAt([place], root, [v]);
    FieldParts(p, place.ty, v);
    OneRowAnswers(place, p, root, v, (0, v));
  }

  /** Every binder is bound to the value of the field it is written for. */
  ghost predicate RightFields(bs: seq<Binding>, names: seq<Symbol>, xs: seq<nat>, root: Value, v: Value)
    requires v.StructV? && |v.names| == |v.fields| && |names| == |xs|
    requires forall i :: 0 <= i < |names| ==> names[i] in v.names
  {
    forall i :: 0 <= i < |xs| ==> Recorded(bs, root, (xs[i], FieldOf(v, names[i])))
  }

  /**
   * On a value with pairwise different fields, every binder of a struct pattern gets its own
   * field if and only if the fields are written in the order of the table.
   */
  lemma StructOrderExact(place: Place, names: seq<Symbol>, xs: seq<nat>, root: Value, v: Value)
    requires StructMatchOk(place, names, xs) && Project(root, place.projs) == Some(v) && HasType(v, place.ty)
    requires Distinct(v.fields)
    ensures MatrixOk(StructMatch(place, names, xs))
    ensures var o := Walk(Compile(StructMatch(place, names, xs)), root);
            o.Matched? && (RightFields(o.bindings, names, xs, root, v) <==> names == place.ty.names)
  {
    StructMatchTaken(place, names, xs, root, v);
    var o := Walk(Compile(StructMatch(place, names, xs)), root);
    forall i | 0 <= i < |xs|
      ensures Recorded(o.bindings, root, (xs[i], FieldOf(v, names[i]))) <==> names[i] == v.names[i]
    {
      BoundByPosition(place, names, xs, root, v, i, FieldOf(v, names[i]));
      assert v.fields[IndexOf(v.names, names[i])] == v.fields[i] <==> IndexOf(v.names, names[i]) == i;
    }
  }

  // ----- a struct pattern that tests a field -----

  /** `match p { { y: 1, x: _ } => .., _ => .. }` on a struct whose table has x before y. */
  function PointMatch(names: seq<Symbol>): Matrix {
    var word := IntT(Fixed(I32), true);
    Matrix([Place(0, [], StructT([0, 1], [word, word]))],
           [Row([Some(StructPat(names, [IntPat(1), Any]))], 0, []), Row([Some(Any)], 1, [])])
  }

  const POINT := StructV([0, 1], [IntV(1), IntV(2)])

  lemma PointMatchOk(names: seq<Symbol>, demand: Demand)
    requires Renaming(names, [0, 1]) && (demand.InOrder? ==> names == [0, 1]) && !demand.EnumsIn?
    ensures RowsOk(PointMatch(names).rows, PointMatch(names).cols, demand)
  {
    var m := PointMatch(names);
    var word := IntT(Fixed(I32), true);
    assert PatOk(IntPat(1), word, demand) && PatOk(Any, word, demand);
    assert PatOk(m.rows[0].cells[0].value, m.cols[0].ty, demand);
    assert RowOk(m.rows[0], m.cols, demand) && RowOk(m.rows[1], m.cols, demand);
  }

  lemma PointTyOk()
    ensures TyOk(PointMatch([0, 1]).cols[0].ty) && HasType(POINT, PointMatch([0, 1]).cols[0].ty)
  {
    var word := IntT(Fixed(I32), true);
    assert TyOk(word) && HasType(IntV(1), word) && HasType(IntV(2), word);
  }

  /** On x = 1 and y = 2 the first arm does not match, and the tree takes it. */
  lemma WrongBranch()
    ensures MatrixOk(PointMatch([1, 0]))
    ensures First(PointMatch([1, 0]).rows, [POINT]) == Some(PointMatch([1, 0]).rows[1])
    ensures var o := Walk(Compile(PointMatch([1, 0])), POINT); o.Matched? && o.branch == 0
  {
    PointTyOk();
    PointMatchOk([1, 0], Nothing);
    PointMatchOk([0, 1], Nothing);
    PointMatchOk([0, 1], InOrder);
    NamesNotMatched();
    RenamedPoint();
    NamesUnread(PointMatch([1, 0]), PointMatch([0, 1]));
    assert ColsAt(PointMatch([0, 1]).cols, POINT, [POINT]);
    FirstByPosition();
    CompileCorrect(PointMatch([0, 1]), POINT, [POINT]);
  }

  lemma RenamedPoint()
    ensures MatrixRenamed(PointMatch([1, 0]), PointMatch([0, 1]))
  {
    assert Renamed(IntPat(1), IntPat(1)) && Renamed(Any, Any);
    assert RowRenamed(PointMatch([1, 0]).rows[0], PointMatch([0, 1]).rows[0]);
    assert RowRenamed(PointMatch([1, 0]).rows[1], PointMatch([0, 1]).rows[1]);
  }

  lemma NamesNotMatched()
    ensures First(PointMatch([1, 0]).rows, [POINT]) == Some(PointMatch([1, 0]).rows[1])
  {
    var rows := PointMatch([1, 0]).rows;
    var p := rows[0].cells[0].value;
    assert !Matches(p, POINT) by {
      assert Parts(p, POINT).Some? ==> Parts(p, POINT).value[0] == IntV(2) by { assert IndexOf([0, 1], 1) == 1; }
      assert !Matches(p.pats[0], IntV(2));
    }
    assert !CellMatches(rows[0].cells[0], [POINT][0]);
    assert CellsMatch(rows[1].cells, [POINT]);
    assert rows[1..] == [rows[1]];
  }

  lemma FirstByPosition()
    ensures First(PointMatch([0, 1]).rows, [POINT]) == Some(PointMatch([0, 1]).rows[0])
  {
    var rows := PointMatch([0, 1]).rows;
    var p := rows[0].cells[0].value;
    assert Matches(p, POINT) by {
      assert Parts(p, POINT).value == [IntV(1), IntV(2)] by {
        assert IndexOf([0, 1], 0) == 0 && IndexOf([0, 1], 1) == 1;
      }
      assert Matches(p.pats[0], IntV(1)) && Matches(p.pats[1], IntV(2));
    }
    assert CellMatches(rows[0].cells[0], [POINT][0]);
    assert CellsMatch(rows[0].cells, [POINT]);
  }
}
