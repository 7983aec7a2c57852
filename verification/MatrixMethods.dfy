/** Match compilation as loops over rows and cells; each method computes its function. */
module MatrixMethods {
  import opened Core
  import opened Patterns
  import opened DecisionTree
  import MC = MatchCompiler

  /** The constructors of a column, gathered row by row into an ordered set. */
  method CollectConstructors(rows: seq<Row>, col: nat) returns (sig: seq<Constructor>)
    requires forall r :: 0 <= r < |rows| ==> col < |rows[r].cells|
    ensures sig == Signature(rows, col)
  {
    sig := [];
    for i := 0 to |rows|
      invariant sig == Signature(rows[..i], col)
    {
      assert rows[..i + 1][..|rows[..i + 1]| - 1] == rows[..i];
      match ConstructorOf(rows[i].cells[col]) {
        case Some(c) => sig := InsertCtor(sig, c);
        case None =>
      }
    }
    assert rows[..|rows|] == rows;
  }

  /** The bindings of a leaf: a copy of the row's, then one for each remaining binder. */
  method CollectBindings(row: Row, cols: seq<Place>) returns (bindings: seq<Binding>)
    requires |row.cells| == |cols|
    ensures bindings == LeafBindings(row.cells, cols, row.bindings)
  {
    bindings := row.bindings;
    var i := 0;
    assert row.cells[0..] == row.cells && cols[0..] == cols;
    while i < |cols|
      invariant i <= |cols|
      invariant LeafBindings(row.cells[i..], cols[i..], bindings) == LeafBindings(row.cells, cols, row.bindings)
    {
      assert row.cells[i..][1..] == row.cells[i + 1..] && cols[i..][1..] == cols[i + 1..];
      match row.cells[i] {
        case Some(Bind(x)) => bindings := bindings + [Binding(x, cols[i])];
        case _ => assert bindings + [] == bindings;
      }
      i := i + 1;
    }
  }

  /** The first column whose pattern in the first row can fail; the first column when there is none. */
  method ChooseCol(m: Matrix) returns (col: nat)
    requires MatrixOk(m) && m.rows != []
    ensures col == if AllWild(m.rows[0].cells) then 0 else FirstRefutable(m.rows[0].cells)
  {
    assert RowOk(m.rows[0], m.cols);
    var fst := m.rows[0].cells;
    for i := 0 to |m.cols|
      invariant forall j :: 0 <= j < i ==> IsWild(fst[j])
    {
      if !IsWild(fst[i]) {
        FirstUnique(fst, i);
        return i;
      }
    }
    return 0;
  }

  lemma FirstUnique(cells: seq<Cell>, i: nat)
    requires i < |cells| && !IsWild(cells[i]) && forall j :: 0 <= j < i ==> IsWild(cells[j])
    ensures !AllWild(cells) && FirstRefutable(cells) == i
  {
    var k := FirstRefutable(cells);
    assert !IsWild(cells[k]);
  }

  function Just<T>(o: Option<T>): seq<T> {
    match o
    case None => []
    case Some(x) => [x]
  }

  lemma SpecializeStep(done: seq<Row>, rows: seq<Row>, i: nat, col: nat, c: Constructor, place: Place, decl: Shape,
                       arity: nat)
    requires i < |rows| && forall r :: 0 <= r < |rows| ==> col < |rows[r].cells| && CellShaped(rows[r].cells[col])
    ensures done + SpecializeRows(rows[i..], col, c, place, decl, arity) ==
            (done + Just(SpecializeRow(rows[i], col, c, place, decl, arity))) +
              SpecializeRows(rows[i + 1..], col, c, place, decl, arity)
  {
    var rest := SpecializeRows(rows[i + 1..], col, c, place, decl, arity);
    assert rows[i..][0] == rows[i] && rows[i..][1..] == rows[i + 1..];
    assert SpecializeRows(rows[i..], col, c, place, decl, arity) ==
           Just(SpecializeRow(rows[i], col, c, place, decl, arity)) + rest;
  }

  /** The rows that can match the constructor: its own with their parts, wildcard rows with fresh wildcards. */
  method SpecializeEach(rows: seq<Row>, col: nat, c: Constructor, place: Place, decl: Shape, arity: nat)
    returns (r: seq<Row>)
    requires forall r :: 0 <= r < |rows| ==> col < |rows[r].cells| && CellShaped(rows[r].cells[col])
    ensures r == SpecializeRows(rows, col, c, place, decl, arity)
  {
    r := [];
    var i := 0;
    assert rows[0..] == rows;
    while i < |rows|
      invariant i <= |rows|
      invariant r + SpecializeRows(rows[i..], col, c, place, decl, arity) ==
                SpecializeRows(rows, col, c, place, decl, arity)
    {
      SpecializeStep(r, rows, i, col, c, place, decl, arity);
      var row := rows[i];
      var kept := [];
      if ConstructorOf(row.cells[col]) == Some(c) {
        kept := [Row(Splice(row.cells, col, SubCells(row.cells[col].value, decl)), row.branch, row.bindings)];
      } else if IsWild(row.cells[col]) {
        kept := [Row(Splice(row.cells, col, Wildcards(arity)), row.branch,
                     row.bindings + CellBindings(row.cells[col], place))];
      }
      assert kept == Just(SpecializeRow(row, col, c, place, decl, arity));
      r := r + kept;
      i := i + 1;
    }
  }

  method SpecializeMatrix(m: Matrix, col: nat, c: Constructor) returns (r: Matrix)
    requires ColumnFits(m, col, c)
    ensures r == Specialize(m, col, c)
  {
    ColumnReady(m, col);
    var place := m.cols[col];
    var places := CtorPlaces(place, c);
    var rows := SpecializeEach(m.rows, col, c, place, DeclShape(place.ty, c), |places|);
    return Matrix(Splice(m.cols, col, places), rows);
  }

  lemma DefaultStep(done: seq<Row>, rows: seq<Row>, i: nat, col: nat, place: Place)
    requires i < |rows| && forall r :: 0 <= r < |rows| ==> col < |rows[r].cells|
    ensures done + DefaultRows(rows[i..], col, place) ==
            (done + Just(DefaultRow(rows[i], col, place))) + DefaultRows(rows[i + 1..], col, place)
  {
    assert rows[i..][0] == rows[i] && rows[i..][1..] == rows[i + 1..];
    assert DefaultRows(rows[i..], col, place) ==
           Just(DefaultRow(rows[i], col, place)) + DefaultRows(rows[i + 1..], col, place);
  }

  /** The rows whose cell in the column can match anything, without the cell. */
  method DefaultEach(rows: seq<Row>, col: nat, place: Place) returns (r: seq<Row>)
    requires forall r :: 0 <= r < |rows| ==> col < |rows[r].cells|
    ensures r == DefaultRows(rows, col, place)
  {
    r := [];
    var i := 0;
    assert rows[0..] == rows;
    while i < |rows|
      invariant i <= |rows|
      invariant r + DefaultRows(rows[i..], col, place) == DefaultRows(rows, col, place)
    {
      DefaultStep(r, rows, i, col, place);
      var row := rows[i];
      var kept := [];
      if IsWild(row.cells[col]) {
        kept := [Row(Splice(row.cells, col, []), row.branch, row.bindings + CellBindings(row.cells[col], place))];
      }
      assert kept == Just(DefaultRow(row, col, place));
      r := r + kept;
      i := i + 1;
    }
  }

  method DefaultMatrix(m: Matrix, col: nat) returns (r: Matrix)
    requires MatrixOk(m) && col < |m.cols|
    ensures r == Default(m, col)
  {
    ColumnReady(m, col);
    var rows := DefaultEach(m.rows, col, m.cols[col]);
    return Matrix(Splice(m.cols, col, []), rows);
  }

  method ExpandMatrix(m: Matrix, col: nat) returns (r: Matrix)
    requires MatrixOk(m) && col < |m.cols| && Irrefutable(m.cols[col].ty)
    ensures r == Expand(m, col)
  {
    ColumnReady(m, col);
    var places := FieldPlaces(m.cols[col]);
    var rows := [];
    for i := 0 to |m.rows|
      invariant |rows| == i
      invariant forall j :: 0 <= j < i ==> rows[j] == ExpandRow(m.rows[j], col, |places|)
    {
      rows := rows + [ExpandRow(m.rows[i], col, |places|)];
    }
    return Matrix(Splice(m.cols, col, places), rows);
  }

  /** The decision tree of a matrix, computed with the loops above. */
  method CompileMatrix(m: Matrix) returns (t: Tree)
    requires MatrixOk(m)
    ensures t == MC.Compile(m)
    decreases MC.RowsSize(m.rows), 1
  {
    if m.rows == [] {
      return Fail;
    }
    var fst := m.rows[0];
    assert RowOk(fst, m.cols);
    if AllWild(fst.cells) {
      var bindings := CollectBindings(fst, m.cols);
      return Leaf(fst.branch, bindings);
    }
    var col := ChooseCol(m);
    ColumnReady(m, col);
    MC.SignatureFits(m, col);
    var sig := CollectConstructors(m.rows, col);
    var cases := CompileEach(m, col, sig);
    var place := m.cols[col];
    if Irrefutable(place.ty) {
      MC.ExpandShrinks(m, col);
      MC.ExpandOk(m, col);
      var expanded := ExpandMatrix(m, col);
      t := CompileMatrix(expanded);
    } else if IsComplete(sig, place.ty) {
      t := Switch(place, cases, None);
    } else {
      MC.DefaultShrinks(m, col);
      MC.DefaultOk(m, col);
      var rest := DefaultMatrix(m, col);
      var default := CompileMatrix(rest);
      t := Switch(place, cases, Some(default));
    }
  }

  lemma CasesStep(done: seq<Case>, m: Matrix, col: nat, sig: seq<Constructor>, i: nat)
    requires MatrixOk(m) && i < |sig| && MC.SigFits(m, col, sig[i..])
    ensures ColumnFits(m, col, sig[i]) && MatrixOk(Specialize(m, col, sig[i])) && MC.SigFits(m, col, sig[i + 1..])
    ensures MC.RowsSize(Specialize(m, col, sig[i]).rows) < MC.RowsSize(m.rows)
    ensures done + MC.CompileCases(m, col, sig[i..]) ==
            (done + [Case(sig[i], MC.Compile(Specialize(m, col, sig[i])))]) + MC.CompileCases(m, col, sig[i + 1..])
  {
    assert sig[i..][0] == sig[i] && sig[i..][1..] == sig[i + 1..] && sig[i] in sig[i..];
    MC.SpecializeShrinks(m, col, sig[i]);
    MC.SpecializeOk(m, col, sig[i]);
    assert forall c :: c in sig[i + 1..] ==> c in sig[i..];
  }

  /** One case for each constructor of the column. */
  method CompileEach(m: Matrix, col: nat, sig: seq<Constructor>) returns (cases: seq<Case>)
    requires MatrixOk(m) && MC.SigFits(m, col, sig)
    ensures cases == MC.CompileCases(m, col, sig)
    decreases MC.RowsSize(m.rows), 0
  {
    cases := [];
    var i := 0;
    assert sig[0..] == sig;
    while i < |sig|
      invariant i <= |sig|
      invariant MC.SigFits(m, col, sig[i..])
      invariant cases + MC.CompileCases(m, col, sig[i..]) == MC.CompileCases(m, col, sig)
    {
      CasesStep(cases, m, col, sig, i);
      var single := CompileCase(m, col, sig[i]);
      cases := cases + [single];
      i := i + 1;
    }
  }

  method CompileCase(m: Matrix, col: nat, c: Constructor) returns (r: Case)
    requires ColumnFits(m, col, c) && MatrixOk(Specialize(m, col, c))
    requires MC.RowsSize(Specialize(m, col, c).rows) < MC.RowsSize(m.rows)
    ensures r == Case(c, MC.Compile(Specialize(m, col, c)))
    decreases MC.RowsSize(m.rows), 0, 0
  {
    var specialized := SpecializeMatrix(m, col, c);
    var sub := CompileMatrix(specialized);
    return Case(c, sub);
  }
}
