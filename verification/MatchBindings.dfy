/** Which bindings of a compiled match are lost, and when none is. */
module MatchBindings {
  import opened Core
  import opened Patterns
  import opened DecisionTree
  import opened MatchCompiler
  import opened Binders
  import opened MatchCompilerSteps
  import opened MatchCompilerTheorems

  // ----- binders that share a column with a tuple pattern -----

  predicate SamePart(a: Shape, i: nat, b: Shape, j: nat) {
    if a.StructShape? && b.StructShape? && i < |a.names| && j < |b.names| then a.names[i] == b.names[j]
    else i == j
  }

  /** Somewhere p destructures as a tuple what q binds as a whole. */
  predicate Clash(p: Pattern, q: Pattern)
    decreases p
  {
    match (p, q)
    case (TuplePat(_), Bind(_)) => true
    case (StructPat(_, _), Bind(_)) => true
    case (TuplePat(ps), TuplePat(qs)) =>
      |ps| == |qs| && exists i :: 0 <= i < |ps| && Clash(ps[i], qs[i])
    case (StructPat(_, ps), StructPat(_, qs)) =>
      |ps| == |qs| && exists i :: 0 <= i < |ps| && Clash(ps[i], qs[i])
    case (CtorPat(k, a, ps), CtorPat(l, b, qs)) =>
      k == l && exists i, j :: 0 <= i < |ps| && 0 <= j < |qs| && SamePart(a, i, b, j) && Clash(ps[i], qs[j])
    case _ => false
  }

  predicate CellsClash(a: Cell, b: Cell) {
    a.Some? && b.Some? && Clash(a.value, b.value)
  }

  ghost predicate RowsClashFree(a: Row, b: Row) {
    forall i :: 0 <= i < |a.cells| && i < |b.cells| ==> !CellsClash(a.cells[i], b.cells[i])
  }

  /** No row binds as a whole what a row above it destructures as a tuple. */
  ghost predicate ClashFree(rows: seq<Row>) {
    forall r, s {:trigger rows[r], rows[s]} :: 0 <= r < s < |rows| ==> RowsClashFree(rows[r], rows[s])
  }

  lemma ClashFreeCons(x: Row, rest: seq<Row>)
    requires ClashFree(rest) && forall s {:trigger rest[s]} :: 0 <= s < |rest| ==> RowsClashFree(x, rest[s])
    ensures ClashFree([x] + rest)
  {
    var rows := [x] + rest;
    forall r, s {:trigger rows[r], rows[s]} | 0 <= r < s < |rows| ensures RowsClashFree(rows[r], rows[s]) {
      assert rows[s] == rest[s - 1];
      if r > 0 {
        assert rows[r] == rest[r - 1];
      }
    }
  }

  lemma ClashFreeTail(rows: seq<Row>)
    requires rows != [] && ClashFree(rows)
    ensures ClashFree(rows[1..]) && forall s {:trigger rows[1..][s]} :: 0 <= s < |rows[1..]| ==>
            RowsClashFree(rows[0], rows[1..][s])
  {
    var rest := rows[1..];
    forall r, s {:trigger rest[r], rest[s]} | 0 <= r < s < |rest| ensures RowsClashFree(rest[r], rest[s]) {
      assert RowsClashFree(rows[r + 1], rows[s + 1]);
    }
    forall s {:trigger rest[s]} | 0 <= s < |rest| ensures RowsClashFree(rows[0], rest[s]) {
      assert RowsClashFree(rows[0], rows[s + 1]);
    }
  }

  lemma SpliceClashFree(x: seq<Cell>, y: seq<Cell>, col: nat, u: seq<Cell>, w: seq<Cell>)
    requires |x| == |y| && col < |x| && |u| == |w|
    requires forall i :: 0 <= i < |x| ==> !CellsClash(x[i], y[i])
    requires forall i :: 0 <= i < |u| ==> !CellsClash(u[i], w[i])
    ensures forall i :: 0 <= i < |Splice(x, col, u)| ==> !CellsClash(Splice(x, col, u)[i], Splice(y, col, w)[i])
  {
  }

  lemma SubCellsClashFree(p: Pattern, q: Pattern, t: Ty, i: nat)
    requires p.CtorPat? && q.CtorPat? && p.idx == q.idx && PatOk(p, t) && PatOk(q, t) && !Clash(p, q)
    requires i < |SubCells(p, t.variants[p.idx].shape)| == |SubCells(q, t.variants[p.idx].shape)|
    ensures !CellsClash(SubCells(p, t.variants[p.idx].shape)[i], SubCells(q, t.variants[p.idx].shape)[i])
  {
    var decl := t.variants[p.idx].shape;
    var a, b := SubCells(p, decl)[i], SubCells(q, decl)[i];
    if a.Some? && b.Some? {
      var j := if decl.StructShape? then IndexOf(p.shape.names, decl.names[i]) else i;
      var k := if decl.StructShape? then IndexOf(q.shape.names, decl.names[i]) else i;
      assert a.value == p.args[j] && b.value == q.args[k] && SamePart(p.shape, j, q.shape, k);
    }
  }

  /** A row of the new matrix comes from a row of the old one. */
  ghost predicate ComesFrom(row: Row, rows: seq<Row>, col: nat, c: Constructor, place: Place, decl: Shape, arity: nat)
    requires forall r :: 0 <= r < |rows| ==> col < |rows[r].cells| && CellShaped(rows[r].cells[col])
  {
    exists r :: 0 <= r < |rows| && SpecializeRow(rows[r], col, c, place, decl, arity) == Some(row)
  }

  lemma {:induction false} SpecializeOrigin(rows: seq<Row>, col: nat, c: Constructor, place: Place, decl: Shape,
                                            arity: nat)
    requires forall r :: 0 <= r < |rows| ==> col < |rows[r].cells| && CellShaped(rows[r].cells[col])
    ensures forall r :: 0 <= r < |SpecializeRows(rows, col, c, place, decl, arity)| ==>
              ComesFrom(SpecializeRows(rows, col, c, place, decl, arity)[r], rows, col, c, place, decl, arity)
  {
    if rows != [] {
      SpecializeOrigin(rows[1..], col, c, place, decl, arity);
      var rs := SpecializeRows(rows, col, c, place, decl, arity);
      var rest := SpecializeRows(rows[1..], col, c, place, decl, arity);
      forall r | 0 <= r < |rs| ensures ComesFrom(rs[r], rows, col, c, place, decl, arity) {
        if rs[r] in rest {
          var i :| 0 <= i < |rest| && rest[i] == rs[r];
          assert ComesFrom(rest[i], rows[1..], col, c, place, decl, arity);
          var j :| 0 <= j < |rows[1..]| && SpecializeRow(rows[1..][j], col, c, place, decl, arity) == Some(rs[r]);
          assert SpecializeRow(rows[j + 1], col, c, place, decl, arity) == Some(rs[r]);
        } else {
          assert SpecializeRow(rows[0], col, c, place, decl, arity) == Some(rs[r]);
        }
      }
    }
  }

  lemma SpecializedPairClashFree(x: Row, y: Row, cols: seq<Place>, col: nat, c: Constructor, place: Place, decl: Shape,
                                 arity: nat)
    requires RowOk(x, cols) && RowOk(y, cols) && col < |cols| && CellShaped(x.cells[col]) && CellShaped(y.cells[col])
    requires CtorFits(c, cols[col].ty) && decl == DeclShape(cols[col].ty, c)
    requires RowsClashFree(x, y)
    requires SpecializeRow(x, col, c, place, decl, arity).Some? && SpecializeRow(y, col, c, place, decl, arity).Some?
    requires c.VariantC? ==>
             ShapeOk(decl, |cols[col].ty.variants[c.idx].tys|) && arity == |cols[col].ty.variants[c.idx].tys|
    requires !c.VariantC? ==> arity == 0
    ensures RowsClashFree(SpecializeRow(x, col, c, place, decl, arity).value,
                          SpecializeRow(y, col, c, place, decl, arity).value)
  {
    var (a, b) := (x.cells[col], y.cells[col]);
    assert CellOk(a, cols[col].ty) && CellOk(b, cols[col].ty);
    var u := if ConstructorOf(a) == Some(c) then SubCells(a.value, decl) else Wildcards(arity);
    var w := if ConstructorOf(b) == Some(c) then SubCells(b.value, decl) else Wildcards(arity);
    if ConstructorOf(a) == Some(c) && c.VariantC? { SubCellsOk(a.value, cols[col].ty, Nothing); }
    if ConstructorOf(b) == Some(c) && c.VariantC? { SubCellsOk(b.value, cols[col].ty, Nothing); }
    forall i | 0 <= i < |u| ensures !CellsClash(u[i], w[i]) {
      if ConstructorOf(a) == Some(c) && ConstructorOf(b) == Some(c) && c.VariantC? {
        assert !CellsClash(a, b);
        SubCellsClashFree(a.value, b.value, cols[col].ty, i);
      }
    }
    SpliceClashFree(x.cells, y.cells, col, u, w);
  }

  lemma {:induction false} SpecializedClashFree(rows: seq<Row>, cols: seq<Place>, col: nat, c: Constructor,
                                                place: Place, decl: Shape, arity: nat)
    requires RowsOk(rows, cols) && col < |cols| && ClashFree(rows)
    requires forall r :: 0 <= r < |rows| ==> col < |rows[r].cells| && CellShaped(rows[r].cells[col])
    requires CtorFits(c, cols[col].ty) && decl == DeclShape(cols[col].ty, c)
    requires c.VariantC? ==>
             ShapeOk(decl, |cols[col].ty.variants[c.idx].tys|) && arity == |cols[col].ty.variants[c.idx].tys|
    requires !c.VariantC? ==> arity == 0
    ensures ClashFree(SpecializeRows(rows, col, c, place, decl, arity))
  {
    if rows != [] {
      ClashFreeTail(rows);
      SpecializedClashFree(rows[1..], cols, col, c, place, decl, arity);
      var rest := SpecializeRows(rows[1..], col, c, place, decl, arity);
      var x := SpecializeRow(rows[0], col, c, place, decl, arity);
      if x.Some? {
        SpecializeOrigin(rows[1..], col, c, place, decl, arity);
        forall s {:trigger rest[s]} | 0 <= s < |rest| ensures RowsClashFree(x.value, rest[s]) {
          assert ComesFrom(rest[s], rows[1..], col, c, place, decl, arity);
          var j :| 0 <= j < |rows[1..]| && SpecializeRow(rows[1..][j], col, c, place, decl, arity) == Some(rest[s]);
          assert RowOk(rows[0], cols) && RowOk(rows[1..][j], cols) && RowsClashFree(rows[0], rows[1..][j]);
          SpecializedPairClashFree(rows[0], rows[1..][j], cols, col, c, place, decl, arity);
        }
        ClashFreeCons(x.value, rest);
      }
    }
  }

  lemma SpecializeClashFree(m: Matrix, col: nat, c: Constructor)
    requires ColumnFits(m, col, c) && ClashFree(m.rows)
    ensures ClashFree(Specialize(m, col, c).rows)
  {
    ColumnReady(m, col);
    var place := m.cols[col];
    if c.VariantC? { VariantPlacesTys(place, c.idx); }
    SpecializedClashFree(m.rows, m.cols, col, c, place, DeclShape(place.ty, c), |CtorPlaces(place, c)|);
  }

  ghost predicate DefaultedFrom(row: Row, rows: seq<Row>, col: nat, place: Place)
    requires forall r :: 0 <= r < |rows| ==> col < |rows[r].cells|
  {
    exists r :: 0 <= r < |rows| && DefaultRow(rows[r], col, place) == Some(row)
  }

  lemma {:induction false} DefaultOrigin(rows: seq<Row>, col: nat, place: Place)
    requires forall r :: 0 <= r < |rows| ==> col < |rows[r].cells|
    ensures forall r :: 0 <= r < |DefaultRows(rows, col, place)| ==>
              DefaultedFrom(DefaultRows(rows, col, place)[r], rows, col, place)
  {
    if rows != [] {
      DefaultOrigin(rows[1..], col, place);
      var rs := DefaultRows(rows, col, place);
      var rest := DefaultRows(rows[1..], col, place);
      forall r | 0 <= r < |rs| ensures DefaultedFrom(rs[r], rows, col, place) {
        if rs[r] in rest {
          var i :| 0 <= i < |rest| && rest[i] == rs[r];
          assert DefaultedFrom(rest[i], rows[1..], col, place);
          var j :| 0 <= j < |rows[1..]| && DefaultRow(rows[1..][j], col, place) == Some(rs[r]);
          assert DefaultRow(rows[j + 1], col, place) == Some(rs[r]);
        } else {
          assert DefaultRow(rows[0], col, place) == Some(rs[r]);
        }
      }
    }
  }

  lemma {:induction false} DefaultedClashFree(rows: seq<Row>, cols: seq<Place>, col: nat, place: Place)
    requires RowsOk(rows, cols) && col < |cols| && ClashFree(rows)
    requires forall r :: 0 <= r < |rows| ==> col < |rows[r].cells|
    ensures ClashFree(DefaultRows(rows, col, place))
  {
    if rows != [] {
      ClashFreeTail(rows);
      DefaultedClashFree(rows[1..], cols, col, place);
      var rest := DefaultRows(rows[1..], col, place);
      var x := DefaultRow(rows[0], col, place);
      if x.Some? {
        DefaultOrigin(rows[1..], col, place);
        forall s {:trigger rest[s]} | 0 <= s < |rest| ensures RowsClashFree(x.value, rest[s]) {
          assert DefaultedFrom(rest[s], rows[1..], col, place);
          var j :| 0 <= j < |rows[1..]| && DefaultRow(rows[1..][j], col, place) == Some(rest[s]);
          assert RowOk(rows[0], cols) && RowOk(rows[1..][j], cols) && RowsClashFree(rows[0], rows[1..][j]);
          SpliceClashFree(rows[0].cells, rows[1..][j].cells, col, [], []);
        }
        ClashFreeCons(x.value, rest);
      }
    }
  }

  lemma DefaultClashFree(m: Matrix, col: nat)
    requires MatrixOk(m) && col < |m.cols| && ClashFree(m.rows)
    ensures ClashFree(Default(m, col).rows)
  {
    ColumnReady(m, col);
    DefaultedClashFree(m.rows, m.cols, col, m.cols[col]);
  }

  lemma ExpandClashFree(m: Matrix, col: nat)
    requires MatrixOk(m) && col < |m.cols| && Irrefutable(m.cols[col].ty) && ClashFree(m.rows)
    ensures ClashFree(Expand(m, col).rows)
  {
    ColumnReady(m, col);
    var rs := Expand(m, col).rows;
    var arity := |FieldTys(m.cols[col].ty)|;
    forall r, s {:trigger rs[r], rs[s]} | 0 <= r < s < |rs| ensures RowsClashFree(rs[r], rs[s]) {
      var (x, y) := (m.rows[r], m.rows[s]);
      assert RowOk(x, m.cols) && RowOk(y, m.cols) && RowsClashFree(x, y);
      var (a, b) := (x.cells[col], y.cells[col]);
      assert CellOk(a, m.cols[col].ty) && CellOk(b, m.cols[col].ty) && !CellsClash(a, b);
      var u := if Destructures(a) then Known(a.value.pats) else Wildcards(arity);
      var w := if Destructures(b) then Known(b.value.pats) else Wildcards(arity);
      SpliceClashFree(x.cells, y.cells, col, u, w);
    }
  }

  lemma {:induction false} FirstIsRow(rows: seq<Row>, vals: seq<Value>) returns (i: nat)
    requires First(rows, vals).Some?
    ensures i < |rows| && First(rows, vals) == Some(rows[i])
  {
    if CellsMatch(rows[0].cells, vals) {
      i := 0;
    } else {
      i := FirstIsRow(rows[1..], vals);
      i := i + 1;
    }
  }

  // ----- matrices that lose no binding -----

  /** No row binds the whole value of the column. */
  ghost predicate NoBinder(rows: seq<Row>, col: nat) {
    forall r {:trigger rows[r]} :: 0 <= r < |rows| && col < |rows[r].cells| ==> !BindsWhole(rows[r].cells[col])
  }

  predicate BindsWhole(c: Cell) {
    c.Some? && c.value.Bind?
  }

  /**
   * Following the compiler through every test it could make, no row that is still
   * in play binds the whole of a tuple at the moment its column is expanded.
   */
  ghost predicate Keeps(m: Matrix)
    requires MatrixOk(m)
    decreases RowsSize(m.rows)
  {
    if m.rows == [] || AllWild(m.rows[0].cells) then true
    else
      var col := FirstRefutable(m.rows[0].cells);
      PicksColumn(m, col);
      if Irrefutable(m.cols[col].ty) then
        ExpandShrinks(m, col);
        ExpandOk(m, col);
        NoBinder(m.rows, col) && Keeps(Expand(m, col))
      else
        && (forall c :: c in Signature(m.rows, col) ==>
              (SpecializeShrinks(m, col, c);
               SpecializeOk(m, col, c);
               Keeps(Specialize(m, col, c))))
        && (IsComplete(Signature(m.rows, col), m.cols[col].ty) ||
              (DefaultShrinks(m, col);
               DefaultOk(m, col);
               Keeps(Default(m, col))))
  }

  lemma KeepsTuple(m: Matrix, col: nat)
    requires Picks(m, col) && col < |m.cols| && Irrefutable(m.cols[col].ty) && MatrixOk(Expand(m, col))
    ensures Keeps(m) <==> NoBinder(m.rows, col) && Keeps(Expand(m, col))
  {
  }

  lemma KeepsCase(m: Matrix, col: nat, c: Constructor)
    requires Picks(m, col) && col < |m.cols| && !Irrefutable(m.cols[col].ty) && Keeps(m)
    requires forall r :: 0 <= r < |m.rows| ==> col < |m.rows[r].cells|
    requires c in Signature(m.rows, col) && ColumnFits(m, col, c) && MatrixOk(Specialize(m, col, c))
    ensures Keeps(Specialize(m, col, c))
  {
  }

  lemma KeepsDefault(m: Matrix, col: nat)
    requires Picks(m, col) && col < |m.cols| && !Irrefutable(m.cols[col].ty) && Keeps(m)
    requires forall r :: 0 <= r < |m.rows| ==> col < |m.rows[r].cells|
    requires !IsComplete(Signature(m.rows, col), m.cols[col].ty) && MatrixOk(Default(m, col))
    ensures Keeps(Default(m, col))
  {
  }

  /** Such a matrix loses no binding, whatever the value. */
  lemma {:induction false} NothingDropped(m: Matrix, root: Value, vals: seq<Value>, b: (nat, Value))
    requires Ready(m, root, vals) && Keeps(m)
    ensures !Dropped(m, root, vals, b)
    decreases RowsSize(m.rows)
  {
    if m.rows == [] || AllWild(m.rows[0].cells) {
    } else {
      assert RowOk(m.rows[0], m.cols);
      var col := FirstRefutable(m.rows[0].cells);
      PicksColumn(m, col);
      if Irrefutable(m.cols[col].ty) {
        TupleReady(m, root, vals, col);
        KeepsTuple(m, col);
        NothingDropped(Expand(m, col), root, Splice(vals, col, SubValues(vals[col])), b);
        if First(m.rows, vals).Some? {
          var i := FirstIsRow(m.rows, vals);
          assert !BindsWhole(m.rows[i].cells[col]);
        }
        DroppedTuple(m, root, vals, col, b);
      } else {
        SwitchDropsNothing(m, root, vals, col, b);
      }
    }
  }

  lemma {:induction false} SwitchDropsNothing(m: Matrix, root: Value, vals: seq<Value>, col: nat, b: (nat, Value))
    requires Ready(m, root, vals) && Keeps(m) && Picks(m, col) && col < |m.cols| && !Irrefutable(m.cols[col].ty)
    ensures !Dropped(m, root, vals, b)
    decreases RowsSize(m.rows), 0
  {
    PicksColumn(m, col);
    CompleteCovers(m, root, vals, col);
    var c := Head(vals[col]).value;
    if c in Signature(m.rows, col) {
      CaseReady(m, root, vals, col, c);
      KeepsCase(m, col, c);
      NothingDropped(Specialize(m, col, c), root, Splice(vals, col, SubValues(vals[col])), b);
      DroppedCase(m, root, vals, col, c, b);
    } else {
      DefaultReadies(m, root, vals, col, c);
      KeepsDefault(m, col);
      NothingDropped(Default(m, col), root, Splice(vals, col, []), b);
      DroppedDefault(m, root, vals, col, c, b);
    }
  }

  /** The readable special case: no row binds as a whole what a row above it destructures as a tuple. */
  lemma {:induction false} ClashFreeKeeps(m: Matrix)
    requires MatrixOk(m) && ClashFree(m.rows)
    ensures Keeps(m)
    decreases RowsSize(m.rows)
  {
    if m.rows == [] || AllWild(m.rows[0].cells) {
    } else {
      assert RowOk(m.rows[0], m.cols);
      var col := FirstRefutable(m.rows[0].cells);
      PicksColumn(m, col);
      if Irrefutable(m.cols[col].ty) {
        ExpandShrinks(m, col);
        ExpandOk(m, col);
        ExpandClashFree(m, col);
        ClashFreeKeeps(Expand(m, col));
        ClashFreeNoBinder(m, col);
        KeepsTuple(m, col);
      } else {
        forall c | c in Signature(m.rows, col)
          ensures ColumnFits(m, col, c) && MatrixOk(Specialize(m, col, c)) && Keeps(Specialize(m, col, c))
        {
          SpecializeShrinks(m, col, c);
          SpecializeOk(m, col, c);
          SpecializeClashFree(m, col, c);
          ClashFreeKeeps(Specialize(m, col, c));
        }
        DefaultShrinks(m, col);
        DefaultOk(m, col);
        DefaultClashFree(m, col);
        ClashFreeKeeps(Default(m, col));
      }
    }
  }

  lemma ClashFreeNoBinder(m: Matrix, col: nat)
    requires Picks(m, col) && col < |m.cols| && Irrefutable(m.cols[col].ty) && ClashFree(m.rows)
    ensures NoBinder(m.rows, col)
  {
    PicksColumn(m, col);
    forall r {:trigger m.rows[r]} | 0 <= r < |m.rows| ensures !BindsWhole(m.rows[r].cells[col]) {
      assert RowOk(m.rows[r], m.cols) && (r > 0 ==> RowsClashFree(m.rows[0], m.rows[r]));
      assert r > 0 ==> !CellsClash(m.rows[0].cells[col], m.rows[r].cells[col]);
    }
  }

  /** A single row keeps its bindings: it is never expanded for the sake of another. */
  lemma OneRowKeeps(m: Matrix)
    requires MatrixOk(m) && |m.rows| <= 1
    ensures Keeps(m)
  {
    ClashFreeKeeps(m);
  }

  lemma AtMostOneLeft(x: Row, y: Row, col: nat, c: Constructor, place: Place, decl: Shape, arity: nat)
    requires col < |x.cells| && CellShaped(x.cells[col]) && col < |y.cells| && CellShaped(y.cells[col])
    requires ConstructorOf(x.cells[col]).Some? && ConstructorOf(y.cells[col]).Some?
    requires ConstructorOf(x.cells[col]) != ConstructorOf(y.cells[col])
    ensures |SpecializeRows([x, y], col, c, place, decl, arity)| <= 1
    ensures DefaultRows([x, y], col, place) == []
  {
    assert [x, y][1..] == [y];
    assert SpecializeRows([x, y][1..][1..], col, c, place, decl, arity) == [];
    assert DefaultRows([x, y][1..][1..], col, place) == [];
  }

  /** Two rows that test different constructors of a column go different ways. */
  lemma TwoWaysKeep(m: Matrix, col: nat, x: Row, y: Row)
    requires Picks(m, col) && col < |m.cols| && !Irrefutable(m.cols[col].ty) && m.rows == [x, y]
    requires col < |x.cells| && ConstructorOf(x.cells[col]).Some?
    requires col < |y.cells| && ConstructorOf(y.cells[col]).Some?
    requires ConstructorOf(x.cells[col]) != ConstructorOf(y.cells[col])
    ensures Keeps(m)
  {
    PicksColumn(m, col);
    var place := m.cols[col];
    assert CellShaped(m.rows[0].cells[col]) && CellShaped(m.rows[1].cells[col]);
    forall c | c in Signature(m.rows, col)
      ensures ColumnFits(m, col, c) && MatrixOk(Specialize(m, col, c)) && Keeps(Specialize(m, col, c))
    {
      SpecializeOk(m, col, c);
      AtMostOneLeft(x, y, col, c, place, DeclShape(place.ty, c), |CtorPlaces(place, c)|);
      OneRowKeeps(Specialize(m, col, c));
    }
    DefaultOk(m, col);
    AtMostOneLeft(x, y, col, IntC(0), place, UnitShape, 0);
    OneRowKeeps(Default(m, col));
  }

  function PairMatrix(place: Place, a: Pattern, p: Pattern, b: Pattern, q: Pattern): Matrix {
    Matrix([place], [Row([Some(TuplePat([a, p]))], 0, []), Row([Some(TuplePat([b, q]))], 1, [])])
  }

  /**
   * `match v { (A, p) => .., (B, q) => .. }` with different constructors A and B: their test
   * comes first, and nothing is lost even where q binds as a whole what p destructures.
   */
  lemma PairByTagKeeps(place: Place, a: Pattern, p: Pattern, b: Pattern, q: Pattern)
    requires MatrixOk(PairMatrix(place, a, p, b, q))
    requires ConstructorOf(Some(a)).Some? && ConstructorOf(Some(b)).Some?
    requires ConstructorOf(Some(a)) != ConstructorOf(Some(b))
    ensures Keeps(PairMatrix(place, a, p, b, q))
    ensures p.TuplePat? && q.Bind? ==> !ClashFree(PairMatrix(place, a, p, b, q).rows)
  {
    var m := PairMatrix(place, a, p, b, q);
    PairPicked(place, a, p, b, q);
    ExpandOk(m, 0);
    PairExpanded(place, a, p, b, q);
    ExpandedPairKeeps(Expand(m, 0), a, p, b, q);
    KeepsTuple(m, 0);
    if p.TuplePat? && q.Bind? {
      PairClashes(m, a, p, b, q);
    }
  }

  lemma PairPicked(place: Place, a: Pattern, p: Pattern, b: Pattern, q: Pattern)
    requires MatrixOk(PairMatrix(place, a, p, b, q))
    ensures Irrefutable(place.ty) && Picks(PairMatrix(place, a, p, b, q), 0)
    ensures NoBinder(PairMatrix(place, a, p, b, q).rows, 0)
  {
    var m := PairMatrix(place, a, p, b, q);
    assert !IsWild(m.rows[0].cells[0]);
    assert RowOk(m.rows[0], m.cols) && CellOk(m.rows[0].cells[0], m.cols[0].ty);
  }

  lemma ExpandedPairKeeps(m: Matrix, a: Pattern, p: Pattern, b: Pattern, q: Pattern)
    requires MatrixOk(m)
    requires m.rows == [Row([Some(a), Some(p)], 0, []), Row([Some(b), Some(q)], 1, [])]
    requires ConstructorOf(Some(a)).Some? && ConstructorOf(Some(b)).Some?
    requires ConstructorOf(Some(a)) != ConstructorOf(Some(b))
    ensures Keeps(m)
  {
    assert !IsWild(m.rows[0].cells[0]);
    PicksColumn(m, 0);
    TwoWaysKeep(m, 0, m.rows[0], m.rows[1]);
  }

  lemma PairClashes(m: Matrix, a: Pattern, p: Pattern, b: Pattern, q: Pattern)
    requires |m.rows| == 2 && m.rows[0].cells == [Some(TuplePat([a, p]))] && m.rows[1].cells == [Some(TuplePat([b, q]))]
    requires p.TuplePat? && q.Bind?
    ensures !ClashFree(m.rows)
  {
    assert Clash([a, p][1], [b, q][1]);
    assert CellsClash(m.rows[0].cells[0], m.rows[1].cells[0]);
    assert !RowsClashFree(m.rows[0], m.rows[1]);
  }

  lemma PairExpanded(place: Place, a: Pattern, p: Pattern, b: Pattern, q: Pattern)
    requires MatrixOk(PairMatrix(place, a, p, b, q)) && Irrefutable(place.ty)
    ensures Expand(PairMatrix(place, a, p, b, q), 0).rows ==
            [Row([Some(a), Some(p)], 0, []), Row([Some(b), Some(q)], 1, [])]
  {
    var rows := PairMatrix(place, a, p, b, q).rows;
    assert Splice(rows[0].cells, 0, Known([a, p])) == [Some(a), Some(p)];
    assert Splice(rows[1].cells, 0, Known([b, q])) == [Some(b), Some(q)];
  }

  // ----- whether a matrix keeps its bindings does not depend on the places -----

  ghost predicate SameCells(rows: seq<Row>, rows': seq<Row>) {
    |rows| == |rows'| && forall r {:trigger rows[r]} :: 0 <= r < |rows| ==> rows[r].cells == rows'[r].cells
  }

  ghost predicate SameTys(cols: seq<Place>, cols': seq<Place>) {
    |cols| == |cols'| && forall i :: 0 <= i < |cols| ==> cols[i].ty == cols'[i].ty
  }

  /** The same patterns over columns of the same types. */
  ghost predicate Alike(m: Matrix, m': Matrix) {
    SameTys(m.cols, m'.cols) && SameCells(m.rows, m'.rows)
  }

  lemma {:induction false} SameSignature(rows: seq<Row>, rows': seq<Row>, col: nat)
    requires SameCells(rows, rows')
    requires forall r :: 0 <= r < |rows| ==> col < |rows[r].cells|
    requires forall r :: 0 <= r < |rows'| ==> col < |rows'[r].cells|
    ensures Signature(rows, col) == Signature(rows', col)
  {
    if rows != [] {
      SameSignature(rows[..|rows| - 1], rows'[..|rows| - 1], col);
      assert rows[|rows| - 1].cells == rows'[|rows| - 1].cells;
    }
  }

  lemma SameSplice(cols: seq<Place>, cols': seq<Place>, col: nat, places: seq<Place>, places': seq<Place>)
    requires SameTys(cols, cols') && col < |cols| && SameTys(places, places')
    ensures SameTys(Splice(cols, col, places), Splice(cols', col, places'))
  {
  }

  ghost predicate RowsShaped(rows: seq<Row>, col: nat) {
    forall r :: 0 <= r < |rows| ==> col < |rows[r].cells| && CellShaped(rows[r].cells[col])
  }

  lemma {:induction false} SameSpecialized(rows: seq<Row>, rows': seq<Row>, col: nat, c: Constructor, place: Place,
                                           place': Place, decl: Shape, arity: nat)
    requires SameCells(rows, rows') && RowsShaped(rows, col) && RowsShaped(rows', col)
    ensures SameCells(SpecializeRows(rows, col, c, place, decl, arity),
                      SpecializeRows(rows', col, c, place', decl, arity))
  {
    if rows != [] {
      assert rows[0].cells == rows'[0].cells;
      SameSpecialized(rows[1..], rows'[1..], col, c, place, place', decl, arity);
    }
  }

  lemma {:induction false} SameDefaulted(rows: seq<Row>, rows': seq<Row>, col: nat, place: Place, place': Place)
    requires SameCells(rows, rows') && RowsShaped(rows, col) && RowsShaped(rows', col)
    ensures SameCells(DefaultRows(rows, col, place), DefaultRows(rows', col, place'))
  {
    if rows != [] {
      assert rows[0].cells == rows'[0].cells;
      SameDefaulted(rows[1..], rows'[1..], col, place, place');
    }
  }

  lemma SpecializeAlike(m: Matrix, m': Matrix, col: nat, c: Constructor)
    requires Alike(m, m') && ColumnFits(m, col, c) && ColumnFits(m', col, c)
    ensures Alike(Specialize(m, col, c), Specialize(m', col, c))
  {
    ColumnReady(m, col);
    ColumnReady(m', col);
    var (place, place') := (m.cols[col], m'.cols[col]);
    assert place.ty == place'.ty;
    SameSplice(m.cols, m'.cols, col, CtorPlaces(place, c), CtorPlaces(place', c));
    SameSpecialized(m.rows, m'.rows, col, c, place, place', DeclShape(place.ty, c), |CtorPlaces(place, c)|);
  }

  lemma DefaultAlike(m: Matrix, m': Matrix, col: nat)
    requires Alike(m, m') && MatrixOk(m) && MatrixOk(m') && col < |m.cols|
    ensures Alike(Default(m, col), Default(m', col))
  {
    ColumnReady(m, col);
    ColumnReady(m', col);
    SameSplice(m.cols, m'.cols, col, [], []);
    SameDefaulted(m.rows, m'.rows, col, m.cols[col], m'.cols[col]);
  }

  lemma ExpandAlike(m: Matrix, m': Matrix, col: nat)
    requires Alike(m, m') && MatrixOk(m) && MatrixOk(m') && col < |m.cols| && Irrefutable(m.cols[col].ty)
    ensures Alike(Expand(m, col), Expand(m', col))
  {
    assert m.cols[col].ty == m'.cols[col].ty;
    SameSplice(m.cols, m'.cols, col, FieldPlaces(m.cols[col]), FieldPlaces(m'.cols[col]));
    var (rs, rs') := (Expand(m, col).rows, Expand(m', col).rows);
    forall r {:trigger rs[r]} | 0 <= r < |rs| ensures rs[r].cells == rs'[r].cells {
      assert m.rows[r].cells == m'.rows[r].cells;
    }
  }

  lemma AlikePicks(m: Matrix, m': Matrix, col: nat)
    requires Alike(m, m') && MatrixOk(m') && Picks(m, col)
    ensures Picks(m', col) && col < |m.cols| && m.cols[col].ty == m'.cols[col].ty
    ensures forall r :: 0 <= r < |m.rows| ==> col < |m.rows[r].cells|
    ensures forall r :: 0 <= r < |m'.rows| ==> col < |m'.rows[r].cells|
    ensures Signature(m.rows, col) == Signature(m'.rows, col)
    ensures NoBinder(m.rows, col) ==> NoBinder(m'.rows, col)
  {
    assert m.rows[0].cells == m'.rows[0].cells;
    PicksColumn(m, col);
    PicksColumn(m', col);
    SameSignature(m.rows, m'.rows, col);
    if NoBinder(m.rows, col) {
      forall r {:trigger m'.rows[r]} | 0 <= r < |m'.rows| ensures !BindsWhole(m'.rows[r].cells[col]) {
        assert m.rows[r].cells == m'.rows[r].cells;
      }
    }
  }

  /** So it can be read off the patterns and the type of the scrutinee. */
  lemma {:induction false} KeepsAlike(m: Matrix, m': Matrix)
    requires MatrixOk(m) && MatrixOk(m') && Alike(m, m') && Keeps(m)
    ensures Keeps(m')
    decreases RowsSize(m.rows)
  {
    if m.rows == [] {
    } else if AllWild(m.rows[0].cells) {
      assert m.rows[0].cells == m'.rows[0].cells;
    } else {
      assert RowOk(m.rows[0], m.cols);
      var col := FirstRefutable(m.rows[0].cells);
      AlikePicks(m, m', col);
      PicksColumn(m, col);
      PicksColumn(m', col);
      if Irrefutable(m.cols[col].ty) {
        ExpandShrinks(m, col);
        ExpandOk(m, col);
        ExpandOk(m', col);
        ExpandAlike(m, m', col);
        KeepsTuple(m, col);
        KeepsAlike(Expand(m, col), Expand(m', col));
        KeepsTuple(m', col);
      } else {
        SwitchKeepsAlike(m, m', col);
      }
    }
  }

  lemma {:induction false} SwitchKeepsAlike(m: Matrix, m': Matrix, col: nat)
    requires MatrixOk(m) && MatrixOk(m') && Alike(m, m') && Keeps(m)
    requires Picks(m, col) && Picks(m', col) && col < |m.cols| && !Irrefutable(m.cols[col].ty)
    ensures Keeps(m')
    decreases RowsSize(m.rows), 0
  {
    AlikePicks(m, m', col);
    PicksColumn(m, col);
    PicksColumn(m', col);
    forall c | c in Signature(m'.rows, col)
      ensures ColumnFits(m', col, c) && MatrixOk(Specialize(m', col, c)) && Keeps(Specialize(m', col, c))
    {
      SpecializeShrinks(m, col, c);
      SpecializeOk(m, col, c);
      SpecializeOk(m', col, c);
      SpecializeAlike(m, m', col, c);
      KeepsCase(m, col, c);
      KeepsAlike(Specialize(m, col, c), Specialize(m', col, c));
    }
    if !IsComplete(Signature(m.rows, col), m.cols[col].ty) {
      DefaultShrinks(m, col);
      DefaultOk(m, col);
      DefaultOk(m', col);
      DefaultAlike(m, m', col);
      KeepsDefault(m, col);
      KeepsAlike(Default(m, col), Default(m', col));
    }
  }

  // ----- exactly which bindings are lost -----

  /**
   * A binding of the selected row is missing from the leaf if and only if it is
   * Dropped, and then its local is bound to nothing at all.
   */
  lemma DroppedExact(m: Matrix, root: Value, vals: seq<Value>, row: Row, b: (nat, Value))
    requires Ready(m, root, vals) && First(m.rows, vals) == Some(row) && Linear(row) && RowBinds(row, root, vals, b)
    ensures Walk(Compile(m), root).Matched?
    ensures !Recorded(Walk(Compile(m), root).bindings, root, b) <==> Dropped(m, root, vals, b)
    ensures Dropped(m, root, vals, b) ==>
              forall e :: Recorded(Walk(Compile(m), root).bindings, root, e) ==> e.0 != b.0
  {
    CompileCorrect(m, root, vals);
    assert RowBinds(First(m.rows, vals).value, root, vals, b);
  }

  /** A binder that stands in a tuple column when it is expanded is lost for every value that selects its row. */
  lemma ExpandedBinderLost(m: Matrix, root: Value, vals: seq<Value>, col: nat, row: Row, x: nat)
    requires Ready(m, root, vals) && Picks(m, col) && col < |m.cols| && Irrefutable(m.cols[col].ty)
    requires First(m.rows, vals) == Some(row) && Linear(row) && col < |row.cells| && row.cells[col] == Some(Bind(x))
    ensures Walk(Compile(m), root).Matched? && Walk(Compile(m), root).branch == row.branch
    ensures RowBinds(row, root, vals, (x, vals[col]))
    ensures forall e :: Recorded(Walk(Compile(m), root).bindings, root, e) ==> e.0 != x
  {
    var b := (x, vals[col]);
    TupleReady(m, root, vals, col);
    DroppedTuple(m, root, vals, col, b);
    CompileCorrect(m, root, vals);
    assert Binds(Bind(x), vals[col])[0] == b;
    FirstMatches(m.rows, vals);
    assert CellBinds(row.cells[col], vals[col], b);
  }

  lemma {:induction false} FirstMatches(rows: seq<Row>, vals: seq<Value>)
    requires First(rows, vals).Some?
    ensures CellsMatch(First(rows, vals).value.cells, vals)
  {
    if !CellsMatch(rows[0].cells, vals) {
      FirstMatches(rows[1..], vals);
    }
  }

  // ----- a whole-value binder at the top of a tuple match -----

  lemma RootExpanded(row: Row, x: nat, arity: nat)
    requires row.cells == [Some(Bind(x))] && row.bindings == []
    ensures ExpandRow(row, 0, arity) == Row(Wildcards(arity), row.branch, [])
  {
    assert Splice(row.cells, 0, Wildcards(arity)) == Wildcards(arity);
  }

  lemma BlankRowBinds(branch: nat, root: Value, vals: seq<Value>, b: (nat, Value))
    ensures !RowBinds(Row(Wildcards(|vals|), branch, []), root, vals, b)
  {
    WildcardsAgree(vals, b);
  }

  lemma RootSelected(rows: seq<Row>, cols: seq<Place>, root: Value, v: Value, row: Row, x: nat)
    requires RowsOk(rows, cols, InOrder) && ColsAt(cols, root, [v]) && |cols| == 1 && Irrefutable(cols[0].ty)
    requires forall r :: 0 <= r < |rows| ==> 0 < |rows[r].cells|
    requires First(rows, [v]) == Some(row) && row.cells == [Some(Bind(x))] && row.bindings == []
    ensures First(ExpandRows(rows, 0, |FieldTys(cols[0].ty)|), SubValues(v)) ==
            Some(Row(Wildcards(|SubValues(v)|), row.branch, []))
  {
    ExpandRowsAgree(rows, cols, 0, root, [v]);
    RootExpanded(row, x, |SubValues(v)|);
    assert Splice([v], 0, SubValues(v)) == SubValues(v);
    assert HasType([v][0], cols[0].ty);
  }

  lemma RootBinderDropped(m: Matrix, root: Value, v: Value, row: Row, x: nat, b: (nat, Value))
    requires Ready(m, root, [v]) && |m.cols| == 1 && Irrefutable(m.cols[0].ty)
    requires First(m.rows, [v]) == Some(row) && row.cells == [Some(Bind(x))] && row.bindings == []
    requires Picks(m, 0)
    ensures Walk(Compile(m), root).Matched? && !Recorded(Walk(Compile(m), root).bindings, root, b)
  {
    PicksColumn(m, 0);
    TupleReady(m, root, [v], 0);
    assert Splice([v], 0, SubValues(v)) == SubValues(v);
    RootSelected(m.rows, m.cols, root, v, row, x);
    CompileCorrect(Expand(m, 0), root, SubValues(v));
    CompileTuple(m, 0);
    BlankRowBinds(row.branch, root, SubValues(v), b);
  }

  /**
   * A branch that binds the whole scrutinee of a tuple match gets its binding
   * exactly when the first branch has no tuple pattern.
   */
  lemma RootBinderExact(m: Matrix, root: Value, v: Value, row: Row, x: nat)
    requires Ready(m, root, [v]) && |m.cols| == 1 && Irrefutable(m.cols[0].ty)
    requires First(m.rows, [v]) == Some(row) && row.cells == [Some(Bind(x))] && row.bindings == []
    ensures Walk(Compile(m), root).Matched?
    ensures Recorded(Walk(Compile(m), root).bindings, root, (x, v)) <==> AllWild(m.rows[0].cells)
    ensures !AllWild(m.rows[0].cells) ==> forall b :: !Recorded(Walk(Compile(m), root).bindings, root, b)
  {
    assert RowOk(m.rows[0], m.cols);
    if AllWild(m.rows[0].cells) {
      CompileCorrect(m, root, [v]);
      assert Binds(Bind(x), v)[0] == (x, v);
      assert CellBinds(row.cells[0], [v][0], (x, v));
      assert RowBinds(row, root, [v], (x, v));
    } else {
      forall b ensures Walk(Compile(m), root).Matched? && !Recorded(Walk(Compile(m), root).bindings, root, b) {
        RootBinderDropped(m, root, v, row, x, b);
      }
      RootBinderDropped(m, root, v, row, x, (x, v));
    }
  }

  /** `match p { (1, _) => .., t => .. }` on a pair of 32-bit integers. */
  function PairMatch(): Matrix {
    var word := IntT(Fixed(I32), true);
    Matrix([Place(0, [], TupleT([word, word]))],
           [Row([Some(TuplePat([IntPat(1), Any]))], 0, []), Row([Some(Bind(7))], 1, [])])
  }

  const OTHER_PAIR := TupleV([IntV(2), IntV(3)])

  lemma PairRowsOk(demand: Demand)
    requires !demand.EnumsIn? && !demand.BindersIn?
    ensures RowsOk(PairMatch().rows, PairMatch().cols, demand)
  {
    var m := PairMatch();
    assert PatOk(IntPat(1), IntT(Fixed(I32), true), demand);
    assert RowOk(m.rows[0], m.cols, demand) && RowOk(m.rows[1], m.cols, demand);
  }

  lemma PairMatchReady()
    ensures Ready(PairMatch(), OTHER_PAIR, [OTHER_PAIR])
  {
    var m := PairMatch();
    var word := IntT(Fixed(I32), true);
    assert TyOk(word);
    PairRowsOk(Nothing);
    PairRowsOk(InOrder);
    assert HasType(OTHER_PAIR.elems[0], word) && HasType(OTHER_PAIR.elems[1], word);
    assert ColsAt(m.cols, OTHER_PAIR, [OTHER_PAIR]);
  }

  lemma PairMatchSelects()
    ensures First(PairMatch().rows, [OTHER_PAIR]) == Some(PairMatch().rows[1])
  {
    var rows := PairMatch().rows;
    var p := TuplePat([IntPat(1), Any]);
    assert !Matches(p, OTHER_PAIR) by {
      assert Parts(p, OTHER_PAIR).value[0] == IntV(2);
      assert !Matches(p.pats[0], IntV(2));
    }
    assert !CellMatches(rows[0].cells[0], [OTHER_PAIR][0]);
    assert CellsMatch(rows[1].cells, [OTHER_PAIR]);
    assert rows[1..] == [rows[1]];
  }

  /** Two branches, the second binding the whole pair: the tree selects it and binds nothing. */
  lemma BinderLost()
    ensures MatrixOk(PairMatch())
    ensures Binds(Bind(7), OTHER_PAIR) == [(7, OTHER_PAIR)]
    ensures var o := Walk(Compile(PairMatch()), OTHER_PAIR);
            o.Matched? && o.branch == 1 && forall b :: !Recorded(o.bindings, OTHER_PAIR, b)
  {
    PairMatchReady();
    PairMatchSelects();
    CompileCorrect(PairMatch(), OTHER_PAIR, [OTHER_PAIR]);
    assert !IsWild(PairMatch().rows[0].cells[0]);
    RootBinderExact(PairMatch(), OTHER_PAIR, OTHER_PAIR, PairMatch().rows[1], 7);
  }
}
