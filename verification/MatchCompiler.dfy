/** The compiler itself, with the measure that makes it terminate although columns grow. */
module MatchCompiler {
  import opened Core
  import opened Patterns
  import opened DecisionTree

  // ----- the measure: pattern nodes that are not wildcards -----

  ghost function Size(p: Pattern): nat
    decreases p, 0
  {
    match p
    case Any => 0
    case Bind(_) => 0
    case IntPat(_) => 1
    case TuplePat(ps) => 1 + SizeAll(ps)
    case StructPat(_, ps) => 1 + SizeAll(ps)
    case CtorPat(_, _, ps) => 1 + SizeAll(ps)
  }

  ghost function SizeAll(ps: seq<Pattern>): nat
    decreases ps, 1
  {
    if ps == [] then 0 else Size(ps[0]) + SizeAll(ps[1..])
  }

  ghost function CellSize(c: Cell): nat {
    if c.Some? then Size(c.value) else 0
  }

  ghost function CellsSize(cs: seq<Cell>): nat {
    if cs == [] then 0 else CellSize(cs[0]) + CellsSize(cs[1..])
  }

  ghost function RowsSize(rows: seq<Row>): nat {
    if rows == [] then 0 else CellsSize(rows[0].cells) + RowsSize(rows[1..])
  }

  lemma {:induction false} CellsSizeAppend(a: seq<Cell>, b: seq<Cell>)
    ensures CellsSize(a + b) == CellsSize(a) + CellsSize(b)
  {
    if a == [] {
      assert a + b == b;
    } else {
      assert (a + b)[1..] == a[1..] + b;
      CellsSizeAppend(a[1..], b);
    }
  }

  lemma SpliceSize(cs: seq<Cell>, col: nat, mid: seq<Cell>)
    requires col < |cs|
    ensures CellsSize(Splice(cs, col, mid)) + CellSize(cs[col]) == CellsSize(cs) + CellsSize(mid)
  {
    assert cs == cs[..col] + ([cs[col]] + cs[col + 1..]);
    CellsSizeAppend(cs[..col], [cs[col]] + cs[col + 1..]);
    CellsSizeAppend(cs[..col] + mid, cs[col + 1..]);
    CellsSizeAppend(cs[..col], mid);
  }

  lemma {:induction false} KnownSize(ps: seq<Pattern>)
    ensures CellsSize(Known(ps)) == SizeAll(ps)
  {
    if ps != [] {
      assert Known(ps)[1..] == Known(ps[1..]);
      KnownSize(ps[1..]);
    }
  }

  lemma {:induction false} WildcardsSize(n: nat)
    ensures CellsSize(Wildcards(n)) == 0
  {
    if n > 0 {
      assert Wildcards(n)[1..] == Wildcards(n - 1);
      WildcardsSize(n - 1);
    }
  }

  ghost function Found(names: seq<Symbol>, pats: seq<Pattern>, decl: seq<Symbol>): (cs: seq<Cell>)
    requires |names| == |pats|
    ensures |cs| == |decl| && forall i :: 0 <= i < |decl| ==> cs[i] == FindPat(names, pats, decl[i])
  {
    seq(|decl|, i requires 0 <= i < |decl| => FindPat(names, pats, decl[i]))
  }

  lemma {:induction false} FoundConsSize(names: seq<Symbol>, pats: seq<Pattern>, decl: seq<Symbol>)
    requires |names| == |pats| > 0 && Distinct(decl)
    ensures CellsSize(Found(names, pats, decl)) <=
            CellsSize(Found(names[1..], pats[1..], decl)) + (if names[0] in decl then Size(pats[0]) else 0)
  {
    if decl != [] {
      FoundConsSize(names, pats, decl[1..]);
      assert Found(names, pats, decl)[1..] == Found(names, pats, decl[1..]);
      assert Found(names[1..], pats[1..], decl)[1..] == Found(names[1..], pats[1..], decl[1..]);
      assert decl == [decl[0]] + decl[1..];
    }
  }

  lemma {:induction false} FoundSize(names: seq<Symbol>, pats: seq<Pattern>, decl: seq<Symbol>)
    requires |names| == |pats| && Distinct(decl)
    ensures CellsSize(Found(names, pats, decl)) <= SizeAll(pats)
  {
    if names == [] {
      assert Found(names, pats, decl) == Wildcards(|decl|);
      WildcardsSize(|decl|);
    } else {
      FoundSize(names[1..], pats[1..], decl);
      FoundConsSize(names, pats, decl);
    }
  }

  lemma SubCellsSize(p: Pattern, decl: Shape)
    requires p.CtorPat? && CellShaped(Some(p)) && (decl.StructShape? ==> Distinct(decl.names))
    ensures CellsSize(SubCells(p, decl)) < Size(p)
  {
    if p.shape.StructShape? && decl.StructShape? {
      assert SubCells(p, decl) == Found(p.shape.names, p.args, decl.names);
      FoundSize(p.shape.names, p.args, decl.names);
    } else {
      KnownSize(p.args);
    }
  }

  lemma SpecializeRowShrinks(row: Row, col: nat, c: Constructor, place: Place, decl: Shape, arity: nat)
    requires col < |row.cells| && CellShaped(row.cells[col]) && (decl.StructShape? ==> Distinct(decl.names))
    ensures var r := SpecializeRow(row, col, c, place, decl, arity);
            r.Some? ==>
              && CellsSize(r.value.cells) <= CellsSize(row.cells)
              && (ConstructorOf(row.cells[col]) == Some(c) ==> CellsSize(r.value.cells) < CellsSize(row.cells))
  {
    var cell := row.cells[col];
    if ConstructorOf(cell) == Some(c) {
      SpliceSize(row.cells, col, SubCells(cell.value, decl));
      if cell.value.CtorPat? {
        SubCellsSize(cell.value, decl);
      }
    } else if IsWild(cell) {
      SpliceSize(row.cells, col, Wildcards(arity));
      WildcardsSize(arity);
    }
  }

  lemma RefutableSize(cs: seq<Cell>, col: nat)
    requires col < |cs| && !IsWild(cs[col])
    ensures CellsSize(cs) > 0
  {
    SpliceSize(cs, col, []);
  }

  lemma {:induction false} SpecializeRowsShrinks(rows: seq<Row>, col: nat, c: Constructor, place: Place, decl: Shape,
                                                 arity: nat)
    requires forall r :: 0 <= r < |rows| ==> col < |rows[r].cells| && CellShaped(rows[r].cells[col])
    requires decl.StructShape? ==> Distinct(decl.names)
    ensures RowsSize(SpecializeRows(rows, col, c, place, decl, arity)) <= RowsSize(rows)
    ensures (exists r :: 0 <= r < |rows| && ConstructorOf(rows[r].cells[col]) == Some(c)) ==>
              RowsSize(SpecializeRows(rows, col, c, place, decl, arity)) < RowsSize(rows)
  {
    if rows != [] {
      SpecializeRowsShrinks(rows[1..], col, c, place, decl, arity);
      SpecializeRowShrinks(rows[0], col, c, place, decl, arity);
      if r :| 0 <= r < |rows| && ConstructorOf(rows[r].cells[col]) == Some(c) {
        if r > 0 {
          assert ConstructorOf(rows[1..][r - 1].cells[col]) == Some(c);
        }
      }
    }
  }

  lemma {:induction false} DefaultRowsShrinks(rows: seq<Row>, col: nat, place: Place)
    requires forall r :: 0 <= r < |rows| ==> col < |rows[r].cells|
    ensures RowsSize(DefaultRows(rows, col, place)) <= RowsSize(rows)
  {
    if rows != [] {
      DefaultRowsShrinks(rows[1..], col, place);
      SpliceSize(rows[0].cells, col, []);
    }
  }

  lemma ExpandRowShrinks(row: Row, col: nat, arity: nat)
    requires col < |row.cells|
    ensures CellsSize(ExpandRow(row, col, arity).cells) <= CellsSize(row.cells)
    ensures Destructures(row.cells[col]) ==>
              CellsSize(ExpandRow(row, col, arity).cells) < CellsSize(row.cells)
  {
    match row.cells[col]
    case Some(TuplePat(ps)) =>
      SpliceSize(row.cells, col, Known(ps));
      KnownSize(ps);
    case Some(StructPat(_, ps)) =>
      SpliceSize(row.cells, col, Known(ps));
      KnownSize(ps);
    case _ =>
      SpliceSize(row.cells, col, Wildcards(arity));
      WildcardsSize(arity);
  }

  lemma {:induction false} ExpandRowsShrinks(rows: seq<Row>, col: nat, arity: nat)
    requires forall r :: 0 <= r < |rows| ==> col < |rows[r].cells|
    ensures RowsSize(ExpandRows(rows, col, arity)) <= RowsSize(rows)
  {
    if rows != [] {
      ExpandRowsShrinks(rows[1..], col, arity);
      ExpandRowShrinks(rows[0], col, arity);
      assert ExpandRows(rows, col, arity)[1..] == ExpandRows(rows[1..], col, arity);
    }
  }

  /** Every specialization by a constructor of the column removes a pattern node. */
  lemma SpecializeShrinks(m: Matrix, col: nat, c: Constructor)
    requires ColumnFits(m, col, c)
    requires exists r :: 0 <= r < |m.rows| && col < |m.rows[r].cells| && ConstructorOf(m.rows[r].cells[col]) == Some(c)
    ensures RowsSize(Specialize(m, col, c).rows) < RowsSize(m.rows)
  {
    ColumnReady(m, col);
    var place := m.cols[col];
    SpecializeRowsShrinks(m.rows, col, c, place, DeclShape(place.ty, c), |CtorPlaces(place, c)|);
  }

  /** Defaulting on the first row's refutable column drops that row. */
  lemma DefaultShrinks(m: Matrix, col: nat)
    requires MatrixOk(m) && col < |m.cols| && m.rows != [] && col < |m.rows[0].cells| && !IsWild(m.rows[0].cells[col])
    ensures RowsSize(Default(m, col).rows) < RowsSize(m.rows)
  {
    ColumnReady(m, col);
    DefaultRowsShrinks(m.rows[1..], col, m.cols[col]);
    RefutableSize(m.rows[0].cells, col);
  }

  /** Expanding a tuple column that the first row destructures removes its tuple node. */
  lemma ExpandShrinks(m: Matrix, col: nat)
    requires MatrixOk(m) && col < |m.cols| && Irrefutable(m.cols[col].ty)
    requires m.rows != [] && col < |m.rows[0].cells| && !IsWild(m.rows[0].cells[col])
    ensures RowsSize(Expand(m, col).rows) < RowsSize(m.rows)
  {
    ColumnReady(m, col);
    assert RowOk(m.rows[0], m.cols) && CellOk(m.rows[0].cells[col], m.cols[col].ty);
    var arity := |FieldPlaces(m.cols[col])|;
    ExpandRowsShrinks(m.rows[1..], col, arity);
    ExpandRowShrinks(m.rows[0], col, arity);
    assert Expand(m, col).rows[1..] == ExpandRows(m.rows[1..], col, arity);
  }

  // ----- the steps keep a matrix well typed -----

  lemma SpliceCellsOk(cells: seq<Cell>, cols: seq<Place>, col: nat, mid: seq<Cell>, places: seq<Place>,
                      demand: Demand)
    requires |cells| == |cols| && col < |cols| && |mid| == |places|
    requires forall i :: 0 <= i < |cols| ==> CellOk(cells[i], cols[i].ty, demand)
    requires forall i :: 0 <= i < |places| ==> CellOk(mid[i], places[i].ty, demand)
    ensures |Splice(cells, col, mid)| == |Splice(cols, col, places)|
    ensures forall i :: 0 <= i < |Splice(cols, col, places)| ==>
              CellOk(Splice(cells, col, mid)[i], Splice(cols, col, places)[i].ty, demand)
  {
  }

  lemma SpliceTysOk(cols: seq<Place>, col: nat, places: seq<Place>)
    requires col < |cols| && (forall i :: 0 <= i < |cols| ==> TyOk(cols[i].ty))
    requires forall i :: 0 <= i < |places| ==> TyOk(places[i].ty)
    ensures forall i :: 0 <= i < |Splice(cols, col, places)| ==> TyOk(Splice(cols, col, places)[i].ty)
  {
  }

  lemma IndexOfDistinct(names: seq<Symbol>, i: nat)
    requires Distinct(names) && i < |names|
    ensures IndexOf(names, names[i]) == i
  {
  }

  lemma VariantPlacesTys(base: Place, k: nat)
    requires base.ty.EnumT? && k < |base.ty.variants|
    requires ShapeOk(base.ty.variants[k].shape, |base.ty.variants[k].tys|)
    ensures var v := base.ty.variants[k];
            && |VariantPlaces(base, k)| == |v.tys|
            && forall i :: 0 <= i < |v.tys| ==> VariantPlaces(base, k)[i].ty == v.tys[i]
  {
    var v := base.ty.variants[k];
    if v.shape.StructShape? {
      forall i | 0 <= i < |v.tys| ensures VariantPlaces(base, k)[i].ty == v.tys[i] {
        IndexOfDistinct(v.shape.names, i);
      }
    }
  }

  lemma SubCellsOk(p: Pattern, t: Ty, demand: Demand)
    requires p.CtorPat? && PatOk(p, t, demand)
    ensures var v := t.variants[p.idx]; var cs := SubCells(p, v.shape);
            |cs| == |v.tys| && forall i :: 0 <= i < |cs| ==> CellOk(cs[i], v.tys[i], demand)
  {
    var v := t.variants[p.idx];
    var cs := SubCells(p, v.shape);
    forall i | 0 <= i < |cs| ensures i < |v.tys| && CellOk(cs[i], v.tys[i], demand) {
      if v.shape.StructShape? {
        if cs[i].Some? {
          var j := IndexOf(p.shape.names, v.shape.names[i]);
          IndexOfDistinct(v.shape.names, i);
          assert Slot(p.shape, v.shape, j) == i;
        }
      } else {
        assert Slot(p.shape, v.shape, i) == i;
      }
    }
  }

  lemma SpecializeRowOk(row: Row, cols: seq<Place>, col: nat, c: Constructor, demand: Demand)
    requires RowOk(row, cols, demand) && col < |cols| && CtorFits(c, cols[col].ty)
    requires c.VariantC? ==> ShapeOk(cols[col].ty.variants[c.idx].shape, |cols[col].ty.variants[c.idx].tys|)
    requires CellShaped(row.cells[col])
    ensures var places := CtorPlaces(cols[col], c);
            var r := SpecializeRow(row, col, c, cols[col], DeclShape(cols[col].ty, c), |places|);
            r.Some? ==> RowOk(r.value, Splice(cols, col, places), demand)
  {
    var place := cols[col];
    var places := CtorPlaces(place, c);
    var cell := row.cells[col];
    assert CellOk(cell, place.ty, demand);
    if c.VariantC? {
      VariantPlacesTys(place, c.idx);
    }
    if ConstructorOf(cell) == Some(c) {
      if c.VariantC? {
        SubCellsOk(cell.value, place.ty, demand);
      }
      SpliceCellsOk(row.cells, cols, col, SubCells(cell.value, DeclShape(place.ty, c)), places, demand);
    } else if IsWild(cell) {
      SpliceCellsOk(row.cells, cols, col, Wildcards(|places|), places, demand);
    }
  }

  lemma {:induction false} SpecializeRowsOk(rows: seq<Row>, cols: seq<Place>, col: nat, c: Constructor,
                                            demand: Demand)
    requires col < |cols| && CtorFits(c, cols[col].ty)
    requires c.VariantC? ==> ShapeOk(cols[col].ty.variants[c.idx].shape, |cols[col].ty.variants[c.idx].tys|)
    requires RowsOk(rows, cols, demand)
    requires forall r :: 0 <= r < |rows| ==> col < |rows[r].cells| && CellShaped(rows[r].cells[col])
    ensures var places := CtorPlaces(cols[col], c);
            var rs := SpecializeRows(rows, col, c, cols[col], DeclShape(cols[col].ty, c), |places|);
            RowsOk(rs, Splice(cols, col, places), demand)
  {
    if rows != [] {
      assert RowOk(rows[0], cols, demand);
      SpecializeRowsOk(rows[1..], cols, col, c, demand);
      SpecializeRowOk(rows[0], cols, col, c, demand);
    }
  }

  lemma SpecializeOk(m: Matrix, col: nat, c: Constructor)
    requires ColumnFits(m, col, c)
    ensures MatrixOk(Specialize(m, col, c))
  {
    ColumnReady(m, col);
    SpecializeRowsOk(m.rows, m.cols, col, c, Nothing);
    assert TyOk(m.cols[col].ty);
    if c.VariantC? {
      VariantPlacesTys(m.cols[col], c.idx);
    }
    SpliceTysOk(m.cols, col, CtorPlaces(m.cols[col], c));
  }

  lemma {:induction false} DefaultRowsOk(rows: seq<Row>, cols: seq<Place>, col: nat, demand: Demand)
    requires col < |cols| && RowsOk(rows, cols, demand)
    requires forall r :: 0 <= r < |rows| ==> col < |rows[r].cells|
    ensures var rs := DefaultRows(rows, col, cols[col]);
            RowsOk(rs, Splice(cols, col, []), demand)
  {
    if rows != [] {
      assert RowOk(rows[0], cols, demand);
      DefaultRowsOk(rows[1..], cols, col, demand);
      SpliceCellsOk(rows[0].cells, cols, col, [], [], demand);
    }
  }

  lemma DefaultOk(m: Matrix, col: nat)
    requires MatrixOk(m) && col < |m.cols|
    ensures MatrixOk(Default(m, col))
  {
    ColumnReady(m, col);
    DefaultRowsOk(m.rows, m.cols, col, Nothing);
    SpliceTysOk(m.cols, col, []);
  }

  lemma ExpandRowOk(row: Row, cols: seq<Place>, col: nat, demand: Demand)
    requires RowOk(row, cols, demand) && col < |cols| && Irrefutable(cols[col].ty)
    ensures RowOk(ExpandRow(row, col, |FieldPlaces(cols[col])|), Splice(cols, col, FieldPlaces(cols[col])), demand)
  {
    var places := FieldPlaces(cols[col]);
    assert CellOk(row.cells[col], cols[col].ty, demand);
    var cell := row.cells[col];
    if Destructures(cell) {
      SpliceCellsOk(row.cells, cols, col, Known(cell.value.pats), places, demand);
    } else {
      SpliceCellsOk(row.cells, cols, col, Wildcards(|places|), places, demand);
    }
  }

  lemma ExpandOk(m: Matrix, col: nat)
    requires MatrixOk(m) && col < |m.cols| && Irrefutable(m.cols[col].ty)
    ensures MatrixOk(Expand(m, col))
  {
    assert TyOk(m.cols[col].ty);
    SpliceTysOk(m.cols, col, FieldPlaces(m.cols[col]));
    forall r | 0 <= r < |m.rows| ensures RowOk(Expand(m, col).rows[r], Expand(m, col).cols) {
      ColumnReady(m, col);
      ExpandRowOk(m.rows[r], m.cols, col, Nothing);
    }
  }

  // ----- and what is demanded of its patterns -----

  lemma ExpandMeets(m: Matrix, col: nat, demand: Demand)
    requires MatrixOk(m) && RowsOk(m.rows, m.cols, demand) && col < |m.cols| && Irrefutable(m.cols[col].ty)
    ensures RowsOk(Expand(m, col).rows, Expand(m, col).cols, demand)
  {
    forall r {:trigger Expand(m, col).rows[r]} | 0 <= r < |m.rows|
      ensures RowOk(Expand(m, col).rows[r], Expand(m, col).cols, demand)
    {
      ColumnReady(m, col);
      ExpandRowOk(m.rows[r], m.cols, col, demand);
    }
  }

  lemma SpecializeMeets(m: Matrix, col: nat, c: Constructor, demand: Demand)
    requires ColumnFits(m, col, c) && RowsOk(m.rows, m.cols, demand)
    ensures RowsOk(Specialize(m, col, c).rows, Specialize(m, col, c).cols, demand)
  {
    ColumnReady(m, col);
    SpecializeRowsOk(m.rows, m.cols, col, c, demand);
  }

  lemma DefaultMeets(m: Matrix, col: nat, demand: Demand)
    requires MatrixOk(m) && RowsOk(m.rows, m.cols, demand) && col < |m.cols|
    ensures RowsOk(Default(m, col).rows, Default(m, col).cols, demand)
  {
    ColumnReady(m, col);
    DefaultRowsOk(m.rows, m.cols, col, demand);
  }

  // ----- compilation -----

  ghost predicate SigFits(m: Matrix, col: nat, sig: seq<Constructor>) {
    forall c :: c in sig ==>
      && ColumnFits(m, col, c)
      && exists r :: 0 <= r < |m.rows| && col < |m.rows[r].cells| && ConstructorOf(m.rows[r].cells[col]) == Some(c)
  }

  lemma SignatureFits(m: Matrix, col: nat)
    requires MatrixOk(m) && col < |m.cols|
    ensures forall r :: 0 <= r < |m.rows| ==> col < |m.rows[r].cells|
    ensures SigFits(m, col, Signature(m.rows, col))
  {
    ColumnReady(m, col);
  }

  function Compile(m: Matrix): Tree
    requires MatrixOk(m)
    decreases RowsSize(m.rows), 1, 0
  {
    if m.rows == [] then Fail
    else
      var fst := m.rows[0];
      assert RowOk(fst, m.cols);
      if AllWild(fst.cells) then Leaf(fst.branch, LeafBindings(fst.cells, m.cols, fst.bindings))
      else
        var col := FirstRefutable(fst.cells);
        SignatureFits(m, col);
        var sig := Signature(m.rows, col);
        var cases := CompileCases(m, col, sig);
        var place := m.cols[col];
        if Irrefutable(place.ty) then
          ExpandShrinks(m, col);
          ExpandOk(m, col);
          Compile(Expand(m, col))
        else if IsComplete(sig, place.ty) then
          Switch(place, cases, None)
        else
          DefaultShrinks(m, col);
          DefaultOk(m, col);
          Switch(place, cases, Some(Compile(Default(m, col))))
  }

  function CompileCases(m: Matrix, col: nat, sig: seq<Constructor>): (cases: seq<Case>)
    requires SigFits(m, col, sig)
    ensures |cases| == |sig|
    decreases RowsSize(m.rows), 0, |sig|
  {
    if sig == [] then []
    else
      assert sig[0] in sig;
      SpecializeShrinks(m, col, sig[0]);
      SpecializeOk(m, col, sig[0]);
      [Case(sig[0], Compile(Specialize(m, col, sig[0])))] + CompileCases(m, col, sig[1..])
  }
}
