/** No place is tested twice. */
module MatchTests {
  import opened Core
  import opened DecisionTree
  import opened MatchCompiler
  import opened MatchCompilerTheorems

  /** No column is the same place as another one or lies below it. */
  ghost predicate PrefixFree(cols: seq<Place>) {
    forall i, j {:trigger cols[i], cols[j]} :: 0 <= i < |cols| && 0 <= j < |cols| && i != j ==>
      !(cols[i].projs <= cols[j].projs)
  }

  /** No column is a tested place or one of the places above it. */
  ghost predicate Untested(cols: seq<Place>, tested: seq<seq<Proj>>) {
    forall i, k {:trigger cols[i], tested[k]} :: 0 <= i < |cols| && 0 <= k < |tested| ==> !(cols[i].projs <= tested[k])
  }

  /** Along every path, no place is tested again or after one of its sub-places. */
  ghost predicate TestsOnce(t: Tree, tested: seq<seq<Proj>>)
    decreases t
  {
    match t
    case Switch(place, cases, default) =>
      && (forall k :: 0 <= k < |tested| ==> !(place.projs <= tested[k]))
      && (forall i :: 0 <= i < |cases| ==> TestsOnce(cases[i].tree, tested + [place.projs]))
      && (default.Some? ==> TestsOnce(default.value, tested + [place.projs]))
    case _ => true
  }

  ghost predicate Below(places: seq<Place>, base: Place) {
    && (forall i :: 0 <= i < |places| ==> base.projs < places[i].projs)
    && (forall i, j :: 0 <= i < |places| && 0 <= j < |places| && i != j ==> !(places[i].projs <= places[j].projs))
  }

  lemma FieldPlacesBelow(base: Place)
    requires Irrefutable(base.ty) && TyOk(base.ty)
    ensures Below(FieldPlaces(base), base)
  {
    var ps := FieldPlaces(base);
    forall i, j | 0 <= i < |ps| && 0 <= j < |ps| && i != j ensures !(ps[i].projs <= ps[j].projs) {
      assert ps[i].projs[|base.projs|] == FieldProj(base.ty, i) && ps[j].projs[|base.projs|] == FieldProj(base.ty, j);
    }
  }

  lemma CtorPlacesBelow(base: Place, c: Constructor)
    requires c.VariantC? ==> base.ty.EnumT? && c.idx < |base.ty.variants|
    requires c.VariantC? ==> ShapeOk(base.ty.variants[c.idx].shape, |base.ty.variants[c.idx].tys|)
    ensures Below(CtorPlaces(base, c), base)
  {
    var ps := CtorPlaces(base, c);
    forall i, j | 0 <= i < |ps| && 0 <= j < |ps| && i != j ensures !(ps[i].projs <= ps[j].projs) {
      var n := |base.projs|;
      assert |ps[i].projs| == |ps[j].projs| == n + 2;
      if base.ty.variants[c.idx].shape.StructShape? {
        var names := base.ty.variants[c.idx].shape.names;
        assert ps[i].projs[n + 1] == NamedField(names[i]) && ps[j].projs[n + 1] == NamedField(names[j]);
        assert names[i] != names[j];
      } else {
        assert ps[i].projs[n + 1] == TupleField(i) && ps[j].projs[n + 1] == TupleField(j);
      }
    }
  }

  lemma PrefixLinear(a: seq<Proj>, b: seq<Proj>, c: seq<Proj>)
    requires a <= c && b <= c
    ensures a <= b || b <= a
  {
  }

  lemma SplicePrefixFree(cols: seq<Place>, col: nat, places: seq<Place>)
    requires PrefixFree(cols) && col < |cols| && Below(places, cols[col])
    ensures PrefixFree(Splice(cols, col, places))
  {
    var cs := Splice(cols, col, places);
    var n := |places|;
    forall i, j {:trigger cs[i], cs[j]} | 0 <= i < |cs| && 0 <= j < |cs| && i != j
      ensures !(cs[i].projs <= cs[j].projs)
    {
      var (i', j') := (if i < col then i else if i < col + n then col else i - n + 1,
                       if j < col then j else if j < col + n then col else j - n + 1);
      assert cols[i'].projs <= cs[i].projs && cols[j'].projs <= cs[j].projs;
      if i' != j' && cs[i].projs <= cs[j].projs {
        PrefixLinear(cols[i'].projs, cols[j'].projs, cs[j].projs);
      }
    }
  }

  lemma SpliceUntested(cols: seq<Place>, col: nat, places: seq<Place>, tested: seq<seq<Proj>>)
    requires Untested(cols, tested) && col < |cols| && Below(places, cols[col])
    ensures Untested(Splice(cols, col, places), tested)
  {
    var cs := Splice(cols, col, places);
    var n := |places|;
    forall i, k {:trigger cs[i], tested[k]} | 0 <= i < |cs| && 0 <= k < |tested| ensures !(cs[i].projs <= tested[k]) {
      var i' := if i < col then i else if i < col + n then col else i - n + 1;
      assert cols[i'].projs <= cs[i].projs;
    }
  }

  lemma SpliceMarksTested(cols: seq<Place>, col: nat, places: seq<Place>, tested: seq<seq<Proj>>)
    requires Untested(cols, tested) && PrefixFree(cols) && col < |cols| && Below(places, cols[col])
    ensures Untested(Splice(cols, col, places), tested + [cols[col].projs])
  {
    SpliceUntested(cols, col, places, tested);
    var cs := Splice(cols, col, places);
    forall i | 0 <= i < |cs| ensures !(cs[i].projs <= cols[col].projs) {
      if i < col || i >= col + |places| {
        var i' := if i < col then i else i - |places| + 1;
        assert cs[i] == cols[i'];
      }
    }
  }

  lemma {:induction false} CompileTestsOnce(m: Matrix, tested: seq<seq<Proj>>)
    requires MatrixOk(m) && PrefixFree(m.cols) && Untested(m.cols, tested)
    ensures TestsOnce(Compile(m), tested)
    decreases RowsSize(m.rows), 2, 0
  {
    if m.rows == [] || AllWild(m.rows[0].cells) {
    } else {
      assert RowOk(m.rows[0], m.cols);
      var col := FirstRefutable(m.rows[0].cells);
      PicksColumn(m, col);
      if Irrefutable(m.cols[col].ty) {
        FieldPlacesBelow(m.cols[col]);
        SplicePrefixFree(m.cols, col, FieldPlaces(m.cols[col]));
        SpliceUntested(m.cols, col, FieldPlaces(m.cols[col]), tested);
        ExpandShrinks(m, col);
        ExpandOk(m, col);
        CompileTestsOnce(Expand(m, col), tested);
        CompileTuple(m, col);
      } else {
        SwitchTestsOnce(m, tested, col);
      }
    }
  }

  lemma {:induction false} SwitchTestsOnce(m: Matrix, tested: seq<seq<Proj>>, col: nat)
    requires MatrixOk(m) && PrefixFree(m.cols) && Untested(m.cols, tested)
    requires Picks(m, col) && col < |m.cols| && !Irrefutable(m.cols[col].ty)
    ensures TestsOnce(Compile(m), tested)
    decreases RowsSize(m.rows), 1
  {
    PicksColumn(m, col);
    var place := m.cols[col];
    CasesTestOnce(m, tested, col, Signature(m.rows, col));
    if !IsComplete(Signature(m.rows, col), place.ty) {
      DefaultShrinks(m, col);
      DefaultOk(m, col);
      SplicePrefixFree(m.cols, col, []);
      SpliceMarksTested(m.cols, col, [], tested);
      CompileTestsOnce(Default(m, col), tested + [place.projs]);
    }
    assert Untested(m.cols, tested) && forall k :: 0 <= k < |tested| ==> !(m.cols[col].projs <= tested[k]);
  }

  lemma {:induction false} CasesTestOnce(m: Matrix, tested: seq<seq<Proj>>, col: nat, sig: seq<Constructor>)
    requires MatrixOk(m) && PrefixFree(m.cols) && Untested(m.cols, tested) && col < |m.cols| && SigFits(m, col, sig)
    ensures forall i :: 0 <= i < |sig| ==> TestsOnce(CompileCases(m, col, sig)[i].tree, tested + [m.cols[col].projs])
    decreases RowsSize(m.rows), 0, |sig|
  {
    if sig != [] {
      FirstCase(m, col, sig);
      CasesTestOnce(m, tested, col, sig[1..]);
      CaseColumns(m, tested, col, sig[0]);
      CompileTestsOnce(Specialize(m, col, sig[0]), tested + [m.cols[col].projs]);
    }
  }

  lemma CaseColumns(m: Matrix, tested: seq<seq<Proj>>, col: nat, c: Constructor)
    requires ColumnFits(m, col, c) && PrefixFree(m.cols) && Untested(m.cols, tested)
    ensures PrefixFree(Specialize(m, col, c).cols)
    ensures Untested(Specialize(m, col, c).cols, tested + [m.cols[col].projs])
  {
    ColumnReady(m, col);
    CtorPlacesBelow(m.cols[col], c);
    SplicePrefixFree(m.cols, col, CtorPlaces(m.cols[col], c));
    SpliceMarksTested(m.cols, col, CtorPlaces(m.cols[col], c), tested);
  }
}
