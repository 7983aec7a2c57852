/** Walking the compiled tree agrees with trying the rows from top to bottom. */
module MatchCompilerSteps {
  import opened Core
  import opened Patterns
  import opened DecisionTree
  import opened MatchCompiler
  import opened Binders

  // ----- the meaning of a tree -----

  datatype WalkResult = Matched(branch: nat, bindings: seq<Binding>) | NoMatch | Stuck

  function Head(v: Value): Option<Constructor> {
    match v
    case EnumV(k, _, _) => Some(VariantC(k))
    case IntV(n) => Some(IntC(n))
    case BoolV(b) => Some(BoolC(b))
    case _ => None
  }

  function FindCase(cases: seq<Case>, c: Constructor): (r: Option<Tree>)
    ensures r.Some? ==> exists i :: 0 <= i < |cases| && cases[i] == Case(c, r.value)
  {
    if cases == [] then None
    else if cases[0].ctor == c then Some(cases[0].tree)
    else FindCase(cases[1..], c)
  }

  /**
   * Follows the tests of a tree on a root value; Stuck when a place cannot be
   * read, holds a value of another type, or no case covers it.
   */
  ghost function Walk(t: Tree, root: Value): WalkResult
    decreases t
  {
    match t
    case Leaf(branch, bindings) => Matched(branch, bindings)
    case Fail => NoMatch
    case Switch(place, cases, default) =>
      match Project(root, place.projs)
      case None => Stuck
      case Some(v) =>
        if !HasType(v, place.ty) || Head(v).None? then Stuck
        else
          match FindCase(cases, Head(v).value)
          case Some(sub) => Walk(sub, root)
          case None => if default.Some? then Walk(default.value, root) else Stuck
  }

  // ----- the meaning of a matrix -----

  /** The columns are readable below the root and hold these well-typed values. */
  ghost predicate ColsAt(cols: seq<Place>, root: Value, vals: seq<Value>) {
    && |vals| == |cols|
    && forall i :: 0 <= i < |cols| ==>
         Project(root, cols[i].projs) == Some(vals[i]) && HasType(vals[i], cols[i].ty)
  }

  ghost function First(rows: seq<Row>, vals: seq<Value>): Option<Row> {
    if rows == [] then None
    else if CellsMatch(rows[0].cells, vals) then Some(rows[0])
    else First(rows[1..], vals)
  }

  ghost predicate Recorded(bindings: seq<Binding>, root: Value, b: (nat, Value)) {
    exists i :: 0 <= i < |bindings| && Denotes(bindings[i], root, b)
  }

  ghost predicate Denotes(e: Binding, root: Value, b: (nat, Value)) {
    e.local == b.0 && Project(root, e.place.projs) == Some(b.1)
  }

  ghost predicate Readable(bindings: seq<Binding>, root: Value) {
    forall i :: 0 <= i < |bindings| ==> Project(root, bindings[i].place.projs).Some?
  }

  /** Everything a row binds: what was recorded for it and what its cells still bind. */
  ghost predicate RowBinds(row: Row, root: Value, vals: seq<Value>, b: (nat, Value)) {
    Recorded(row.bindings, root, b) || CellsBind(row.cells, vals, b)
  }

  lemma RecordedAppend(xs: seq<Binding>, ys: seq<Binding>, root: Value, b: (nat, Value))
    ensures Recorded(xs + ys, root, b) <==> Recorded(xs, root, b) || Recorded(ys, root, b)
  {
    if i :| 0 <= i < |xs| && Denotes(xs[i], root, b) {
      assert Denotes((xs + ys)[i], root, b);
    }
    if i :| 0 <= i < |ys| && Denotes(ys[i], root, b) {
      assert Denotes((xs + ys)[|xs| + i], root, b);
    }
    if i :| 0 <= i < |xs + ys| && Denotes((xs + ys)[i], root, b) {
      assert if i < |xs| then Denotes(xs[i], root, b) else Denotes(ys[i - |xs|], root, b);
    }
  }

  lemma CellBindingsRecord(c: Cell, place: Place, root: Value, v: Value, b: (nat, Value))
    requires IsWild(c) && Project(root, place.projs) == Some(v)
    ensures Recorded(CellBindings(c, place), root, b) <==> CellBinds(c, v, b)
  {
    if c.Some? && c.value.Bind? {
      assert Binds(c.value, v) == [(c.value.local, v)];
      assert Recorded(CellBindings(c, place), root, b) <==> Denotes(CellBindings(c, place)[0], root, b);
    }
  }

  // ----- splicing a column -----

  ghost predicate OthersBind(cs: seq<Cell>, vs: seq<Value>, col: nat, b: (nat, Value))
    requires |cs| == |vs| && col < |cs|
  {
    CellsBind(cs[..col], vs[..col], b) || CellsBind(cs[col + 1..], vs[col + 1..], b)
  }

  lemma SpliceMatch(cs: seq<Cell>, vs: seq<Value>, col: nat, mid: seq<Cell>, midv: seq<Value>)
    requires |cs| == |vs| && col < |cs| && |mid| == |midv|
    requires CellMatches(cs[col], vs[col]) <==> CellsMatch(mid, midv)
    ensures CellsMatch(cs, vs) <==> CellsMatch(Splice(cs, col, mid), Splice(vs, col, midv))
  {
    var (a, x, z, w) := (cs[..col], vs[..col], cs[col + 1..], vs[col + 1..]);
    CellsMatchAppend(a + mid, z, x + midv, w);
    CellsMatchAppend(a, mid, x, midv);
    assert cs == a + [cs[col]] + z && vs == x + [vs[col]] + w;
    CellsMatchAppend(a + [cs[col]], z, x + [vs[col]], w);
    CellsMatchAppend(a, [cs[col]], x, [vs[col]]);
    assert CellsMatch([cs[col]], [vs[col]]) <==> CellMatches([cs[col]][0], [vs[col]][0]);
  }

  lemma SpliceBind(cs: seq<Cell>, vs: seq<Value>, col: nat, mid: seq<Cell>, midv: seq<Value>, b: (nat, Value))
    requires |cs| == |vs| && col < |cs| && |mid| == |midv|
    ensures CellsBind(cs, vs, b) <==> OthersBind(cs, vs, col, b) || CellBinds(cs[col], vs[col], b)
    ensures CellsBind(Splice(cs, col, mid), Splice(vs, col, midv), b) <==>
            OthersBind(cs, vs, col, b) || CellsBind(mid, midv, b)
  {
    var (a, x, z, w) := (cs[..col], vs[..col], cs[col + 1..], vs[col + 1..]);
    CellsBindAppend(a + mid, z, x + midv, w, b);
    CellsBindAppend(a, mid, x, midv, b);
    assert cs == a + [cs[col]] + z && vs == x + [vs[col]] + w;
    CellsBindAppend(a + [cs[col]], z, x + [vs[col]], w, b);
    CellsBindAppend(a, [cs[col]], x, [vs[col]], b);
    assert CellsBind([cs[col]], [vs[col]], b) <==> CellBinds([cs[col]][0], [vs[col]][0], b);
  }

  // ----- one constructor cell against the parts of its value -----

  lemma KnownAgrees(ps: seq<Pattern>, vs: seq<Value>, b: (nat, Value))
    requires |ps| == |vs|
    ensures CellsMatch(Known(ps), vs) <==> forall i :: 0 <= i < |ps| ==> Matches(ps[i], vs[i])
    ensures CellsBind(Known(ps), vs, b) <==> b in BindsAll(ps, vs)
  {
    var cs := Known(ps);
    if CellsMatch(cs, vs) {
      forall i | 0 <= i < |ps| ensures Matches(ps[i], vs[i]) { assert CellMatches(cs[i], vs[i]); }
    }
    BindsAllMember(ps, vs, b);
    if i :| 0 <= i < |ps| && b in Binds(ps[i], vs[i]) {
      assert CellBinds(cs[i], vs[i], b);
    }
    if i :| 0 <= i < |cs| && CellBinds(cs[i], vs[i], b) {
      assert b in Binds(ps[i], vs[i]);
    }
  }

  lemma WildcardsAgree(vs: seq<Value>, b: (nat, Value))
    ensures CellsMatch(Wildcards(|vs|), vs)
    ensures !CellsBind(Wildcards(|vs|), vs, b)
  {
  }

  ghost predicate Paired(ps: seq<Pattern>, xs: seq<Value>, i: int, cs: seq<Cell>, vs: seq<Value>, j: int) {
    0 <= i < |ps| == |xs| && 0 <= j < |cs| == |vs| && cs[j] == Some(ps[i]) && vs[j] == xs[i]
  }

  ghost predicate HasCell(ps: seq<Pattern>, xs: seq<Value>, i: int, cs: seq<Cell>, vs: seq<Value>) {
    exists j :: Paired(ps, xs, i, cs, vs, j)
  }

  ghost predicate HasArg(ps: seq<Pattern>, xs: seq<Value>, cs: seq<Cell>, vs: seq<Value>, j: int) {
    exists i :: Paired(ps, xs, i, cs, vs, j)
  }

  /** The same sub-patterns on the same parts, in another order and padded with wildcards. */
  ghost predicate Rearranged(ps: seq<Pattern>, xs: seq<Value>, cs: seq<Cell>, vs: seq<Value>) {
    && |ps| == |xs| && |cs| == |vs|
    && (forall i :: 0 <= i < |ps| ==> HasCell(ps, xs, i, cs, vs))
    && (forall j :: 0 <= j < |cs| && cs[j].Some? ==> HasArg(ps, xs, cs, vs, j))
  }

  lemma RearrangedMatches(ps: seq<Pattern>, xs: seq<Value>, cs: seq<Cell>, vs: seq<Value>)
    requires Rearranged(ps, xs, cs, vs)
    ensures CellsMatch(cs, vs) <==> forall i :: 0 <= i < |ps| ==> Matches(ps[i], xs[i])
  {
    if CellsMatch(cs, vs) {
      forall i | 0 <= i < |ps| ensures Matches(ps[i], xs[i]) {
        assert HasCell(ps, xs, i, cs, vs);
        var j :| Paired(ps, xs, i, cs, vs, j);
        assert CellMatches(cs[j], vs[j]);
      }
    }
    if forall i :: 0 <= i < |ps| ==> Matches(ps[i], xs[i]) {
      forall j | 0 <= j < |cs| && cs[j].Some? ensures CellMatches(cs[j], vs[j]) {
        assert HasArg(ps, xs, cs, vs, j);
        var i :| Paired(ps, xs, i, cs, vs, j);
        assert Matches(ps[i], xs[i]);
      }
    }
  }

  lemma RearrangedBinds(ps: seq<Pattern>, xs: seq<Value>, cs: seq<Cell>, vs: seq<Value>, b: (nat, Value))
    requires Rearranged(ps, xs, cs, vs)
    ensures CellsBind(cs, vs, b) <==> b in BindsAll(ps, xs)
  {
    BindsAllMember(ps, xs, b);
    if b in BindsAll(ps, xs) {
      var i :| 0 <= i < |ps| && b in Binds(ps[i], xs[i]);
      assert HasCell(ps, xs, i, cs, vs);
      var j :| Paired(ps, xs, i, cs, vs, j);
      assert CellBinds(cs[j], vs[j], b);
    }
    if CellsBind(cs, vs, b) {
      var j :| 0 <= j < |cs| && CellBinds(cs[j], vs[j], b);
      assert HasArg(ps, xs, cs, vs, j);
      var i :| Paired(ps, xs, i, cs, vs, j);
      assert b in Binds(ps[i], xs[i]);
    }
  }

  ghost predicate NamedCase(p: Pattern, t: Ty, v: Value) {
    && p.CtorPat? && PatOk(p, t) && t.variants[p.idx].shape.StructShape?
    && HasType(v, t) && v.variant == p.idx
  }

  lemma NamedArgPaired(p: Pattern, t: Ty, v: Value, i: nat)
    requires NamedCase(p, t, v) && Parts(p, v).Some? && i < |p.args|
    ensures Paired(p.args, Parts(p, v).value, i, SubCells(p, v.shape), v.parts,
                   IndexOf(v.shape.names, p.shape.names[i]))
  {
    IndexOfDistinct(p.shape.names, i);
  }

  lemma NamedCellPaired(p: Pattern, t: Ty, v: Value, j: nat)
    requires NamedCase(p, t, v) && Parts(p, v).Some? && j < |v.shape.names| && v.shape.names[j] in p.shape.names
    ensures Paired(p.args, Parts(p, v).value, IndexOf(p.shape.names, v.shape.names[j]), SubCells(p, v.shape), v.parts,
                   j)
  {
    IndexOfDistinct(v.shape.names, j);
  }

  /** Looking the declared parts up by name rearranges the written fields. */
  lemma NamedCellsRearranged(p: Pattern, t: Ty, v: Value)
    requires NamedCase(p, t, v)
    ensures Parts(p, v).Some?
    ensures Rearranged(p.args, Parts(p, v).value, SubCells(p, v.shape), v.parts)
  {
    var cs := SubCells(p, v.shape);
    var xs := Parts(p, v).value;
    forall i | 0 <= i < |p.args| ensures HasCell(p.args, xs, i, cs, v.parts) {
      NamedArgPaired(p, t, v, i);
    }
    forall j | 0 <= j < |cs| && cs[j].Some? ensures HasArg(p.args, xs, cs, v.parts, j) {
      NamedCellPaired(p, t, v, j);
    }
  }

  ghost function SubValues(v: Value): seq<Value> {
    match v
    case EnumV(_, _, parts) => parts
    case TupleV(elems) => elems
    case StructV(_, fields) => fields
    case _ => []
  }

  lemma CtorCellAgrees(p: Pattern, t: Ty, v: Value, b: (nat, Value))
    requires p.CtorPat? || p.IntPat?
    requires PatOk(p, t) && HasType(v, t) && ConstructorOf(Some(p)) == Head(v)
    ensures var cs := SubCells(p, if v.EnumV? then v.shape else UnitShape);
            && |cs| == |SubValues(v)|
            && (Matches(p, v) <==> CellsMatch(cs, SubValues(v)))
            && (b in Binds(p, v) <==> CellsBind(cs, SubValues(v), b))
  {
    var cs := SubCells(p, if v.EnumV? then v.shape else UnitShape);
    if p.CtorPat? {
      var decl := t.variants[p.idx];
      if decl.shape.StructShape? {
        NamedCellsRearranged(p, t, v);
        RearrangedMatches(p.args, Parts(p, v).value, cs, v.parts);
        RearrangedBinds(p.args, Parts(p, v).value, cs, v.parts, b);
      } else {
        assert Parts(p, v).value == v.parts;
        KnownAgrees(p.args, v.parts, b);
      }
    }
  }

  // ----- specialization -----

  lemma SpecializeRowAgrees(row: Row, cols: seq<Place>, col: nat, root: Value, vals: seq<Value>, b: (nat, Value))
    requires RowOk(row, cols) && ColsAt(cols, root, vals) && col < |cols| && Head(vals[col]).Some?
    requires CellShaped(row.cells[col])
    ensures var v := vals[col];
            var r := SpecializeRow(row, col, Head(v).value, cols[col], if v.EnumV? then v.shape
                                   else UnitShape, |SubValues(v)|);
            var vals' := Splice(vals, col, SubValues(v));
            && (r.None? ==> !CellsMatch(row.cells, vals))
            && (r.Some? ==>
                  && r.value.branch == row.branch
                  && (CellsMatch(row.cells, vals) <==> CellsMatch(r.value.cells, vals'))
                  && (RowBinds(row, root, vals, b) <==> RowBinds(r.value, root, vals', b))
                  && NoMoreUses(r.value, row))
  {
    var v := vals[col];
    var cell := row.cells[col];
    assert CellOk(cell, cols[col].ty);
    if ConstructorOf(cell) == Head(v) {
      CtorCellAgrees(cell.value, cols[col].ty, v, b);
      SpecializeUses(row, col, Head(v).value, cols[col], if v.EnumV? then v.shape else UnitShape, |SubValues(v)|);
      var sub := SubCells(cell.value, if v.EnumV? then v.shape else UnitShape);
      SpliceMatch(row.cells, vals, col, sub, SubValues(v));
      SpliceBind(row.cells, vals, col, sub, SubValues(v), b);
    } else if IsWild(cell) {
      SpecializeUses(row, col, Head(v).value, cols[col], if v.EnumV? then v.shape else UnitShape, |SubValues(v)|);
      var sub := Wildcards(|SubValues(v)|);
      WildcardsAgree(SubValues(v), b);
      SpliceMatch(row.cells, vals, col, sub, SubValues(v));
      SpliceBind(row.cells, vals, col, sub, SubValues(v), b);
      CellBindingsRecord(cell, cols[col], root, v, b);
      RecordedAppend(row.bindings, CellBindings(cell, cols[col]), root, b);
    } else {
      assert !CellMatches(cell, v);
    }
  }

  /**
   * Two answers to "which row is selected" that agree on the branch and on every binding;
   * the second row binds no local more often than the first.
   */
  ghost predicate Agree(a: Option<Row>, va: seq<Value>, c: Option<Row>, vc: seq<Value>, root: Value) {
    && (a.None? <==> c.None?)
    && (a.Some? ==>
          && a.value.branch == c.value.branch && NoMoreUses(c.value, a.value)
          && forall b :: RowBinds(a.value, root, va, b) <==> RowBinds(c.value, root, vc, b))
  }

  lemma {:induction false} SpecializeRowsAgree(rows: seq<Row>, cols: seq<Place>, col: nat, root: Value,
                                               vals: seq<Value>)
    requires RowsOk(rows, cols) && ColsAt(cols, root, vals) && col < |cols| && Head(vals[col]).Some?
    requires forall r :: 0 <= r < |rows| ==> col < |rows[r].cells| && CellShaped(rows[r].cells[col])
    ensures var v := vals[col];
            var rs := SpecializeRows(rows, col, Head(v).value, cols[col], if v.EnumV? then v.shape
                                     else UnitShape, |SubValues(v)|);
            var vals' := Splice(vals, col, SubValues(v));
            Agree(First(rows, vals), vals, First(rs, vals'), vals', root)
  {
    if rows != [] {
      SpecializeRowsAgree(rows[1..], cols, col, root, vals);
      forall b {
        SpecializeRowAgrees(rows[0], cols, col, root, vals, b);
      }
      SpecializeRowAgrees(rows[0], cols, col, root, vals, (0, vals[col]));
    }
  }

  /** Reading a part of an enum value: the downcast, then the part. */
  lemma ProjectPart(root: Value, projs: seq<Proj>, v: Value, q: Proj)
    requires Project(root, projs) == Some(v) && v.EnumV?
    ensures Project(root, projs + [Downcast(v.variant), q]) == ProjectOne(VariantV(v.shape, v.parts), q)
  {
    ProjectSnoc(root, projs, Downcast(v.variant));
    ProjectSnoc(root, projs + [Downcast(v.variant)], q);
    assert projs + [Downcast(v.variant), q] == projs + [Downcast(v.variant)] + [q];
  }

  ghost predicate AtVariant(base: Place, v: Value, i: nat) {
    && base.ty.EnumT? && TyOk(base.ty) && HasType(v, base.ty) && i < |v.parts|
    && ShapeOk(v.shape, |v.parts|)
  }

  lemma NamedPartProj(base: Place, v: Value, i: nat)
    requires AtVariant(base, v, i) && v.shape.StructShape?
    ensures i < |VariantPlaces(base, v.variant)|
    ensures VariantPlaces(base, v.variant)[i].projs == base.projs + [Downcast(v.variant), NamedField(v.shape.names[i])]
    ensures ProjectOne(VariantV(v.shape, v.parts), NamedField(v.shape.names[i])) == Some(v.parts[i])
  {
    IndexOfDistinct(v.shape.names, i);
  }

  lemma ProjectVariantPart(root: Value, base: Place, k: nat, i: nat, v: Value)
    requires base.ty.EnumT? && TyOk(base.ty)
    requires Project(root, base.projs) == Some(v) && HasType(v, base.ty) && v.variant == k
    requires i < |v.parts|
    ensures i < |VariantPlaces(base, k)| && Project(root, VariantPlaces(base, k)[i].projs) == Some(v.parts[i])
  {
    assert ShapeOk(v.shape, |v.parts|);
    if v.shape.StructShape? {
      NamedPartProj(base, v, i);
      ProjectPart(root, base.projs, v, NamedField(v.shape.names[i]));
    } else {
      ProjectPart(root, base.projs, v, TupleField(i));
    }
  }

  lemma SpliceColsAt(cols: seq<Place>, root: Value, vals: seq<Value>, col: nat, places: seq<Place>, subs: seq<Value>)
    requires ColsAt(cols, root, vals) && col < |cols| && ColsAt(places, root, subs)
    ensures ColsAt(Splice(cols, col, places), root, Splice(vals, col, subs))
  {
  }

  /** The columns made by specializing on the constructor at hand are readable and well typed. */
  lemma SpecializeColsAt(m: Matrix, col: nat, root: Value, vals: seq<Value>)
    requires MatrixOk(m) && ColsAt(m.cols, root, vals) && col < |m.cols| && Head(vals[col]).Some?
    requires CtorFits(Head(vals[col]).value, m.cols[col].ty)
    ensures |CtorPlaces(m.cols[col], Head(vals[col]).value)| == |SubValues(vals[col])|
    ensures ColsAt(Specialize(m, col, Head(vals[col]).value).cols, root, Splice(vals, col, SubValues(vals[col])))
  {
    var v := vals[col];
    var place := m.cols[col];
    var places := CtorPlaces(place, Head(v).value);
    ColumnReady(m, col);
    assert TyOk(place.ty);
    if v.EnumV? {
      VariantPlacesTys(place, v.variant);
      forall i | 0 <= i < |places|
        ensures Project(root, places[i].projs) == Some(v.parts[i]) && HasType(v.parts[i], places[i].ty)
      {
        ProjectVariantPart(root, place, v.variant, i, v);
      }
    }
    SpliceColsAt(m.cols, root, vals, col, places, SubValues(v));
  }

  lemma SpecializeAgrees(m: Matrix, col: nat, root: Value, vals: seq<Value>)
    requires MatrixOk(m) && ColsAt(m.cols, root, vals) && col < |m.cols| && Head(vals[col]).Some?
    requires CtorFits(Head(vals[col]).value, m.cols[col].ty)
    ensures var vals' := Splice(vals, col, SubValues(vals[col]));
            Agree(First(m.rows, vals), vals, First(Specialize(m, col, Head(vals[col]).value).rows, vals'), vals', root)
  {
    ColumnReady(m, col);
    SpecializeColsAt(m, col, root, vals);
    SpecializeRowsAgree(m.rows, m.cols, col, root, vals);
  }

  // ----- defaulting -----

  lemma DefaultRowAgrees(row: Row, cols: seq<Place>, col: nat, root: Value, vals: seq<Value>, b: (nat, Value))
    requires RowOk(row, cols) && ColsAt(cols, root, vals) && col < |cols|
    requires !Irrefutable(cols[col].ty) && ConstructorOf(row.cells[col]).Some? ==>
             ConstructorOf(row.cells[col]) != Head(vals[col])
    requires !Irrefutable(cols[col].ty)
    ensures var r := DefaultRow(row, col, cols[col]);
            var vals' := Splice(vals, col, []);
            && (r.None? ==> !CellsMatch(row.cells, vals))
            && (r.Some? ==>
                  && r.value.branch == row.branch
                  && (CellsMatch(row.cells, vals) <==> CellsMatch(r.value.cells, vals'))
                  && (RowBinds(row, root, vals, b) <==> RowBinds(r.value, root, vals', b))
                  && NoMoreUses(r.value, row))
  {
    var cell := row.cells[col];
    assert CellOk(cell, cols[col].ty);
    DefaultUses(row, col, cols[col]);
    if IsWild(cell) {
      SpliceMatch(row.cells, vals, col, [], []);
      SpliceBind(row.cells, vals, col, [], [], b);
      CellBindingsRecord(cell, cols[col], root, vals[col], b);
      RecordedAppend(row.bindings, CellBindings(cell, cols[col]), root, b);
    } else {
      assert !CellMatches(cell, vals[col]);
    }
  }

  lemma {:induction false} DefaultRowsAgree(rows: seq<Row>, cols: seq<Place>, col: nat, root: Value, vals: seq<Value>)
    requires RowsOk(rows, cols) && ColsAt(cols, root, vals) && col < |cols| && !Irrefutable(cols[col].ty)
    requires forall r :: 0 <= r < |rows| ==> col < |rows[r].cells|
    requires forall r :: 0 <= r < |rows| && ConstructorOf(rows[r].cells[col]).Some? ==>
               ConstructorOf(rows[r].cells[col]) != Head(vals[col])
    ensures var vals' := Splice(vals, col, []);
            Agree(First(rows, vals), vals, First(DefaultRows(rows, col, cols[col]), vals'), vals', root)
  {
    if rows != [] {
      DefaultRowsAgree(rows[1..], cols, col, root, vals);
      forall b {
        DefaultRowAgrees(rows[0], cols, col, root, vals, b);
      }
      DefaultRowAgrees(rows[0], cols, col, root, vals, (0, vals[col]));
    }
  }

  // ----- expanding a tuple column -----

  /** The binding that expansion drops from the selected row, if it has one here. */
  ghost predicate DroppedHere(row: Option<Row>, col: nat, vals: seq<Value>, b: (nat, Value)) {
    && row.Some? && col < |row.value.cells| && col < |vals|
    && row.value.cells[col] == Some(Bind(b.0)) && vals[col] == b.1
  }

  /** The sub-patterns look at the fields in the order of the columns. */
  lemma FieldParts(p: Pattern, t: Ty, v: Value)
    requires (p.TuplePat? || p.StructPat?) && PatOk(p, t, InOrder) && HasType(v, t)
    ensures Parts(p, v) == Some(SubValues(v)) && |p.pats| == |SubValues(v)|
  {
    if p.StructPat? {
      forall i | 0 <= i < |p.pats| ensures IndexOf(v.names, p.names[i]) == i {
        IndexOfDistinct(p.names, i);
      }
      assert Parts(p, v).value == v.fields;
    }
  }

  /** What expansion puts in the place of a cell. */
  function FieldCells(c: Cell, arity: nat): seq<Cell> {
    if Destructures(c) then Known(c.value.pats) else Wildcards(arity)
  }

  lemma CellExpands(c: Cell, t: Ty, v: Value, b: (nat, Value))
    requires CellOk(c, t, InOrder) && HasType(v, t) && Irrefutable(t)
    ensures |FieldCells(c, |FieldTys(t)|)| == |SubValues(v)|
    ensures CellMatches(c, v) <==> CellsMatch(FieldCells(c, |FieldTys(t)|), SubValues(v))
    ensures CellBinds(c, v, b) <==>
            CellsBind(FieldCells(c, |FieldTys(t)|), SubValues(v), b) || (c == Some(Bind(b.0)) && v == b.1)
  {
    if Destructures(c) {
      FieldParts(c.value, t, v);
      KnownAgrees(c.value.pats, SubValues(v), b);
    } else {
      WildcardsAgree(SubValues(v), b);
      if c.Some? && c.value.Bind? {
        assert Binds(c.value, v) == [(c.value.local, v)];
        assert b in Binds(c.value, v) <==> b == (c.value.local, v);
      }
    }
  }

  lemma ExpandRowAgrees(row: Row, cols: seq<Place>, col: nat, root: Value, vals: seq<Value>, b: (nat, Value))
    requires RowOk(row, cols, InOrder) && ColsAt(cols, root, vals) && col < |cols| && Irrefutable(cols[col].ty)
    ensures var r := ExpandRow(row, col, |FieldTys(cols[col].ty)|);
            var vals' := Splice(vals, col, SubValues(vals[col]));
            && (CellsMatch(row.cells, vals) <==> CellsMatch(r.cells, vals'))
            && (RowBinds(row, root, vals, b) <==>
                  RowBinds(r, root, vals', b) || DroppedHere(Some(row), col, vals, b))
  {
    var v := vals[col];
    var mid := FieldCells(row.cells[col], |FieldTys(cols[col].ty)|);
    assert CellOk(row.cells[col], cols[col].ty, InOrder);
    CellExpands(row.cells[col], cols[col].ty, v, b);
    SpliceMatch(row.cells, vals, col, mid, SubValues(v));
    SpliceBind(row.cells, vals, col, mid, SubValues(v), b);
  }

  ghost predicate AgreeBut(a: Option<Row>, va: seq<Value>, c: Option<Row>, vc: seq<Value>, root: Value, col: nat) {
    && (a.None? <==> c.None?)
    && (a.Some? ==>
          && a.value.branch == c.value.branch
          && forall b :: RowBinds(a.value, root, va, b) <==>
                         RowBinds(c.value, root, vc, b) || DroppedHere(a, col, va, b))
  }

  lemma {:induction false} ExpandRowsAgree(rows: seq<Row>, cols: seq<Place>, col: nat, root: Value, vals: seq<Value>)
    requires RowsOk(rows, cols, InOrder) && ColsAt(cols, root, vals) && col < |cols| && Irrefutable(cols[col].ty)
    requires forall r :: 0 <= r < |rows| ==> col < |rows[r].cells|
    ensures var vals' := Splice(vals, col, SubValues(vals[col]));
            && AgreeBut(First(rows, vals), vals, First(ExpandRows(rows, col, |FieldTys(cols[col].ty)|), vals'), vals',
                        root, col)
            && (First(rows, vals).Some? ==>
                  && col < |First(rows, vals).value.cells|
                  && First(ExpandRows(rows, col, |FieldTys(cols[col].ty)|), vals')
                       == Some(ExpandRow(First(rows, vals).value, col, |FieldTys(cols[col].ty)|)))
  {
    if rows != [] {
      ExpandRowsAgree(rows[1..], cols, col, root, vals);
      assert ExpandRows(rows, col, |FieldTys(cols[col].ty)|)[1..] ==
             ExpandRows(rows[1..], col, |FieldTys(cols[col].ty)|);
      forall b {
        ExpandRowAgrees(rows[0], cols, col, root, vals, b);
      }
      ExpandRowAgrees(rows[0], cols, col, root, vals, (0, vals[col]));
    }
  }

  lemma ExpandColsAt(m: Matrix, col: nat, root: Value, vals: seq<Value>)
    requires MatrixOk(m) && ColsAt(m.cols, root, vals) && col < |m.cols| && Irrefutable(m.cols[col].ty)
    ensures ColsAt(Expand(m, col).cols, root, Splice(vals, col, SubValues(vals[col])))
  {
    var v := vals[col];
    var places := FieldPlaces(m.cols[col]);
    assert TyOk(m.cols[col].ty);
    forall i | 0 <= i < |places|
      ensures Project(root, places[i].projs) == Some(SubValues(v)[i]) && HasType(SubValues(v)[i], places[i].ty)
    {
      ProjectSnoc(root, m.cols[col].projs, FieldProj(m.cols[col].ty, i));
      if v.StructV? {
        IndexOfDistinct(v.names, i);
      }
    }
    SpliceColsAt(m.cols, root, vals, col, places, SubValues(v));
  }
}
