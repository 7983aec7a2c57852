/** The places of a decision tree have the types that their projections lead to. */
module TreeTypes {
  import opened Core
  import opened Patterns
  import opened DecisionTree
  import opened MatchCompiler
  import opened MatchCompilerTheorems

  // ----- the type a projection leads to -----

  /** What a place stands for: an object of a type, or the parts of a variant after a downcast. */
  datatype View = Whole(ty: Ty) | PartsOf(variant: Variant)

  function ViewOne(view: View, p: Proj): Option<View> {
    match (view, p)
    case (Whole(TupleT(ts)), TupleField(i)) => if i < |ts| then Some(Whole(ts[i])) else None
    case (Whole(StructT(names, ts)), NamedField(name)) =>
      if |names| == |ts| && name in names then Some(Whole(ts[IndexOf(names, name)])) else None
    case (Whole(EnumT(vs)), Downcast(k)) => if k < |vs| then Some(PartsOf(vs[k])) else None
    case (PartsOf(v), TupleField(i)) =>
      if v.shape == TupleShape && i < |v.tys| then Some(Whole(v.tys[i])) else None
    case (PartsOf(v), NamedField(name)) =>
      if v.shape.StructShape? && |v.shape.names| == |v.tys| && name in v.shape.names then
        Some(Whole(v.tys[IndexOf(v.shape.names, name)]))
      else None
    case _ => None
  }

  function ViewAt(t: Ty, projs: seq<Proj>): Option<View> {
    if projs == [] then Some(Whole(t))
    else
      var view :- ViewAt(t, projs[..|projs| - 1]);
      ViewOne(view, projs[|projs| - 1])
  }

  lemma ViewSnoc(t: Ty, projs: seq<Proj>, p: Proj)
    ensures ViewAt(t, projs + [p]) ==
            (if ViewAt(t, projs).Some? then ViewOne(ViewAt(t, projs).value, p) else None)
  {
    assert (projs + [p])[..|projs + [p]| - 1] == projs;
  }

  ghost predicate HasView(v: Value, view: View) {
    match view
    case Whole(t) => HasType(v, t)
    case PartsOf(variant) =>
      && v.VariantV? && v.shape == variant.shape && |v.parts| == |variant.tys|
      && forall i :: 0 <= i < |v.parts| ==> HasType(v.parts[i], variant.tys[i])
  }

  lemma ViewOneSound(v: Value, view: View, p: Proj)
    requires HasView(v, view) && ViewOne(view, p).Some? && ProjectOne(v, p).Some?
    ensures HasView(ProjectOne(v, p).value, ViewOne(view, p).value)
  {
  }

  /** The part of a well-typed value that a path leads to has the type that the path leads to. */
  lemma {:induction false} ViewSound(v: Value, t: Ty, projs: seq<Proj>)
    requires HasType(v, t) && ViewAt(t, projs).Some? && Project(v, projs).Some?
    ensures HasView(Project(v, projs).value, ViewAt(t, projs).value)
    decreases |projs|
  {
    if projs != [] {
      var n := |projs| - 1;
      ViewSound(v, t, projs[..n]);
      ViewOneSound(Project(v, projs[..n]).value, ViewAt(t, projs[..n]).value, projs[n]);
    }
  }

  // ----- places -----

  /** The place starts at a local, and its projections lead from the type of the local to its own. */
  ghost predicate PlaceTyped(p: Place, locals: seq<Ty>) {
    p.local < |locals| && ViewAt(locals[p.local], p.projs) == Some(Whole(p.ty))
  }

  ghost predicate AllPlacesTyped(ps: seq<Place>, locals: seq<Ty>) {
    forall i :: 0 <= i < |ps| ==> PlaceTyped(ps[i], locals)
  }

  lemma StepTyped(base: Place, p: Proj, ty: Ty, locals: seq<Ty>)
    requires PlaceTyped(base, locals) && ViewOne(Whole(base.ty), p) == Some(Whole(ty))
    ensures PlaceTyped(SubPlace(base, [p], ty), locals)
  {
    ViewSnoc(locals[base.local], base.projs, p);
  }

  lemma StepsTyped(base: Place, p: Proj, view: View, q: Proj, ty: Ty, locals: seq<Ty>)
    requires PlaceTyped(base, locals) && ViewOne(Whole(base.ty), p) == Some(view) && ViewOne(view, q) == Some(Whole(ty))
    ensures PlaceTyped(SubPlace(base, [p, q], ty), locals)
  {
    ViewSnoc(locals[base.local], base.projs, p);
    ViewSnoc(locals[base.local], base.projs + [p], q);
    assert base.projs + [p, q] == (base.projs + [p]) + [q];
  }

  lemma FieldPlacesTyped(base: Place, locals: seq<Ty>)
    requires PlaceTyped(base, locals) && TyOk(base.ty) && Irrefutable(base.ty)
    ensures AllPlacesTyped(FieldPlaces(base), locals)
  {
    var tys := FieldTys(base.ty);
    forall i | 0 <= i < |tys| ensures PlaceTyped(FieldPlaces(base)[i], locals) {
      if base.ty.StructT? {
        assert IndexOf(base.ty.names, base.ty.names[i]) == i;
      }
      StepTyped(base, FieldProj(base.ty, i), tys[i], locals);
    }
  }

  lemma CtorPlacesTyped(base: Place, c: Constructor, locals: seq<Ty>)
    requires PlaceTyped(base, locals) && TyOk(base.ty) && CtorFits(c, base.ty)
    ensures c.VariantC? ==> ShapeOk(base.ty.variants[c.idx].shape, |base.ty.variants[c.idx].tys|)
    ensures AllPlacesTyped(CtorPlaces(base, c), locals)
  {
    if c.VariantC? {
      var v := base.ty.variants[c.idx];
      var ps := CtorPlaces(base, c);
      match v.shape
      case UnitShape =>
      case TupleShape =>
        forall i | 0 <= i < |ps| ensures PlaceTyped(ps[i], locals) {
          StepsTyped(base, Downcast(c.idx), PartsOf(v), TupleField(i), v.tys[i], locals);
        }
      case StructShape(names) =>
        forall i | 0 <= i < |ps| ensures PlaceTyped(ps[i], locals) {
          StepsTyped(base, Downcast(c.idx), PartsOf(v), NamedField(names[i]), v.tys[IndexOf(names, names[i])], locals);
        }
    }
  }

  lemma SpliceTyped(ps: seq<Place>, col: nat, mid: seq<Place>, locals: seq<Ty>)
    requires col < |ps| && AllPlacesTyped(ps, locals) && AllPlacesTyped(mid, locals)
    ensures AllPlacesTyped(Splice(ps, col, mid), locals)
  {
  }

  // ----- bindings and trees -----

  /** A binding stores a well-typed place in a local of the function, of the place's own type. */
  ghost predicate BindingTyped(b: Binding, own: seq<Ty>, locals: seq<Ty>) {
    b.local < |own| && own[b.local] == b.place.ty && PlaceTyped(b.place, locals)
  }

  ghost predicate BindingsTyped(bs: seq<Binding>, own: seq<Ty>, locals: seq<Ty>) {
    forall i :: 0 <= i < |bs| ==> BindingTyped(bs[i], own, locals)
  }

  ghost predicate TreeTyped(t: Tree, own: seq<Ty>, locals: seq<Ty>)
    decreases t
  {
    match t
    case Fail => true
    case Leaf(_, bs) => BindingsTyped(bs, own, locals)
    case Switch(place, cases, default) =>
      && PlaceTyped(place, locals)
      && (forall i :: 0 <= i < |cases| ==> TreeTyped(cases[i].tree, own, locals))
      && (default.Some? ==> TreeTyped(default.value, own, locals))
  }

  ghost predicate RowBindingsTyped(rows: seq<Row>, own: seq<Ty>, locals: seq<Ty>) {
    forall r {:trigger rows[r]} :: 0 <= r < |rows| ==> BindingsTyped(rows[r].bindings, own, locals)
  }

  lemma CellBindingsTyped(c: Cell, place: Place, own: seq<Ty>, locals: seq<Ty>)
    requires CellOk(c, place.ty, BindersIn(own)) && PlaceTyped(place, locals)
    ensures BindingsTyped(CellBindings(c, place), own, locals)
  {
  }

  lemma {:induction false} LeafTyped(cells: seq<Cell>, cols: seq<Place>, bs: seq<Binding>, own: seq<Ty>,
                                     locals: seq<Ty>)
    requires |cells| == |cols| && AllPlacesTyped(cols, locals) && BindingsTyped(bs, own, locals)
    requires forall i :: 0 <= i < |cells| ==> CellOk(cells[i], cols[i].ty, BindersIn(own))
    ensures BindingsTyped(LeafBindings(cells, cols, bs), own, locals)
  {
    if cells != [] {
      CellBindingsTyped(cells[0], cols[0], own, locals);
      LeafTyped(cells[1..], cols[1..], bs + CellBindings(cells[0], cols[0]), own, locals);
    }
  }

  lemma {:induction false} SpecializeBindingsTyped(rows: seq<Row>, col: nat, c: Constructor, place: Place, decl: Shape,
                                                   arity: nat, own: seq<Ty>, locals: seq<Ty>)
    requires forall r :: 0 <= r < |rows| ==> col < |rows[r].cells| && CellShaped(rows[r].cells[col])
    requires forall r :: 0 <= r < |rows| ==> CellOk(rows[r].cells[col], place.ty, BindersIn(own))
    requires RowBindingsTyped(rows, own, locals) && PlaceTyped(place, locals)
    ensures RowBindingsTyped(SpecializeRows(rows, col, c, place, decl, arity), own, locals)
  {
    if rows != [] {
      CellBindingsTyped(rows[0].cells[col], place, own, locals);
      assert BindingsTyped(rows[0].bindings, own, locals);
      SpecializeBindingsTyped(rows[1..], col, c, place, decl, arity, own, locals);
    }
  }

  lemma {:induction false} DefaultBindingsTyped(rows: seq<Row>, col: nat, place: Place, own: seq<Ty>, locals: seq<Ty>)
    requires forall r :: 0 <= r < |rows| ==> col < |rows[r].cells|
    requires forall r :: 0 <= r < |rows| ==> CellOk(rows[r].cells[col], place.ty, BindersIn(own))
    requires RowBindingsTyped(rows, own, locals) && PlaceTyped(place, locals)
    ensures RowBindingsTyped(DefaultRows(rows, col, place), own, locals)
  {
    if rows != [] {
      CellBindingsTyped(rows[0].cells[col], place, own, locals);
      assert BindingsTyped(rows[0].bindings, own, locals);
      DefaultBindingsTyped(rows[1..], col, place, own, locals);
    }
  }

  /** The matrix is about well-typed places, and its binders are locals of the types they stand at. */
  ghost predicate MatrixTyped(m: Matrix, own: seq<Ty>, locals: seq<Ty>) {
    && MatrixOk(m) && RowsOk(m.rows, m.cols, BindersIn(own))
    && AllPlacesTyped(m.cols, locals) && RowBindingsTyped(m.rows, own, locals)
  }

  lemma ColumnTyped(m: Matrix, col: nat, own: seq<Ty>, locals: seq<Ty>)
    requires MatrixTyped(m, own, locals) && col < |m.cols|
    ensures TyOk(m.cols[col].ty) && PlaceTyped(m.cols[col], locals)
    ensures forall r :: 0 <= r < |m.rows| ==> col < |m.rows[r].cells|
    ensures forall r :: 0 <= r < |m.rows| ==> CellOk(m.rows[r].cells[col], m.cols[col].ty, BindersIn(own))
  {
    forall r | 0 <= r < |m.rows|
      ensures col < |m.rows[r].cells| && CellOk(m.rows[r].cells[col], m.cols[col].ty, BindersIn(own))
    {
      assert RowOk(m.rows[r], m.cols, BindersIn(own));
    }
  }

  lemma ExpandTyped(m: Matrix, col: nat, own: seq<Ty>, locals: seq<Ty>)
    requires MatrixTyped(m, own, locals) && col < |m.cols| && Irrefutable(m.cols[col].ty)
    ensures MatrixTyped(Expand(m, col), own, locals)
  {
    ColumnTyped(m, col, own, locals);
    FieldPlacesTyped(m.cols[col], locals);
    SpliceTyped(m.cols, col, FieldPlaces(m.cols[col]), locals);
    ExpandOk(m, col);
    ExpandMeets(m, col, BindersIn(own));
  }

  lemma DefaultTyped(m: Matrix, col: nat, own: seq<Ty>, locals: seq<Ty>)
    requires MatrixTyped(m, own, locals) && col < |m.cols|
    ensures MatrixTyped(Default(m, col), own, locals)
  {
    ColumnTyped(m, col, own, locals);
    SpliceTyped(m.cols, col, [], locals);
    DefaultBindingsTyped(m.rows, col, m.cols[col], own, locals);
    DefaultOk(m, col);
    DefaultMeets(m, col, BindersIn(own));
  }

  lemma SpecializeTyped(m: Matrix, col: nat, c: Constructor, own: seq<Ty>, locals: seq<Ty>)
    requires MatrixTyped(m, own, locals) && ColumnFits(m, col, c)
    ensures MatrixTyped(Specialize(m, col, c), own, locals)
  {
    var place := m.cols[col];
    ColumnTyped(m, col, own, locals);
    ColumnReady(m, col);
    CtorPlacesTyped(place, c, locals);
    SpliceTyped(m.cols, col, CtorPlaces(place, c), locals);
    SpecializeBindingsTyped(m.rows, col, c, place, DeclShape(place.ty, c), |CtorPlaces(place, c)|, own, locals);
    SpecializeOk(m, col, c);
    SpecializeMeets(m, col, c, BindersIn(own));
  }

  /** Every place of a compiled tree is well typed, and every binding has the type of its local. */
  lemma {:induction false} CompileTyped(m: Matrix, own: seq<Ty>, locals: seq<Ty>)
    requires MatrixTyped(m, own, locals)
    ensures TreeTyped(Compile(m), own, locals)
    decreases RowsSize(m.rows), 2, 0
  {
    if m.rows == [] {
    } else if AllWild(m.rows[0].cells) {
      assert RowOk(m.rows[0], m.cols, BindersIn(own));
      LeafTyped(m.rows[0].cells, m.cols, m.rows[0].bindings, own, locals);
    } else {
      var col := FirstRefutable(m.rows[0].cells);
      PicksColumn(m, col);
      if Irrefutable(m.cols[col].ty) {
        ExpandShrinks(m, col);
        ExpandTyped(m, col, own, locals);
        CompileTyped(Expand(m, col), own, locals);
        CompileTuple(m, col);
      } else {
        SwitchTyped(m, own, locals, col);
      }
    }
  }

  lemma {:induction false} SwitchTyped(m: Matrix, own: seq<Ty>, locals: seq<Ty>, col: nat)
    requires MatrixTyped(m, own, locals) && Picks(m, col) && col < |m.cols| && !Irrefutable(m.cols[col].ty)
    ensures TreeTyped(Compile(m), own, locals)
    decreases RowsSize(m.rows), 1
  {
    PicksColumn(m, col);
    ColumnTyped(m, col, own, locals);
    CasesTyped(m, own, locals, col, Signature(m.rows, col));
    DefaultShrinks(m, col);
    DefaultTyped(m, col, own, locals);
    CompileTyped(Default(m, col), own, locals);
    CompileSwitch(m, col);
    CaseCtors(m, col, Signature(m.rows, col));
  }

  lemma {:induction false} CasesTyped(m: Matrix, own: seq<Ty>, locals: seq<Ty>, col: nat, sig: seq<Constructor>)
    requires MatrixTyped(m, own, locals) && col < |m.cols| && SigFits(m, col, sig)
    ensures forall i :: 0 <= i < |CompileCases(m, col, sig)| ==>
              TreeTyped(CompileCases(m, col, sig)[i].tree, own, locals)
    decreases RowsSize(m.rows), 0, |sig|
  {
    if sig != [] {
      FirstCase(m, col, sig);
      CasesTyped(m, own, locals, col, sig[1..]);
      SpecializeTyped(m, col, sig[0], own, locals);
      CompileTyped(Specialize(m, col, sig[0]), own, locals);
    }
  }
}
