/**
 * Match compilation in the style of Maranget: a matrix of patterns becomes a
 * decision tree by repeated specialization, defaulting and tuple expansion.
 */
module DecisionTree {
  import opened Core
  import opened Patterns

  // The derived order (Variant < IntLit < BoolLit, then by payload) lays out the cases.
  datatype Constructor = VariantC(idx: nat) | IntC(value: int) | BoolC(flag: bool)

  datatype Binding = Binding(local: nat, place: Place)

  datatype Row = Row(cells: seq<Cell>, branch: nat, bindings: seq<Binding>)

  datatype Matrix = Matrix(cols: seq<Place>, rows: seq<Row>)

  datatype Case = Case(ctor: Constructor, tree: Tree)

  datatype Tree =
    | Leaf(branch: nat, bindings: seq<Binding>)
    | Switch(place: Place, cases: seq<Case>, default: Option<Tree>)
    | Fail

  // ----- constructors of a column -----

  function ConstructorOf(c: Cell): Option<Constructor> {
    match c
    case Some(CtorPat(k, _, _)) => Some(VariantC(k))
    case Some(IntPat(n)) => Some(IntC(n))
    case _ => None
  }

  predicate Before(a: Constructor, b: Constructor) {
    match (a, b)
    case (VariantC(i), VariantC(j)) => i < j
    case (IntC(m), IntC(n)) => m < n
    case (BoolC(p), BoolC(q)) => !p && q
    case (VariantC(_), _) => true
    case (IntC(_), BoolC(_)) => true
    case _ => false
  }

  /** Insertion into an ordered set kept as its sorted enumeration. */
  function InsertCtor(s: seq<Constructor>, c: Constructor): (r: seq<Constructor>)
    ensures forall d :: d in r <==> d == c || d in s
  {
    if s == [] then [c]
    else if s[0] == c then s
    else if Before(c, s[0]) then [c] + s
    else [s[0]] + InsertCtor(s[1..], c)
  }

  function Signature(rows: seq<Row>, col: nat): (sig: seq<Constructor>)
    requires forall r :: 0 <= r < |rows| ==> col < |rows[r].cells|
    ensures forall c :: c in sig <==> exists r :: 0 <= r < |rows| && ConstructorOf(rows[r].cells[col]) == Some(c)
  {
    if rows == [] then []
    else
      var sig := Signature(rows[..|rows| - 1], col);
      match ConstructorOf(rows[|rows| - 1].cells[col])
      case None => sig
      case Some(c) => InsertCtor(sig, c)
  }

  /** Strictly increasing, so each constructor is listed once. */
  ghost predicate Increasing(s: seq<Constructor>) {
    forall i, j :: 0 <= i < j < |s| ==> Before(s[i], s[j])
  }

  // ----- the steps on a matrix -----

  function Splice<T>(s: seq<T>, col: nat, mid: seq<T>): seq<T>
    requires col < |s|
  {
    s[..col] + mid + s[col + 1..]
  }

  function SubPlace(base: Place, projs: seq<Proj>, ty: Ty): Place {
    Place(base.local, base.projs + projs, ty)
  }

  /** The places of the parts of variant k below an enum-typed place. */
  function VariantPlaces(base: Place, k: nat): (ps: seq<Place>)
    requires base.ty.EnumT? && k < |base.ty.variants|
    requires base.ty.variants[k].shape.StructShape? ==> |base.ty.variants[k].shape.names| == |base.ty.variants[k].tys|
  {
    var v := base.ty.variants[k];
    match v.shape
    case UnitShape => []
    case TupleShape =>
      seq(|v.tys|, i requires 0 <= i < |v.tys| => SubPlace(base, [Downcast(k), TupleField(i)], v.tys[i]))
    case StructShape(names) =>
      seq(|names|, i requires 0 <= i < |names| =>
        SubPlace(base, [Downcast(k), NamedField(names[i])], v.tys[IndexOf(names, names[i])]))
  }

  /** Tuples and structs: a single way to take the value apart. */
  predicate Irrefutable(t: Ty) {
    t.TupleT? || (t.StructT? && |t.names| == |t.fields|)
  }

  function FieldTys(t: Ty): seq<Ty>
    requires Irrefutable(t)
  {
    if t.TupleT? then t.elems else t.fields
  }

  function FieldProj(t: Ty, i: nat): Proj
    requires Irrefutable(t) && i < |FieldTys(t)|
  {
    if t.TupleT? then TupleField(i) else NamedField(t.names[i])
  }

  function FieldPlaces(base: Place): seq<Place>
    requires Irrefutable(base.ty)
  {
    var tys := FieldTys(base.ty);
    seq(|tys|, i requires 0 <= i < |tys| => SubPlace(base, [FieldProj(base.ty, i)], tys[i]))
  }

  function CtorPlaces(base: Place, c: Constructor): seq<Place>
    requires c.VariantC? ==> base.ty.EnumT? && c.idx < |base.ty.variants|
    requires c.VariantC? && base.ty.variants[c.idx].shape.StructShape? ==>
               |base.ty.variants[c.idx].shape.names| == |base.ty.variants[c.idx].tys|
  {
    if c.VariantC? then VariantPlaces(base, c.idx) else []
  }

  function Known(ps: seq<Pattern>): (cs: seq<Cell>)
    ensures |cs| == |ps| && forall i :: 0 <= i < |ps| ==> cs[i] == Some(ps[i])
  {
    seq(|ps|, i requires 0 <= i < |ps| => Some(ps[i]))
  }

  function Wildcards(n: nat): (cs: seq<Cell>)
    ensures |cs| == n && forall i :: 0 <= i < n ==> cs[i] == None
  {
    seq(n, _ => None)
  }

  /** The cells a constructor pattern contributes, in the declared order of the parts. */
  function SubCells(p: Pattern, decl: Shape): seq<Cell>
    requires p.CtorPat? ==> (p.shape.StructShape? ==> |p.shape.names| == |p.args|)
  {
    match p
    case CtorPat(_, shape, args) =>
      if shape.StructShape? && decl.StructShape? then
        seq(|decl.names|, i requires 0 <= i < |decl.names| => FindPat(shape.names, args, decl.names[i]))
      else Known(args)
    case _ => []
  }

  /** The binding a whole-column wildcard records when its column is consumed. */
  function CellBindings(c: Cell, place: Place): seq<Binding> {
    match c
    case Some(Bind(x)) => [Binding(x, place)]
    case _ => []
  }

  ghost predicate CellShaped(c: Cell) {
    c.Some? && c.value.CtorPat? && c.value.shape.StructShape? ==> |c.value.shape.names| == |c.value.args|
  }

  function SpecializeRow(row: Row, col: nat, c: Constructor, place: Place, decl: Shape, arity: nat): Option<Row>
    requires col < |row.cells| && CellShaped(row.cells[col])
  {
    var cell := row.cells[col];
    if ConstructorOf(cell) == Some(c) then
      Some(Row(Splice(row.cells, col, SubCells(cell.value, decl)), row.branch, row.bindings))
    else if IsWild(cell) then
      Some(Row(Splice(row.cells, col, Wildcards(arity)), row.branch, row.bindings + CellBindings(cell, place)))
    else None
  }

  function SpecializeRows(rows: seq<Row>, col: nat, c: Constructor, place: Place, decl: Shape, arity: nat): seq<Row>
    requires forall r :: 0 <= r < |rows| ==> col < |rows[r].cells| && CellShaped(rows[r].cells[col])
  {
    if rows == [] then []
    else
      var rest := SpecializeRows(rows[1..], col, c, place, decl, arity);
      match SpecializeRow(rows[0], col, c, place, decl, arity)
      case Some(row) => [row] + rest
      case None => rest
  }

  function DefaultRow(row: Row, col: nat, place: Place): Option<Row>
    requires col < |row.cells|
  {
    var cell := row.cells[col];
    if IsWild(cell) then
      Some(Row(Splice(row.cells, col, []), row.branch, row.bindings + CellBindings(cell, place)))
    else None
  }

  function DefaultRows(rows: seq<Row>, col: nat, place: Place): seq<Row>
    requires forall r :: 0 <= r < |rows| ==> col < |rows[r].cells|
  {
    if rows == [] then []
    else
      var rest := DefaultRows(rows[1..], col, place);
      match DefaultRow(rows[0], col, place)
      case Some(row) => [row] + rest
      case None => rest
  }

  /** A cell that takes a tuple or a struct apart. */
  predicate Destructures(c: Cell) {
    c.Some? && (c.value.TuplePat? || c.value.StructPat?)
  }

  /** A whole-value binder becomes wildcards here without its binding being recorded. */
  function ExpandRow(row: Row, col: nat, arity: nat): Row
    requires col < |row.cells|
  {
    var cells := match row.cells[col]
                 case Some(TuplePat(ps)) => Known(ps)
                 case Some(StructPat(_, ps)) => Known(ps)
                 case _ => Wildcards(arity);
    Row(Splice(row.cells, col, cells), row.branch, row.bindings)
  }

  function ExpandRows(rows: seq<Row>, col: nat, arity: nat): (r: seq<Row>)
    requires forall r :: 0 <= r < |rows| ==> col < |rows[r].cells|
    ensures |r| == |rows| && forall i :: 0 <= i < |r| ==> r[i] == ExpandRow(rows[i], col, arity)
  {
    seq(|rows|, i requires 0 <= i < |rows| => ExpandRow(rows[i], col, arity))
  }

  // ----- typing of a matrix -----

  ghost predicate RowOk(row: Row, cols: seq<Place>, demand: Demand := Nothing) {
    |row.cells| == |cols| && forall i :: 0 <= i < |cols| ==> CellOk(row.cells[i], cols[i].ty, demand)
  }

  ghost predicate RowsOk(rows: seq<Row>, cols: seq<Place>, demand: Demand := Nothing) {
    forall r {:trigger rows[r]} :: 0 <= r < |rows| ==> RowOk(rows[r], cols, demand)
  }

  /** What type checking guarantees about the matrix of a match. */
  ghost predicate MatrixOk(m: Matrix) {
    && (forall i :: 0 <= i < |m.cols| ==> TyOk(m.cols[i].ty))
    && RowsOk(m.rows, m.cols)
  }

  ghost predicate CtorFits(c: Constructor, t: Ty) {
    match c
    case VariantC(k) => t.EnumT? && k < |t.variants|
    case IntC(_) => t.IntT?
    case BoolC(_) => false
  }

  function DeclShape(t: Ty, c: Constructor): Shape
    requires c.VariantC? ==> t.EnumT? && c.idx < |t.variants|
  {
    if c.VariantC? then t.variants[c.idx].shape else UnitShape
  }

  ghost predicate ColumnFits(m: Matrix, col: nat, c: Constructor) {
    MatrixOk(m) && col < |m.cols| && CtorFits(c, m.cols[col].ty)
  }

  lemma ColumnReady(m: Matrix, col: nat)
    requires MatrixOk(m) && col < |m.cols|
    ensures forall r :: 0 <= r < |m.rows| ==> col < |m.rows[r].cells| && CellShaped(m.rows[r].cells[col])
    ensures forall r, c :: 0 <= r < |m.rows| && ConstructorOf(m.rows[r].cells[col]) == Some(c) ==>
              CtorFits(c, m.cols[col].ty)
    ensures m.cols[col].ty.EnumT? ==> forall k :: 0 <= k < |m.cols[col].ty.variants| ==>
              ShapeOk(m.cols[col].ty.variants[k].shape, |m.cols[col].ty.variants[k].tys|)
  {
    forall r | 0 <= r < |m.rows|
      ensures col < |m.rows[r].cells| && CellShaped(m.rows[r].cells[col])
      ensures forall c :: ConstructorOf(m.rows[r].cells[col]) == Some(c) ==> CtorFits(c, m.cols[col].ty)
    {
      assert RowOk(m.rows[r], m.cols);
      assert CellOk(m.rows[r].cells[col], m.cols[col].ty);
    }
    assert TyOk(m.cols[col].ty);
  }

  function Specialize(m: Matrix, col: nat, c: Constructor): Matrix
    requires ColumnFits(m, col, c)
  {
    ColumnReady(m, col);
    var place := m.cols[col];
    var places := CtorPlaces(place, c);
    Matrix(Splice(m.cols, col, places),
           SpecializeRows(m.rows, col, c, place, DeclShape(place.ty, c), |places|))
  }

  function Default(m: Matrix, col: nat): Matrix
    requires MatrixOk(m) && col < |m.cols|
  {
    ColumnReady(m, col);
    Matrix(Splice(m.cols, col, []), DefaultRows(m.rows, col, m.cols[col]))
  }

  function Expand(m: Matrix, col: nat): Matrix
    requires MatrixOk(m) && col < |m.cols| && Irrefutable(m.cols[col].ty)
  {
    ColumnReady(m, col);
    var places := FieldPlaces(m.cols[col]);
    Matrix(Splice(m.cols, col, places), ExpandRows(m.rows, col, |places|))
  }

  predicate AllWild(cells: seq<Cell>) {
    forall i :: 0 <= i < |cells| ==> IsWild(cells[i])
  }

  function FirstRefutable(cells: seq<Cell>): (i: nat)
    requires !AllWild(cells)
    ensures i < |cells| && !IsWild(cells[i])
    ensures forall j :: 0 <= j < i ==> IsWild(cells[j])
  {
    if IsWild(cells[0]) then 1 + FirstRefutable(cells[1..]) else 0
  }

  /** The bindings of a leaf: those recorded on the way, then the remaining binders. */
  function LeafBindings(cells: seq<Cell>, cols: seq<Place>, bindings: seq<Binding>): seq<Binding>
    requires |cells| == |cols|
  {
    if cells == [] then bindings
    else LeafBindings(cells[1..], cols[1..], bindings + CellBindings(cells[0], cols[0]))
  }

  predicate IsComplete(sig: seq<Constructor>, t: Ty) {
    match t
    case EnumT(variants) => |variants| == |sig|
    case BoolT => BoolC(true) in sig && BoolC(false) in sig
    case TupleT(_) => true
    case StructT(_, _) => true
    case _ => false
  }
}
