/** Types, runtime values, patterns and places shared by the compiler passes. */
module Core {

  datatype Option<+T> = None | Some(value: T) {
    predicate IsFailure() { None? }
    function PropagateFailure<U>(): Option<U> requires None? { None }
    function Extract(): T requires Some? { value }
  }

  /** An interned name. */
  type Symbol = nat

  // ----- types -----

  datatype IntWidth = I8 | I16 | I32 | I64 | I128

  datatype WidthKind = System | Fixed(width: IntWidth)

  /** How the parts of a variant (or of a constructor pattern) are addressed. */
  datatype Shape = UnitShape | TupleShape | StructShape(names: seq<Symbol>)

  datatype Variant = Variant(shape: Shape, tys: seq<Ty>)

  /**
   * Concrete types as finite trees. A pointer or reference is a leaf, which is
   * where every recursive declaration closes.
   */
  datatype Ty =
    | IntT(width: WidthKind, signed: bool)
    | BoolT
    | VoidT
    | NeverT
    | PtrT
    | FatPtrT
    | TupleT(elems: seq<Ty>)
    | StructT(names: seq<Symbol>, fields: seq<Ty>)
    | EnumT(variants: seq<Variant>)

  ghost predicate Distinct<T(!new)>(s: seq<T>) {
    forall i, j :: 0 <= i < j < |s| ==> s[i] != s[j]
  }

  ghost predicate ShapeOk(shape: Shape, arity: nat) {
    match shape
    case UnitShape => arity == 0
    case TupleShape => true
    case StructShape(names) => |names| == arity && Distinct(names)
  }

  /** Declarations the front end accepts: field names do not repeat, variants are counted in a u32. */
  ghost predicate TyOk(t: Ty) {
    match t
    case TupleT(ts) => forall i :: 0 <= i < |ts| ==> TyOk(ts[i])
    case StructT(names, ts) =>
      && |names| == |ts| && Distinct(names)
      && forall i :: 0 <= i < |ts| ==> TyOk(ts[i])
    case EnumT(vs) =>
      && |vs| < 0x1_0000_0000
      && forall k :: 0 <= k < |vs| ==>
           && ShapeOk(vs[k].shape, |vs[k].tys|)
           && forall i :: 0 <= i < |vs[k].tys| ==> TyOk(vs[k].tys[i])
    case _ => true
  }

  // ----- values -----

  /** VariantV is the view of an enum value after a downcast; no type contains it. */
  datatype Value =
    | IntV(n: int)
    | BoolV(b: bool)
    | TupleV(elems: seq<Value>)
    | StructV(names: seq<Symbol>, fields: seq<Value>)
    | EnumV(variant: nat, shape: Shape, parts: seq<Value>)
    | VariantV(shape: Shape, parts: seq<Value>)
    | OpaqueV(id: nat)

  const TWO_TO_63: int := 0x8000_0000_0000_0000
  const TWO_TO_64: int := 0x1_0000_0000_0000_0000
  const TWO_TO_127: int := 0x8000_0000_0000_0000_0000_0000_0000_0000
  const TWO_TO_128: int := 0x1_0000_0000_0000_0000_0000_0000_0000_0000

  /** Half the number of values of a width; a machine word has at most 64 bits. */
  function HalfRange(width: WidthKind): int {
    match width
    case System => TWO_TO_63
    case Fixed(I8) => 0x80
    case Fixed(I16) => 0x8000
    case Fixed(I32) => 0x8000_0000
    case Fixed(I64) => TWO_TO_63
    case Fixed(I128) => TWO_TO_127
  }

  predicate InRange(n: int, width: WidthKind, signed: bool) {
    if signed then -HalfRange(width) <= n < HalfRange(width)
    else 0 <= n < 2 * HalfRange(width)
  }

  ghost predicate HasType(v: Value, t: Ty)
    decreases t
  {
    match t
    case IntT(width, signed) => v.IntV? && InRange(v.n, width, signed)
    case BoolT => v.BoolV?
    case VoidT => v == TupleV([])
    case NeverT => false
    case PtrT => v.OpaqueV?
    case FatPtrT => v.OpaqueV?
    case TupleT(ts) =>
      && v.TupleV? && |v.elems| == |ts|
      && forall i :: 0 <= i < |ts| ==> HasType(v.elems[i], ts[i])
    case StructT(names, ts) =>
      && v.StructV? && v.names == names && |v.fields| == |ts|
      && forall i :: 0 <= i < |ts| ==> HasType(v.fields[i], ts[i])
    case EnumT(vs) =>
      && v.EnumV? && v.variant < |vs| && v.shape == vs[v.variant].shape
      && |v.parts| == |vs[v.variant].tys|
      && forall i :: 0 <= i < |v.parts| ==> HasType(v.parts[i], vs[v.variant].tys[i])
  }

  // ----- places -----

  datatype Proj =
    | TupleField(index: nat)
    | NamedField(name: Symbol)
    | Downcast(variant: nat)

  /** A local and the projections applied to it, with the type of the result. */
  datatype Place = Place(local: nat, projs: seq<Proj>, ty: Ty)

  /** The first position of a name, or the length when it is absent. */
  function IndexOf(names: seq<Symbol>, name: Symbol): (i: nat)
    ensures i <= |names|
    ensures i < |names| ==> names[i] == name
    ensures forall j :: 0 <= j < i ==> names[j] != name
  {
    if names == [] then 0
    else if names[0] == name then 0
    else 1 + IndexOf(names[1..], name)
  }

  function ProjectOne(v: Value, p: Proj): Option<Value> {
    match p
    case TupleField(i) =>
      if v.TupleV? && i < |v.elems| then Some(v.elems[i])
      else if v.VariantV? && v.shape == TupleShape && i < |v.parts| then Some(v.parts[i])
      else None
    case NamedField(name) =>
      if v.StructV? && |v.names| == |v.fields| && name in v.names then
        Some(v.fields[IndexOf(v.names, name)])
      else if v.VariantV? && v.shape.StructShape? && |v.shape.names| == |v.parts| && name in v.shape.names then
        Some(v.parts[IndexOf(v.shape.names, name)])
      else None
    case Downcast(k) =>
      if v.EnumV? && v.variant == k then Some(VariantV(v.shape, v.parts)) else None
  }

  /** Reads a place below a root value; None when a projection does not apply. */
  function Project(root: Value, projs: seq<Proj>): Option<Value> {
    if projs == [] then Some(root)
    else
      var w :- Project(root, projs[..|projs| - 1]);
      ProjectOne(w, projs[|projs| - 1])
  }

  lemma ProjectSnoc(root: Value, projs: seq<Proj>, p: Proj)
    ensures Project(root, projs + [p]) ==
            (if Project(root, projs).Some? then ProjectOne(Project(root, projs).value, p) else None)
  {
    assert (projs + [p])[..|projs + [p]| - 1] == projs;
  }
}
