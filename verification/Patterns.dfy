/** Patterns, their typing, and the naive first-match meaning of a row of patterns. */
module Patterns {
  import opened Core

  datatype Pattern =
    | Any
    | Bind(local: nat)
    | TuplePat(pats: seq<Pattern>)
    | StructPat(names: seq<Symbol>, pats: seq<Pattern>)
    | CtorPat(idx: nat, shape: Shape, args: seq<Pattern>)
    | IntPat(value: int)

  predicate IsWildcardLike(p: Pattern) {
    p.Bind? || p.Any?
  }

  /** A matrix cell: None is the fresh wildcard that specialization introduces. */
  type Cell = Option<Pattern>

  predicate IsWild(c: Cell) {
    c.None? || IsWildcardLike(c.value)
  }

  /** What a pattern says about the part called `name`: the first mention, if any. */
  function FindPat(names: seq<Symbol>, pats: seq<Pattern>, name: Symbol): (c: Cell)
    requires |names| == |pats|
    ensures c.Some? <==> name in names
    ensures c.Some? ==> c.value == pats[IndexOf(names, name)]
  {
    if names == [] then None
    else if names[0] == name then Some(pats[0])
    else FindPat(names[1..], pats[1..], name)
  }

  // ----- typing -----

  /** The part of a value that the i-th argument of a constructor pattern is about. */
  function Slot(shape: Shape, decl: Shape, i: nat): nat {
    if shape.StructShape? && decl.StructShape? && i < |shape.names| then
      IndexOf(decl.names, shape.names[i])
    else i
  }

  /** The arguments of a constructor pattern address parts the variant declares. */
  ghost predicate ArgsFit(shape: Shape, arity: nat, v: Variant) {
    && ShapeOk(v.shape, |v.tys|)
    && ShapeOk(shape, arity)
    && match v.shape
       case UnitShape => shape.UnitShape?
       case TupleShape => shape.TupleShape? && arity == |v.tys|
       case StructShape(decl) => shape.StructShape? && forall i :: 0 <= i < arity ==> shape.names[i] in decl
  }

  /** What may be asked of the patterns of a match beyond what type checking establishes. */
  datatype Demand =
    | Nothing
    | InOrder                     // struct patterns are written in the order of the field table
    | LiteralsInRange             // literals are values of the types they are compared at
    | EnumsIn(enums: iset<Ty>)    // constructor patterns stand at these enums only
    | BindersIn(locals: seq<Ty>)  // binders are locals of the types they stand at

  /**
   * The pattern can be compiled against a scrutinee of type t. A literal is an unsigned
   * numeral that fits an i64; the front end accepts it against any integer type. A struct
   * pattern names every field once, and its i-th sub-pattern, which is the one compiled
   * against the i-th field of the table, fits the type of that field.
   */
  ghost predicate PatOk(p: Pattern, t: Ty, demand: Demand := Nothing)
    decreases p
  {
    match p
    case Any => true
    case Bind(x) => demand.BindersIn? ==> x < |demand.locals| && demand.locals[x] == t
    case TuplePat(ps) =>
      && t.TupleT? && |ps| == |t.elems|
      && forall i :: 0 <= i < |ps| ==> PatOk(ps[i], t.elems[i], demand)
    case StructPat(names, ps) =>
      && t.StructT? && Renaming(names, t.names) && |names| == |ps| == |t.fields|
      && (demand.InOrder? ==> names == t.names)
      && forall i :: 0 <= i < |ps| ==> PatOk(ps[i], t.fields[i], demand)
    case CtorPat(k, shape, ps) =>
      && t.EnumT? && k < |t.variants| && ArgsFit(shape, |ps|, t.variants[k])
      && (demand.EnumsIn? ==> t in demand.enums)
      && forall i :: 0 <= i < |ps| ==>
           && Slot(shape, t.variants[k].shape, i) < |t.variants[k].tys|
           && PatOk(ps[i], t.variants[k].tys[Slot(shape, t.variants[k].shape, i)], demand)
    case IntPat(n) =>
      t.IntT? && 0 <= n < TWO_TO_63 && (demand.LiteralsInRange? ==> InRange(n, t.width, t.signed))
  }

  /** The same names, each once, in some order. */
  ghost predicate Renaming(names: seq<Symbol>, decl: seq<Symbol>) {
    |names| == |decl| && Distinct(names) && forall i :: 0 <= i < |names| ==> names[i] in decl
  }

  ghost predicate CellOk(c: Cell, t: Ty, demand: Demand := Nothing) {
    c.Some? ==> PatOk(c.value, t, demand)
  }

  // ----- naive matching -----

  /** The parts of v that the sub-patterns of p look at, in pattern order. */
  ghost function Parts(p: Pattern, v: Value): (r: Option<seq<Value>>)
    ensures r.Some? && (p.TuplePat? || p.StructPat?) ==> |r.value| == |p.pats|
    ensures r.Some? && p.CtorPat? ==> |r.value| == |p.args|
  {
    match p
    case TuplePat(ps) =>
      if v.TupleV? && |v.elems| == |ps| then Some(v.elems) else None
    case StructPat(names, ps) =>
      if v.StructV? && |v.names| == |v.fields| && |names| == |ps| && forall i :: 0 <= i < |ps| ==> names[i] in v.names
      then Some(seq(|ps|, i requires 0 <= i < |ps| => v.fields[IndexOf(v.names, names[i])]))
      else None
    case CtorPat(k, shape, ps) =>
      if v.EnumV? && v.variant == k && forall i :: 0 <= i < |ps| ==> Slot(shape, v.shape, i) < |v.parts| then
        Some(seq(|ps|, i requires 0 <= i < |ps| => v.parts[Slot(shape, v.shape, i)]))
      else None
    case _ => None
  }

  ghost predicate Matches(p: Pattern, v: Value)
    decreases p
  {
    match p
    case Any => true
    case Bind(_) => true
    case IntPat(n) => v == IntV(n)
    case TuplePat(ps) =>
      && Parts(p, v).Some?
      && forall i :: 0 <= i < |ps| ==> Matches(ps[i], Parts(p, v).value[i])
    case StructPat(_, ps) =>
      && Parts(p, v).Some?
      && forall i :: 0 <= i < |ps| ==> Matches(ps[i], Parts(p, v).value[i])
    case CtorPat(_, _, ps) =>
      && Parts(p, v).Some?
      && forall i :: 0 <= i < |ps| ==> Matches(ps[i], Parts(p, v).value[i])
  }

  /** The locals a successful match binds, with their values, in pattern order. */
  ghost function Binds(p: Pattern, v: Value): seq<(nat, Value)>
    decreases p, 0
  {
    match p
    case Any => []
    case IntPat(_) => []
    case Bind(x) => [(x, v)]
    case TuplePat(ps) => if Parts(p, v).Some? then BindsAll(ps, Parts(p, v).value) else []
    case StructPat(_, ps) => if Parts(p, v).Some? then BindsAll(ps, Parts(p, v).value) else []
    case CtorPat(_, _, ps) => if Parts(p, v).Some? then BindsAll(ps, Parts(p, v).value) else []
  }

  ghost function BindsAll(ps: seq<Pattern>, vs: seq<Value>): seq<(nat, Value)>
    requires |ps| == |vs|
    decreases ps, 1
  {
    if ps == [] then [] else Binds(ps[0], vs[0]) + BindsAll(ps[1..], vs[1..])
  }

  lemma {:induction false} BindsAllMember(ps: seq<Pattern>, vs: seq<Value>, b: (nat, Value))
    requires |ps| == |vs|
    ensures b in BindsAll(ps, vs) <==> exists i :: 0 <= i < |ps| && b in Binds(ps[i], vs[i])
  {
    if ps != [] {
      BindsAllMember(ps[1..], vs[1..], b);
      if b in BindsAll(ps[1..], vs[1..]) {
        var i :| 0 <= i < |ps[1..]| && b in Binds(ps[1..][i], vs[1..][i]);
        assert b in Binds(ps[i + 1], vs[i + 1]);
      }
      if i :| 0 <= i < |ps| && b in Binds(ps[i], vs[i]) {
        if i > 0 {
          assert b in Binds(ps[1..][i - 1], vs[1..][i - 1]);
        }
      }
    }
  }

  ghost predicate CellMatches(c: Cell, v: Value) {
    c.Some? ==> Matches(c.value, v)
  }

  ghost predicate CellBinds(c: Cell, v: Value, b: (nat, Value)) {
    c.Some? && b in Binds(c.value, v)
  }

  /** A row of cells against a row of values. */
  ghost predicate CellsMatch(cs: seq<Cell>, vs: seq<Value>) {
    |cs| == |vs| && forall i :: 0 <= i < |cs| ==> CellMatches(cs[i], vs[i])
  }

  ghost predicate CellsBind(cs: seq<Cell>, vs: seq<Value>, b: (nat, Value)) {
    |cs| == |vs| && exists i :: 0 <= i < |cs| && CellBinds(cs[i], vs[i], b)
  }

  lemma CellsMatchAppend(a: seq<Cell>, b: seq<Cell>, x: seq<Value>, y: seq<Value>)
    requires |a| == |x|
    ensures CellsMatch(a + b, x + y) <==> CellsMatch(a, x) && CellsMatch(b, y)
  {
    if CellsMatch(a + b, x + y) {
      forall i | 0 <= i < |a| ensures CellMatches(a[i], x[i]) { assert CellMatches((a + b)[i], (x + y)[i]); }
      forall i | 0 <= i < |b| ensures CellMatches(b[i], y[i]) {
        assert CellMatches((a + b)[|a| + i], (x + y)[|a| + i]);
      }
    }
  }

  lemma CellsBindAppend(a: seq<Cell>, b: seq<Cell>, x: seq<Value>, y: seq<Value>, e: (nat, Value))
    requires |a| == |x| && |b| == |y|
    ensures CellsBind(a + b, x + y, e) <==> CellsBind(a, x, e) || CellsBind(b, y, e)
  {
    if i :| 0 <= i < |a| && CellBinds(a[i], x[i], e) {
      assert CellBinds((a + b)[i], (x + y)[i], e);
    }
    if i :| 0 <= i < |b| && CellBinds(b[i], y[i], e) {
      assert CellBinds((a + b)[|a| + i], (x + y)[|a| + i], e);
    }
    if i :| 0 <= i < |a + b| && CellBinds((a + b)[i], (x + y)[i], e) {
      if i < |a| {
        assert CellBinds(a[i], x[i], e);
      } else {
        assert CellBinds(b[i - |a|], y[i - |a|], e);
      }
    }
  }
}
