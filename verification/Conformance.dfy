/** Impl selection: one-way matching of types, and the query "type implements interface". */
module Conformance {
  import opened Core

  datatype TyRef =
    | Concrete(def: nat, args: seq<TyRef>)
    | Param(id: nat)
    | Zelf
    | Associated(id: nat)
    | ErrorTy
    | Unknown

  datatype IRef = IRef(def: nat, args: seq<TyRef>)

  /** An impl block: one list of bounds for each of its templates. */
  datatype Impl = Impl(implemented: TyRef, bounds: seq<seq<IRef>>, interface: Option<IRef>)

  datatype Query = Query(ty: TyRef, iref: IRef)

  type Subst = map<nat, TyRef>

  // ----- substitution -----

  /** Replaces template i by subs[i] and Self by zelf; an unknown template is an error type. */
  function Sub(ty: TyRef, subs: seq<TyRef>, zelf: TyRef): TyRef {
    match ty
    case Concrete(def, args) => Concrete(def, SubAll(args, subs, zelf))
    case Param(id) => if id < |subs| then subs[id] else ErrorTy
    case Zelf => zelf
    case _ => ty
  }

  function SubAll(tys: seq<TyRef>, subs: seq<TyRef>, zelf: TyRef): seq<TyRef> {
    if tys == [] then [] else [Sub(tys[0], subs, zelf)] + SubAll(tys[1..], subs, zelf)
  }

  function SubIRef(iref: IRef, subs: seq<TyRef>, zelf: TyRef): IRef {
    IRef(iref.def, SubAll(iref.args, subs, zelf))
  }

  /** The same with a partial assignment of templates. */
  function Apply(ty: TyRef, m: Subst, zelf: TyRef): TyRef {
    match ty
    case Concrete(def, args) => Concrete(def, ApplyAll(args, m, zelf))
    case Param(id) => if id in m then m[id] else ErrorTy
    case Zelf => zelf
    case _ => ty
  }

  function ApplyAll(tys: seq<TyRef>, m: Subst, zelf: TyRef): (r: seq<TyRef>)
    ensures |r| == |tys|
  {
    if tys == [] then [] else [Apply(tys[0], m, zelf)] + ApplyAll(tys[1..], m, zelf)
  }

  function Table(subs: seq<TyRef>): Subst {
    map i: nat | i < |subs| :: subs[i]
  }

  lemma {:induction false} SubIsApply(ty: TyRef, subs: seq<TyRef>, zelf: TyRef)
    ensures Sub(ty, subs, zelf) == Apply(ty, Table(subs), zelf)
    decreases ty, 0
  {
    if ty.Concrete? {
      SubAllIsApply(ty.args, subs, zelf);
    }
  }

  lemma {:induction false} SubAllIsApply(tys: seq<TyRef>, subs: seq<TyRef>, zelf: TyRef)
    ensures SubAll(tys, subs, zelf) == ApplyAll(tys, Table(subs), zelf)
    decreases tys, 1
  {
    if tys != [] {
      SubIsApply(tys[0], subs, zelf);
      SubAllIsApply(tys[1..], subs, zelf);
    }
  }

  // ----- substitution is what it should be -----

  /** Each template standing for itself. */
  function OwnParams(n: nat): (r: seq<TyRef>)
    ensures |r| == n && forall i :: 0 <= i < n ==> r[i] == Param(i)
  {
    seq(n, i requires 0 <= i < n => Param(i))
  }

  /** Templates and Self replaced by themselves leave a type as it is. */
  lemma {:induction false} SubIdentity(ty: TyRef, n: nat)
    requires forall i :: i in Params(ty) ==> i < n
    ensures Sub(ty, OwnParams(n), Zelf) == ty
    decreases ty, 0
  {
    match ty
    case Concrete(_, args) =>
      assert Params(ty) == AllParams(args);
      SubAllIdentity(args, n);
    case Param(id) => assert id in Params(ty);
    case _ =>
  }

  lemma {:induction false} SubAllIdentity(tys: seq<TyRef>, n: nat)
    requires forall i :: i in AllParams(tys) ==> i < n
    ensures SubAll(tys, OwnParams(n), Zelf) == tys
    decreases tys, 1
  {
    if tys != [] {
      assert AllParams(tys) == Params(tys[0]) + AllParams(tys[1..]);
      SubIdentity(tys[0], n);
      SubAllIdentity(tys[1..], n);
    }
  }

  /** Substituting twice is substituting once by what the substitution itself becomes. */
  lemma {:induction false} SubTwice(ty: TyRef, subs: seq<TyRef>, zelf: TyRef, subs': seq<TyRef>, zelf': TyRef)
    ensures Sub(Sub(ty, subs, zelf), subs', zelf') == Sub(ty, SubAll(subs, subs', zelf'), Sub(zelf, subs', zelf'))
    decreases ty, 0
  {
    SubAllAt(subs, subs', zelf');
    if ty.Concrete? {
      SubAllTwice(ty.args, subs, zelf, subs', zelf');
    }
  }

  lemma {:induction false} SubAllTwice(tys: seq<TyRef>, subs: seq<TyRef>, zelf: TyRef, subs': seq<TyRef>, zelf': TyRef)
    ensures SubAll(SubAll(tys, subs, zelf), subs', zelf') ==
            SubAll(tys, SubAll(subs, subs', zelf'), Sub(zelf, subs', zelf'))
    decreases tys, 1
  {
    if tys != [] {
      SubTwice(tys[0], subs, zelf, subs', zelf');
      SubAllTwice(tys[1..], subs, zelf, subs', zelf');
      assert SubAll(tys, subs, zelf)[1..] == SubAll(tys[1..], subs, zelf);
    }
  }

  lemma {:induction false} SubAllAt(tys: seq<TyRef>, subs: seq<TyRef>, zelf: TyRef)
    ensures |SubAll(tys, subs, zelf)| == |tys|
    ensures forall i :: 0 <= i < |tys| ==> SubAll(tys, subs, zelf)[i] == Sub(tys[i], subs, zelf)
  {
    if tys != [] {
      SubAllAt(tys[1..], subs, zelf);
    }
  }

  function Params(ty: TyRef): set<nat> {
    match ty
    case Concrete(_, args) => AllParams(args)
    case Param(id) => {id}
    case _ => {}
  }

  function AllParams(tys: seq<TyRef>): set<nat> {
    if tys == [] then {} else Params(tys[0]) + AllParams(tys[1..])
  }

  /** No templates, no Self, nothing unresolved. */
  predicate Ground(ty: TyRef) {
    ty.Concrete? && AllGround(ty.args)
  }

  predicate AllGround(tys: seq<TyRef>) {
    tys == [] || (Ground(tys[0]) && AllGround(tys[1..]))
  }

  // ----- one-way matching -----

  function MatchTy(a: TyRef, b: TyRef, zelf: Option<TyRef>, m: Subst): Option<Subst>
    decreases b, 0
  {
    match b
    case Concrete(def, bs) =>
      if !a.Concrete? || a.def != def || |a.args| != |bs| then None else MatchArgs(a.args, bs, zelf, m)
    case Param(id) =>
      if id in m then (if m[id] == a then Some(m) else None) else Some(m[id := a])
    case Zelf => if zelf == Some(a) then Some(m) else None
    case _ => None
  }

  function MatchArgs(xs: seq<TyRef>, bs: seq<TyRef>, zelf: Option<TyRef>, m: Subst): Option<Subst>
    requires |xs| == |bs|
    decreases bs, 1
  {
    if bs == [] then Some(m)
    else if !xs[0].Concrete? then None
    else
      var m1 :- MatchTy(xs[0], bs[0], zelf, m);
      MatchArgs(xs[1..], bs[1..], zelf, m1)
  }

  /** The matcher as it runs, filling one table of constraints. */
  method TypeMatchAux(a: TyRef, b: TyRef, zelf: Option<TyRef>, constraints: Subst) returns (ok: bool, m: Subst)
    ensures ok <==> MatchTy(a, b, zelf, constraints).Some?
    ensures ok ==> m == MatchTy(a, b, zelf, constraints).value
    decreases b
  {
    m := constraints;
    match b
    case Concrete(def, bs) =>
      if !a.Concrete? || a.def != def || |a.args| != |bs| {
        return false, m;
      }
      var i := 0;
      assert a.args[0..] == a.args && bs[0..] == bs;
      while i < |bs|
        invariant i <= |bs|
        invariant MatchArgs(a.args, bs, zelf, constraints) == MatchArgs(a.args[i..], bs[i..], zelf, m)
      {
        assert a.args[i..][1..] == a.args[i + 1..] && bs[i..][1..] == bs[i + 1..];
        if !a.args[i].Concrete? {
          return false, m;
        }
        ok, m := TypeMatchAux(a.args[i], bs[i], zelf, m);
        if !ok {
          return false, m;
        }
        i := i + 1;
      }
      ok := true;
    case Param(id) =>
      if id in m {
        ok := m[id] == a;
      } else {
        m := m[id := a];
        ok := true;
      }
    case Zelf => ok := zelf == Some(a);
    case _ => ok := false;
  }

  predicate Extends(m: Subst, m': Subst) {
    m.Keys <= m'.Keys && forall i :: i in m ==> m'[i] == m[i]
  }

  function ZelfTy(zelf: Option<TyRef>): TyRef {
    match zelf
    case Some(t) => t
    case None => ErrorTy
  }

  lemma {:induction false} ApplyStable(b: TyRef, m: Subst, m': Subst, zelf: TyRef)
    requires Extends(m, m') && Params(b) <= m.Keys
    ensures Apply(b, m, zelf) == Apply(b, m', zelf)
    decreases b, 0
  {
    if b.Concrete? {
      ApplyAllStable(b.args, m, m', zelf);
    }
  }

  lemma {:induction false} ApplyAllStable(bs: seq<TyRef>, m: Subst, m': Subst, zelf: TyRef)
    requires Extends(m, m') && AllParams(bs) <= m.Keys
    ensures ApplyAll(bs, m, zelf) == ApplyAll(bs, m', zelf)
    decreases bs, 1
  {
    if bs != [] {
      ApplyStable(bs[0], m, m', zelf);
      ApplyAllStable(bs[1..], m, m', zelf);
    }
  }

  /** A successful match extends the table by exactly the pattern's templates, and undoes substitution. */
  lemma {:induction false} MatchSound(a: TyRef, b: TyRef, zelf: Option<TyRef>, m: Subst)
    requires MatchTy(a, b, zelf, m).Some?
    ensures var m' := MatchTy(a, b, zelf, m).value;
            Extends(m, m') && m'.Keys == m.Keys + Params(b) && Apply(b, m', ZelfTy(zelf)) == a
    decreases b, 0
  {
    if b.Concrete? {
      MatchArgsSound(a.args, b.args, zelf, m);
    }
  }

  lemma {:induction false} MatchArgsSound(xs: seq<TyRef>, bs: seq<TyRef>, zelf: Option<TyRef>, m: Subst)
    requires |xs| == |bs| && MatchArgs(xs, bs, zelf, m).Some?
    ensures var m' := MatchArgs(xs, bs, zelf, m).value;
            Extends(m, m') && m'.Keys == m.Keys + AllParams(bs) && ApplyAll(bs, m', ZelfTy(zelf)) == xs
    decreases bs, 1
  {
    if bs != [] {
      var m1 := MatchTy(xs[0], bs[0], zelf, m).value;
      MatchSound(xs[0], bs[0], zelf, m);
      MatchArgsSound(xs[1..], bs[1..], zelf, m1);
      ApplyStable(bs[0], m1, MatchArgs(xs[1..], bs[1..], zelf, m1).value, ZelfTy(zelf));
    }
  }

  /** Whenever some substitution extending the table works, matching succeeds and asks for no more. */
  lemma {:induction false} MatchComplete(a: TyRef, b: TyRef, zelf: Option<TyRef>, m: Subst, theta: Subst)
    requires Ground(a) && Extends(m, theta) && Apply(b, theta, ZelfTy(zelf)) == a
    ensures MatchTy(a, b, zelf, m).Some? && Extends(MatchTy(a, b, zelf, m).value, theta)
    decreases b, 0
  {
    if b.Concrete? {
      MatchArgsComplete(a.args, b.args, zelf, m, theta);
    }
  }

  lemma {:induction false} MatchArgsComplete(xs: seq<TyRef>, bs: seq<TyRef>, zelf: Option<TyRef>, m: Subst,
                                             theta: Subst)
    requires |xs| == |bs| && AllGround(xs) && Extends(m, theta) && ApplyAll(bs, theta, ZelfTy(zelf)) == xs
    ensures MatchArgs(xs, bs, zelf, m).Some? && Extends(MatchArgs(xs, bs, zelf, m).value, theta)
    decreases bs, 1
  {
    if bs != [] {
      assert xs == [xs[0]] + xs[1..];
      MatchComplete(xs[0], bs[0], zelf, m, theta);
      MatchArgsComplete(xs[1..], bs[1..], zelf, MatchTy(xs[0], bs[0], zelf, m).value, theta);
    }
  }

  /** One-way matching against a ground type is sound, complete and most general. */
  lemma MatchExact(a: TyRef, b: TyRef, zelf: Option<TyRef>, m: Subst)
    requires Ground(a)
    ensures MatchTy(a, b, zelf, m).Some? <==> exists theta :: Extends(m, theta) && Apply(b, theta, ZelfTy(zelf)) == a
    ensures MatchTy(a, b, zelf, m).Some? ==>
              forall theta :: Extends(m, theta) && Apply(b, theta, ZelfTy(zelf)) == a ==>
                Extends(MatchTy(a, b, zelf, m).value, theta)
  {
    if MatchTy(a, b, zelf, m).Some? {
      MatchSound(a, b, zelf, m);
    }
    forall theta | Extends(m, theta) && Apply(b, theta, ZelfTy(zelf)) == a
      ensures MatchTy(a, b, zelf, m).Some? && Extends(MatchTy(a, b, zelf, m).value, theta)
    {
      MatchComplete(a, b, zelf, m, theta);
    }
  }

  // ----- the query -----

  /** The templates that matching the queried type binds. */
  function Candidate(impl: Impl, ty: TyRef): Option<Subst> {
    var m :- MatchTy(ty, impl.implemented, None, map[]);
    Some(map i | i in m && i < |impl.bounds| :: m[i])
  }

  /** Then the requested interface's arguments are matched, and every template must be known. */
  function SubsFor(impl: Impl, q: Query): Option<seq<TyRef>> {
    var m0 :- Candidate(impl, q.ty);
    var iref :- impl.interface;
    if iref.def != q.iref.def || |q.iref.args| != |iref.args| then None
    else
      var m :- MatchArgs(q.iref.args, iref.args, Some(q.ty), m0);
      if forall i :: 0 <= i < |impl.bounds| ==> i in m then
        Some(seq(|impl.bounds|, i requires 0 <= i < |impl.bounds| => m[i]))
      else None
  }

  /** What the bounds of templates i, i + 1, ... ask for. */
  function BoundsFrom(impl: Impl, subs: seq<TyRef>, zelf: TyRef, i: nat): seq<Query>
    requires |subs| == |impl.bounds| && i <= |subs|
    decreases |subs| - i
  {
    if i == |subs| then []
    else
      seq(|impl.bounds[i]|,
          j requires 0 <= j < |impl.bounds[i]| => Query(subs[i], SubIRef(impl.bounds[i][j], subs, zelf)))
      + BoundsFrom(impl, subs, zelf, i + 1)
  }

  /**
   * The answer after n rounds from "no": the first impl, in order, whose type and
   * interface match and whose bounds all had an answer in the round before.
   */
  function Answer(impls: seq<Impl>, q: Query, n: nat): (r: Option<nat>)
    decreases n, 0, 0
  {
    if n == 0 then None else FirstFrom(impls, 0, q, n - 1)
  }

  function FirstFrom(impls: seq<Impl>, i: nat, q: Query, n: nat): Option<nat>
    requires i <= |impls|
    decreases n, 2, |impls| - i
  {
    if i == |impls| then None
    else if AppliesAt(impls, i, q, n) then Some(i)
    else FirstFrom(impls, i + 1, q, n)
  }

  predicate AppliesAt(impls: seq<Impl>, i: nat, q: Query, n: nat)
    requires i < |impls|
    decreases n, 1, 1
  {
    match SubsFor(impls[i], q)
    case None => false
    case Some(subs) => AllHold(impls, BoundsFrom(impls[i], subs, q.ty, 0), n)
  }

  predicate AllHold(impls: seq<Impl>, qs: seq<Query>, n: nat)
    decreases n, 1, 0, |qs|
  {
    qs == [] || (Answer(impls, qs[0], n).Some? && AllHold(impls, qs[1..], n))
  }
}
