/** The fixpoint behind "type implements interface" answers exactly the finite derivations. */
module ImplSelection {
  import opened Core
  import opened Conformance

  // ----- well-formed programs and queries -----

  ghost predicate Resolved(ty: TyRef, n: nat)
    decreases ty
  {
    match ty
    case Concrete(_, args) => forall i :: 0 <= i < |args| ==> Resolved(args[i], n)
    case Param(id) => id < n
    case Zelf => true
    case _ => false
  }

  ghost predicate AllResolved(tys: seq<TyRef>, n: nat) {
    forall i :: 0 <= i < |tys| ==> Resolved(tys[i], n)
  }

  /** Name resolution: templates are the impl's own, and bounds name no unresolved type. */
  ghost predicate ImplOk(impl: Impl) {
    && (forall i :: i in Params(impl.implemented) ==> i < |impl.bounds|)
    && (impl.interface.Some? ==> forall i :: i in AllParams(impl.interface.value.args) ==> i < |impl.bounds|)
    && (forall i, j :: 0 <= i < |impl.bounds| && 0 <= j < |impl.bounds[i]| ==>
        AllResolved(impl.bounds[i][j].args, |impl.bounds|))
  }

  ghost predicate ImplsOk(impls: seq<Impl>) {
    forall i :: 0 <= i < |impls| ==> ImplOk(impls[i])
  }

  predicate GroundQuery(q: Query) {
    Ground(q.ty) && AllGround(q.iref.args)
  }

  // ----- one step of a derivation -----

  /** Every template occurs in the implemented type or in the interface's arguments. */
  ghost predicate Determined(impl: Impl)
    requires impl.interface.Some?
  {
    forall i: nat :: i < |impl.bounds| ==> i in Params(impl.implemented) + AllParams(impl.interface.value.args)
  }

  /** One substitution turns the impl's type into the queried one and its interface into the requested one. */
  ghost predicate Instance(impl: Impl, theta: seq<TyRef>, q: Query) {
    && |theta| == |impl.bounds| && impl.interface.Some? && Determined(impl)
    && impl.interface.value.def == q.iref.def
    && Sub(impl.implemented, theta, ErrorTy) == q.ty
    && SubAll(impl.interface.value.args, theta, q.ty) == q.iref.args
  }

  lemma RestrictAll(m: Subst, n: nat)
    requires forall i :: i in m ==> i < n
    ensures (map i | i in m && i < n :: m[i]) == m
  {
    var r := map i | i in m && i < n :: m[i];
    assert r.Keys == m.Keys;
    assert forall i :: i in m ==> r[i] == m[i];
  }

  lemma SubsSound(impl: Impl, q: Query, theta: seq<TyRef>)
    requires ImplOk(impl) && SubsFor(impl, q) == Some(theta)
    ensures Instance(impl, theta, q)
  {
    var m0 := MatchTy(q.ty, impl.implemented, None, map[]).value;
    MatchSound(q.ty, impl.implemented, None, map[]);
    RestrictAll(m0, |impl.bounds|);
    var args := impl.interface.value.args;
    var m := MatchArgs(q.iref.args, args, Some(q.ty), m0).value;
    MatchArgsSound(q.iref.args, args, Some(q.ty), m0);
    ApplyStable(impl.implemented, m0, m, ErrorTy);
    assert forall i :: 0 <= i < |theta| ==> i in m && theta[i] == m[i];
    assert m.Keys == Params(impl.implemented) + AllParams(args);
    assert Determined(impl);
    assert Table(theta).Keys == m.Keys;
    assert Table(theta) == m;
    SubIsApply(impl.implemented, theta, ErrorTy);
    SubAllIsApply(args, theta, q.ty);
  }

  lemma SubsComplete(impl: Impl, q: Query, theta: seq<TyRef>)
    requires ImplOk(impl) && GroundQuery(q) && Instance(impl, theta, q)
    ensures SubsFor(impl, q) == Some(theta)
  {
    var args := impl.interface.value.args;
    SubIsApply(impl.implemented, theta, ErrorTy);
    SubAllIsApply(args, theta, q.ty);
    MatchComplete(q.ty, impl.implemented, None, map[], Table(theta));
    MatchSound(q.ty, impl.implemented, None, map[]);
    var m0 := MatchTy(q.ty, impl.implemented, None, map[]).value;
    RestrictAll(m0, |impl.bounds|);
    MatchArgsComplete(q.iref.args, args, Some(q.ty), m0, Table(theta));
    MatchArgsSound(q.iref.args, args, Some(q.ty), m0);
    var m := MatchArgs(q.iref.args, args, Some(q.ty), m0).value;
    forall i | 0 <= i < |theta| ensures i in m && m[i] == theta[i] {
      assert i in Params(impl.implemented) + AllParams(args);
    }
    var r := SubsFor(impl, q);
    assert r.Some? && |r.value| == |theta| && forall i :: 0 <= i < |theta| ==> r.value[i] == theta[i];
    assert r.value == theta;
  }

  /** The substitution an impl is used with is unique: matching finds it exactly when there is one. */
  lemma SubsExact(impl: Impl, q: Query, theta: seq<TyRef>)
    requires ImplOk(impl) && GroundQuery(q)
    ensures SubsFor(impl, q) == Some(theta) <==> Instance(impl, theta, q)
  {
    if SubsFor(impl, q) == Some(theta) {
      SubsSound(impl, q, theta);
    }
    if Instance(impl, theta, q) {
      SubsComplete(impl, q, theta);
    }
  }

  // ----- bounds of ground queries are ground -----

  lemma {:induction false} GroundParts(b: TyRef, m: Subst, zelf: TyRef, i: nat)
    requires Ground(Apply(b, m, zelf)) && i in Params(b)
    ensures i in m && Ground(m[i])
    decreases b, 0
  {
    if b.Concrete? {
      AllGroundParts(b.args, m, zelf, i);
    }
  }

  lemma {:induction false} AllGroundParts(bs: seq<TyRef>, m: Subst, zelf: TyRef, i: nat)
    requires AllGround(ApplyAll(bs, m, zelf)) && i in AllParams(bs)
    ensures i in m && Ground(m[i])
    decreases bs, 1
  {
    if i in Params(bs[0]) {
      GroundParts(bs[0], m, zelf, i);
    } else {
      assert ApplyAll(bs, m, zelf)[1..] == ApplyAll(bs[1..], m, zelf);
      AllGroundParts(bs[1..], m, zelf, i);
    }
  }

  lemma {:induction false} SubGround(ty: TyRef, theta: seq<TyRef>, zelf: TyRef)
    requires Resolved(ty, |theta|) && Ground(zelf) && forall i :: 0 <= i < |theta| ==> Ground(theta[i])
    ensures Ground(Sub(ty, theta, zelf))
    decreases ty, 0
  {
    if ty.Concrete? {
      SubAllGround(ty.args, theta, zelf);
    }
  }

  lemma {:induction false} SubAllGround(tys: seq<TyRef>, theta: seq<TyRef>, zelf: TyRef)
    requires AllResolved(tys, |theta|) && Ground(zelf) && forall i :: 0 <= i < |theta| ==> Ground(theta[i])
    ensures AllGround(SubAll(tys, theta, zelf))
    decreases tys, 1
  {
    if tys != [] {
      SubGround(tys[0], theta, zelf);
      SubAllGround(tys[1..], theta, zelf);
      assert SubAll(tys, theta, zelf)[1..] == SubAll(tys[1..], theta, zelf);
    }
  }

  lemma ThetaGround(impl: Impl, theta: seq<TyRef>, q: Query)
    requires ImplOk(impl) && GroundQuery(q) && Instance(impl, theta, q)
    ensures forall i :: 0 <= i < |theta| ==> Ground(theta[i])
  {
    SubIsApply(impl.implemented, theta, ErrorTy);
    SubAllIsApply(impl.interface.value.args, theta, q.ty);
    forall i | 0 <= i < |theta| ensures Ground(theta[i]) {
      assert i in Params(impl.implemented) + AllParams(impl.interface.value.args);
      if i in Params(impl.implemented) {
        GroundParts(impl.implemented, Table(theta), ErrorTy, i);
      } else {
        AllGroundParts(impl.interface.value.args, Table(theta), q.ty, i);
      }
    }
  }

  lemma BoundGround(impl: Impl, theta: seq<TyRef>, q: Query, k: nat, j: nat)
    requires ImplOk(impl) && GroundQuery(q) && Instance(impl, theta, q) && IsBound(impl, k, j)
    ensures GroundQuery(BoundQuery(impl, theta, q.ty, k, j))
  {
    ThetaGround(impl, theta, q);
    assert AllResolved(impl.bounds[k][j].args, |impl.bounds|);
    SubAllGround(impl.bounds[k][j].args, theta, q.ty);
  }

  // ----- what an impl asks for -----

  /** Template k has a j-th bound. */
  predicate IsBound(impl: Impl, k: nat, j: nat) {
    k < |impl.bounds| && j < |impl.bounds[k]|
  }

  /** The j-th bound of template k: the type standing for the template implements the bound, substituted. */
  function BoundQuery(impl: Impl, theta: seq<TyRef>, zelf: TyRef, k: nat, j: nat): Query
    requires |theta| == |impl.bounds| && IsBound(impl, k, j)
  {
    var bound := impl.bounds[k][j];
    Query(theta[k], IRef(bound.def, SubAll(bound.args, theta, zelf)))
  }

  ghost predicate IsBoundQuery(impl: Impl, theta: seq<TyRef>, zelf: TyRef, i: nat, x: Query)
    requires |theta| == |impl.bounds|
  {
    exists k: nat, j: nat :: i <= k && IsBound(impl, k, j) && x == BoundQuery(impl, theta, zelf, k, j)
  }

  lemma {:induction false} BoundsListed(impl: Impl, theta: seq<TyRef>, zelf: TyRef, i: nat, x: Query)
    requires |theta| == |impl.bounds| && i <= |theta|
    ensures x in BoundsFrom(impl, theta, zelf, i) <==> IsBoundQuery(impl, theta, zelf, i, x)
    decreases |theta| - i
  {
    if i < |theta| {
      var here := seq(|impl.bounds[i]|,
                      j requires 0 <= j < |impl.bounds[i]| => Query(theta[i], SubIRef(impl.bounds[i][j], theta, zelf)));
      BoundsListed(impl, theta, zelf, i + 1, x);
      if IsBoundQuery(impl, theta, zelf, i + 1, x) {
        var k: nat, j: nat :| i + 1 <= k && IsBound(impl, k, j) && x == BoundQuery(impl, theta, zelf, k, j);
      }
      assert BoundsFrom(impl, theta, zelf, i) == here + BoundsFrom(impl, theta, zelf, i + 1);
      if x in here {
        var j :| 0 <= j < |here| && here[j] == x;
        assert IsBound(impl, i, j) && x == BoundQuery(impl, theta, zelf, i, j);
      }
      if IsBoundQuery(impl, theta, zelf, i, x) {
        var k: nat, j: nat :| i <= k && IsBound(impl, k, j) && x == BoundQuery(impl, theta, zelf, k, j);
        if k == i {
          assert here[j] == x;
        } else {
          assert IsBoundQuery(impl, theta, zelf, i + 1, x);
        }
      }
    }
  }

  lemma {:induction false} AllHoldExact(impls: seq<Impl>, qs: seq<Query>, n: nat)
    ensures AllHold(impls, qs, n) <==> forall x :: x in qs ==> Answer(impls, x, n).Some?
    decreases |qs|
  {
    if qs != [] {
      AllHoldExact(impls, qs[1..], n);
      if AllHold(impls, qs, n) {
        forall x | x in qs ensures Answer(impls, x, n).Some? {
          assert x == qs[0] || x in qs[1..];
        }
      }
      if forall x :: x in qs ==> Answer(impls, x, n).Some? {
        assert qs[0] in qs && Answer(impls, qs[0], n).Some?;
        assert AllHold(impls, qs[1..], n);
      }
    }
  }

  /** Every bound of every template has an answer after n rounds. */
  ghost predicate BoundsMet(impls: seq<Impl>, impl: Impl, theta: seq<TyRef>, q: Query, n: nat)
    requires |theta| == |impl.bounds|
  {
    forall k: nat, j: nat :: IsBound(impl, k, j) ==> Answer(impls, BoundQuery(impl, theta, q.ty, k, j), n).Some?
  }

  lemma BoundsMetExact(impls: seq<Impl>, impl: Impl, theta: seq<TyRef>, q: Query, n: nat)
    requires |theta| == |impl.bounds|
    ensures AllHold(impls, BoundsFrom(impl, theta, q.ty, 0), n) <==> BoundsMet(impls, impl, theta, q, n)
  {
    var qs := BoundsFrom(impl, theta, q.ty, 0);
    AllHoldExact(impls, qs, n);
    if BoundsMet(impls, impl, theta, q, n) {
      forall x | x in qs ensures Answer(impls, x, n).Some? {
        BoundsListed(impl, theta, q.ty, 0, x);
      }
    }
    if AllHold(impls, qs, n) {
      forall k: nat, j: nat | IsBound(impl, k, j)
        ensures Answer(impls, BoundQuery(impl, theta, q.ty, k, j), n).Some?
      {
        BoundsListed(impl, theta, q.ty, 0, BoundQuery(impl, theta, q.ty, k, j));
      }
    }
  }

  ghost predicate InstanceMet(impls: seq<Impl>, impl: Impl, theta: seq<TyRef>, q: Query, n: nat) {
    Instance(impl, theta, q) && BoundsMet(impls, impl, theta, q, n)
  }

  /**
   * An impl applies in a round if and only if some substitution makes it an instance of the query
   * and every bound of every template, so substituted, has an answer by then.
   */
  lemma AppliesExact(impls: seq<Impl>, i: nat, q: Query, n: nat)
    requires i < |impls| && ImplOk(impls[i]) && GroundQuery(q)
    ensures AppliesAt(impls, i, q, n) <==> exists theta :: InstanceMet(impls, impls[i], theta, q, n)
  {
    if SubsFor(impls[i], q).Some? {
      var theta := SubsFor(impls[i], q).value;
      SubsExact(impls[i], q, theta);
      BoundsMetExact(impls, impls[i], theta, q, n);
      assert AppliesAt(impls, i, q, n) ==> InstanceMet(impls, impls[i], theta, q, n);
    }
    forall theta | InstanceMet(impls, impls[i], theta, q, n) ensures AppliesAt(impls, i, q, n) {
      SubsExact(impls[i], q, theta);
      BoundsMetExact(impls, impls[i], theta, q, n);
    }
  }

  // ----- derivations -----

  /** A finite derivation: the impl used, its substitution, and a derivation for each bound of each template. */
  datatype Proof = Proof(impl: nat, theta: seq<TyRef>, premises: seq<Premises>)

  /** Derivations for the bounds of one template. */
  datatype Premises = Premises(proofs: seq<Proof>)

  ghost predicate Proves(impls: seq<Impl>, d: Proof, q: Query)
    decreases d
  {
    && d.impl < |impls| && Instance(impls[d.impl], d.theta, q)
    && |d.premises| == |impls[d.impl].bounds|
    && (forall k :: 0 <= k < |d.premises| ==> |d.premises[k].proofs| == |impls[d.impl].bounds[k]|)
    && forall k: nat, j: nat :: IsBound(impls[d.impl], k, j) ==>
         Proves(impls, d.premises[k].proofs[j], BoundQuery(impls[d.impl], d.theta, q.ty, k, j))
  }

  /** Names for the facts that are claimed of some round or of some derivation. */
  ghost predicate AnswersBy(impls: seq<Impl>, q: Query, n: nat) { Answer(impls, q, n).Some? }

  ghost predicate AppliesBy(impls: seq<Impl>, i: nat, q: Query, n: nat) { i < |impls| && AppliesAt(impls, i, q, n) }

  ghost predicate ProvenBy(impls: seq<Impl>, q: Query, d: Proof) { Proves(impls, d, q) }

  ghost predicate Derivable(impls: seq<Impl>, i: nat, q: Query) {
    exists d: Proof :: d.impl == i && ProvenBy(impls, q, d)
  }

  // ----- the rounds grow -----

  lemma {:induction false} FirstFromExact(impls: seq<Impl>, i: nat, q: Query, n: nat)
    requires i <= |impls|
    ensures var r := FirstFrom(impls, i, q, n);
            if r.None? then forall j :: i <= j < |impls| ==> !AppliesAt(impls, j, q, n)
            else i <= r.value < |impls| && AppliesAt(impls, r.value, q, n) && forall j :: i <= j < r.value ==>
                 !AppliesAt(impls, j, q, n)
    decreases |impls| - i
  {
    if i < |impls| && !AppliesAt(impls, i, q, n) {
      FirstFromExact(impls, i + 1, q, n);
    }
  }

  lemma {:induction false} AppliesGrows(impls: seq<Impl>, i: nat, q: Query, n: nat, n': nat)
    requires i < |impls| && n <= n' && AppliesAt(impls, i, q, n)
    ensures AppliesAt(impls, i, q, n')
    decreases n, 1
  {
    AllHoldGrows(impls, BoundsFrom(impls[i], SubsFor(impls[i], q).value, q.ty, 0), n, n');
  }

  lemma {:induction false} AllHoldGrows(impls: seq<Impl>, qs: seq<Query>, n: nat, n': nat)
    requires n <= n' && AllHold(impls, qs, n)
    ensures AllHold(impls, qs, n')
    decreases n, 0, |qs|
  {
    if qs != [] {
      AllHoldGrows(impls, qs[1..], n, n');
      FirstFromExact(impls, 0, qs[0], n - 1);
      AppliesGrows(impls, Answer(impls, qs[0], n).value, qs[0], n - 1, n' - 1);
      FirstFromExact(impls, 0, qs[0], n' - 1);
    }
  }

  /** An answer never goes away, and can only move to an earlier impl. */
  lemma AnswerGrows(impls: seq<Impl>, q: Query, n: nat, n': nat)
    requires n <= n' && Answer(impls, q, n).Some?
    ensures Answer(impls, q, n').Some? && Answer(impls, q, n').value <= Answer(impls, q, n).value
  {
    FirstFromExact(impls, 0, q, n - 1);
    AppliesGrows(impls, Answer(impls, q, n).value, q, n - 1, n' - 1);
    FirstFromExact(impls, 0, q, n' - 1);
  }

  // ----- rounds and derivations -----

  ghost predicate Provable(impls: seq<Impl>, q: Query) {
    exists d: Proof :: ProvenBy(impls, q, d)
  }

  ghost function SomeProof(impls: seq<Impl>, q: Query): Proof
    requires Provable(impls, q)
  {
    var d: Proof :| ProvenBy(impls, q, d);
    d
  }

  lemma {:induction false} RoundProves(impls: seq<Impl>, i: nat, q: Query, n: nat) returns (d: Proof)
    requires ImplsOk(impls) && GroundQuery(q) && i < |impls| && AppliesAt(impls, i, q, n)
    ensures d.impl == i && Proves(impls, d, q)
    decreases n
  {
    AppliesExact(impls, i, q, n);
    var theta :| InstanceMet(impls, impls[i], theta, q, n);
    forall k: nat, j: nat | IsBound(impls[i], k, j)
      ensures Provable(impls, BoundQuery(impls[i], theta, q.ty, k, j))
    {
      var x := BoundQuery(impls[i], theta, q.ty, k, j);
      BoundGround(impls[i], theta, q, k, j);
      assert Answer(impls, x, n).Some?;
      FirstFromExact(impls, 0, x, n - 1);
      var e := RoundProves(impls, Answer(impls, x, n).value, x, n - 1);
      assert ProvenBy(impls, x, e);
    }
    d := WithProofs(impls, i, theta, q);
  }

  /** A derivation whose premises are chosen among those there are. */
  lemma WithProofs(impls: seq<Impl>, i: nat, theta: seq<TyRef>, q: Query) returns (d: Proof)
    requires i < |impls| && Instance(impls[i], theta, q)
    requires forall k: nat, j: nat :: IsBound(impls[i], k, j) ==>
               Provable(impls, BoundQuery(impls[i], theta, q.ty, k, j))
    ensures d.impl == i && Proves(impls, d, q)
  {
    var impl := impls[i];
    var premises := seq(|impl.bounds|, k requires 0 <= k < |impl.bounds| =>
                        Premises(seq(|impl.bounds[k]|, j requires 0 <= j < |impl.bounds[k]| =>
                                     SomeProof(impls, BoundQuery(impl, theta, q.ty, k, j)))));
    d := Proof(i, theta, premises);
    forall k: nat, j: nat | IsBound(impl, k, j)
      ensures Proves(impls, d.premises[k].proofs[j], BoundQuery(impl, theta, q.ty, k, j))
    {
      assert ProvenBy(impls, BoundQuery(impl, theta, q.ty, k, j), d.premises[k].proofs[j]);
    }
  }

  lemma {:induction false} ProofApplies(impls: seq<Impl>, d: Proof, q: Query) returns (n: nat)
    requires ImplsOk(impls) && GroundQuery(q) && Proves(impls, d, q)
    ensures AppliesAt(impls, d.impl, q, n)
    decreases d, 1, 0
  {
    var impl := impls[d.impl];
    var qs := BoundsFrom(impl, d.theta, q.ty, 0);
    forall x | x in qs ensures IsBoundQuery(impl, d.theta, q.ty, 0, x) {
      BoundsListed(impl, d.theta, q.ty, 0, x);
    }
    n := PremisesHold(impls, d, q, qs);
    SubsExact(impl, q, d.theta);
  }

  /** Some round answers all of these bounds. */
  lemma {:induction false} PremisesHold(impls: seq<Impl>, d: Proof, q: Query, qs: seq<Query>) returns (n: nat)
    requires ImplsOk(impls) && GroundQuery(q) && Proves(impls, d, q)
    requires forall x :: x in qs ==> IsBoundQuery(impls[d.impl], d.theta, q.ty, 0, x)
    ensures AllHold(impls, qs, n)
    decreases d, 0, |qs|
  {
    if qs == [] {
      n := 0;
    } else {
      var impl := impls[d.impl];
      assert qs[0] in qs;
      var k: nat, j: nat :| IsBound(impl, k, j) && qs[0] == BoundQuery(impl, d.theta, q.ty, k, j);
      BoundGround(impl, d.theta, q, k, j);
      var premise := d.premises[k].proofs[j];
      var a := ProofApplies(impls, premise, qs[0]);
      var b := PremisesHold(impls, d, q, qs[1..]);
      n := BothHold(impls, premise.impl, qs, a, b);
    }
  }

  lemma BothHold(impls: seq<Impl>, i: nat, qs: seq<Query>, a: nat, b: nat) returns (n: nat)
    requires i < |impls| && qs != [] && AppliesAt(impls, i, qs[0], a) && AllHold(impls, qs[1..], b)
    ensures AllHold(impls, qs, n)
  {
    n := if a + 1 <= b then b else a + 1;
    AppliesGrows(impls, i, qs[0], a, n - 1);
    FirstFromExact(impls, 0, qs[0], n - 1);
    AllHoldGrows(impls, qs[1..], b, n);
  }

  /** Iterating from "no" finds an answer exactly when there is a finite derivation. */
  lemma AnswersAreDerivations(impls: seq<Impl>, q: Query)
    requires ImplsOk(impls) && GroundQuery(q)
    ensures (exists n: nat :: AnswersBy(impls, q, n)) <==> (exists d :: ProvenBy(impls, q, d))
  {
    if n: nat :| AnswersBy(impls, q, n) {
      FirstFromExact(impls, 0, q, n - 1);
      var d := RoundProves(impls, Answer(impls, q, n).value, q, n - 1);
      assert ProvenBy(impls, q, d);
    }
    if d :| ProvenBy(impls, q, d) {
      var n := ProofApplies(impls, d, q);
      FirstFromExact(impls, 0, q, n);
      assert AnswersBy(impls, q, n + 1);
    }
  }

  // ----- the answer the iteration settles on -----

  ghost function FirstDerivable(impls: seq<Impl>, i: nat, q: Query): Option<nat>
    requires i <= |impls|
    decreases |impls| - i
  {
    if i == |impls| then None
    else if Derivable(impls, i, q) then Some(i)
    else FirstDerivable(impls, i + 1, q)
  }

  lemma DerivableExact(impls: seq<Impl>, i: nat, q: Query)
    requires ImplsOk(impls) && GroundQuery(q) && i < |impls|
    ensures Derivable(impls, i, q) <==> exists n: nat :: AppliesBy(impls, i, q, n)
  {
    if n: nat :| AppliesBy(impls, i, q, n) {
      var d := RoundProves(impls, i, q, n);
      assert ProvenBy(impls, q, d);
    }
    if Derivable(impls, i, q) {
      var d: Proof :| d.impl == i && ProvenBy(impls, q, d);
      var n := ProofApplies(impls, d, q);
      assert AppliesBy(impls, i, q, n);
    }
  }

  lemma {:induction false} SettledFrom(impls: seq<Impl>, i: nat, q: Query) returns (limit: nat)
    requires ImplsOk(impls) && GroundQuery(q) && i <= |impls|
    ensures forall n: nat :: limit <= n ==> FirstFrom(impls, i, q, n) == FirstDerivable(impls, i, q)
    decreases |impls| - i
  {
    if i == |impls| {
      limit := 0;
    } else {
      DerivableExact(impls, i, q);
      if Derivable(impls, i, q) {
        limit :| AppliesBy(impls, i, q, limit);
        forall n: nat | limit <= n ensures FirstFrom(impls, i, q, n) == FirstDerivable(impls, i, q) {
          AppliesGrows(impls, i, q, limit, n);
        }
      } else {
        limit := SettledFrom(impls, i + 1, q);
        forall n: nat | limit <= n ensures FirstFrom(impls, i, q, n) == FirstDerivable(impls, i, q) {
          assert !AppliesBy(impls, i, q, n);
        }
      }
    }
  }

  /**
   * The iteration settles, although the first impl wins in each round: from some round
   * on the answer is the first impl, in order, that heads a finite derivation.
   */
  lemma AnswerSettles(impls: seq<Impl>, q: Query)
    requires ImplsOk(impls) && GroundQuery(q)
    ensures exists limit: nat :: SettledAt(impls, q, limit)
  {
    var limit := SettledFrom(impls, 0, q);
    assert SettledAt(impls, q, limit + 1);
  }

  ghost predicate SettledAt(impls: seq<Impl>, q: Query, limit: nat) {
    forall n: nat :: limit <= n ==> Answer(impls, q, n) == FirstDerivable(impls, 0, q)
  }

  // ----- when the iteration may stop -----

  /** The set contains every bound of every impl that is an instance of one of its queries. */
  ghost predicate DepsClosed(impls: seq<Impl>, qs: iset<Query>) {
    forall q, i, theta :: q in qs && 0 <= i < |impls| && Instance(impls[i], theta, q) ==>
      BoundsIn(impls[i], theta, q, qs)
  }

  ghost predicate BoundsIn(impl: Impl, theta: seq<TyRef>, q: Query, qs: iset<Query>)
    requires |theta| == |impl.bounds|
  {
    forall k: nat, j: nat :: IsBound(impl, k, j) ==> BoundQuery(impl, theta, q.ty, k, j) in qs
  }

  /** No query of the set changes its answer between the two rounds. */
  ghost predicate SameAnswers(impls: seq<Impl>, qs: iset<Query>, n: nat, k: nat) {
    forall q :: q in qs ==> Answer(impls, q, n) == Answer(impls, q, k)
  }

  lemma SameApplies(impls: seq<Impl>, qs: iset<Query>, i: nat, q: Query, n: nat, k: nat)
    requires ImplsOk(impls) && DepsClosed(impls, qs) && SameAnswers(impls, qs, n, k) && i < |impls| && q in qs
    ensures AppliesAt(impls, i, q, n) <==> AppliesAt(impls, i, q, k)
  {
    if SubsFor(impls[i], q).Some? {
      var theta := SubsFor(impls[i], q).value;
      SubsSound(impls[i], q, theta);
      assert BoundsIn(impls[i], theta, q, qs);
      BoundsMetExact(impls, impls[i], theta, q, n);
      BoundsMetExact(impls, impls[i], theta, q, k);
    }
  }

  /** The same impls apply to the query in the two rounds. */
  ghost predicate SameImpls(impls: seq<Impl>, q: Query, n: nat, k: nat) {
    forall i :: 0 <= i < |impls| ==> (AppliesAt(impls, i, q, n) <==> AppliesAt(impls, i, q, k))
  }

  lemma {:induction false} SameFirst(impls: seq<Impl>, i: nat, q: Query, n: nat, k: nat)
    requires SameImpls(impls, q, n, k) && i <= |impls|
    ensures FirstFrom(impls, i, q, n) == FirstFrom(impls, i, q, k)
    decreases |impls| - i
  {
    if i < |impls| {
      SameFirst(impls, i + 1, q, n, k);
    }
  }

  /** Equal rounds are followed by equal rounds. */
  lemma NextSame(impls: seq<Impl>, qs: iset<Query>, n: nat, k: nat)
    requires ImplsOk(impls) && DepsClosed(impls, qs) && SameAnswers(impls, qs, n, k)
    ensures SameAnswers(impls, qs, n + 1, k + 1)
  {
    forall q | q in qs ensures Answer(impls, q, n + 1) == Answer(impls, q, k + 1) {
      forall i | 0 <= i < |impls| ensures AppliesAt(impls, i, q, n) <==> AppliesAt(impls, i, q, k) {
        SameApplies(impls, qs, i, q, n, k);
      }
      SameFirst(impls, 0, q, n, k);
    }
  }

  lemma {:induction false} StaysSame(impls: seq<Impl>, qs: iset<Query>, n: nat, k: nat)
    requires ImplsOk(impls) && DepsClosed(impls, qs) && SameAnswers(impls, qs, n, n + 1) && n <= k
    ensures SameAnswers(impls, qs, n, k) && SameAnswers(impls, qs, k, k + 1)
    decreases k
  {
    if k > n {
      StaysSame(impls, qs, n, k - 1);
      NextSame(impls, qs, k - 1, k);
    }
  }

  /**
   * The engine may stop at the first round that changes no query of a set closed under
   * dependencies: the answers it has then are those the iteration settles on.
   */
  lemma StoppingSettles(impls: seq<Impl>, qs: iset<Query>, n: nat, q: Query)
    requires ImplsOk(impls) && GroundQuery(q) && q in qs
    requires DepsClosed(impls, qs) && SameAnswers(impls, qs, n, n + 1)
    ensures SettledAt(impls, q, n)
  {
    AnswerSettles(impls, q);
    var limit: nat :| SettledAt(impls, q, limit);
    var late := if limit <= n then n else limit;
    StaysSame(impls, qs, n, late);
    forall k: nat | n <= k ensures Answer(impls, q, k) == FirstDerivable(impls, 0, q) {
      StaysSame(impls, qs, n, k);
      assert Answer(impls, q, n) == Answer(impls, q, late);
    }
  }

  // ----- a bound that is not met -----

  /** `impl<T: Show> Show for Box<T>` */
  function BoxImpl(show: nat, box: nat): Impl {
    Impl(Concrete(box, [Param(0)]), [[IRef(show, [])]], Some(IRef(show, [])))
  }

  /** With this impl alone, `Box<Nope>` does not implement `Show`: nothing implements it for `Nope`. */
  lemma BoundRefused(show: nat, box: nat, nope: nat, n: nat)
    requires box != nope
    ensures ImplsOk([BoxImpl(show, box)])
    ensures Answer([BoxImpl(show, box)], Query(Concrete(box, [Concrete(nope, [])]), IRef(show, [])), n) == None
  {
    var (impl, inner) := (BoxImpl(show, box), Concrete(nope, []));
    var q := Query(Concrete(box, [inner]), IRef(show, []));
    BoxImplOk(show, box);
    if n > 0 {
      FirstFromExact([impl], 0, q, n - 1);
      if AppliesAt([impl], 0, q, n - 1) {
        assert Ground(inner) && AllGround([inner]);
        AppliesExact([impl], 0, q, n - 1);
        var theta :| InstanceMet([impl], impl, theta, q, n - 1);
        assert SubAll([Param(0)], theta, ErrorTy)[0] == theta[0];
        assert BoundQuery(impl, theta, q.ty, 0, 0) == Query(inner, IRef(show, []));
        NopeUnanswered(show, box, nope, n - 1);
        assert IsBound(impl, 0, 0);
        assert false;
      }
    }
  }

  lemma BoxImplOk(show: nat, box: nat)
    ensures ImplsOk([BoxImpl(show, box)])
  {
    var impl := BoxImpl(show, box);
    assert Params(impl.implemented) == AllParams([Param(0)]) == {0};
  }

  lemma NopeUnanswered(show: nat, box: nat, nope: nat, n: nat)
    requires box != nope
    ensures Answer([BoxImpl(show, box)], Query(Concrete(nope, []), IRef(show, [])), n) == None
  {
    var (impl, q) := (BoxImpl(show, box), Query(Concrete(nope, []), IRef(show, [])));
    BoxImplOk(show, box);
    if n > 0 {
      FirstFromExact([impl], 0, q, n - 1);
      AppliesExact([impl], 0, q, n - 1);
    }
  }
}
