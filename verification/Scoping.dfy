/** What name resolution and type checking guarantee about a body, and the bindings of a match. */
module Scoping {
  import opened Core
  import opened Patterns
  import opened DecisionTree
  import opened MatchCompiler
  import opened Binders
  import opened MatchCompilerSteps
  import opened MatchCompilerTheorems
  import opened MatchBindings
  import M = Mir
  import opened Thir
  import opened Builder
  import opened Lowering
  import opened LoweringShape
  import opened LoweringSim
  import opened TreeSim

  // ----- binders -----

  ghost function BinderLocals(p: Pattern): seq<nat>
    decreases p, 0
  {
    match p
    case Bind(x) => [x]
    case TuplePat(ps) => AllBinderLocals(ps)
    case StructPat(_, ps) => AllBinderLocals(ps)
    case CtorPat(_, _, ps) => AllBinderLocals(ps)
    case _ => []
  }

  ghost function AllBinderLocals(ps: seq<Pattern>): seq<nat>
    decreases ps, 1
  {
    if ps == [] then [] else BinderLocals(ps[0]) + AllBinderLocals(ps[1..])
  }

  lemma {:induction false} UsesCounted(p: Pattern, x: nat)
    ensures Uses(p, x) == multiset(BinderLocals(p))[x]
    decreases p, 0
  {
    match p
    case TuplePat(ps) => AllUsesCounted(ps, x);
    case StructPat(_, ps) => AllUsesCounted(ps, x);
    case CtorPat(_, _, ps) => AllUsesCounted(ps, x);
    case _ =>
  }

  lemma {:induction false} AllUsesCounted(ps: seq<Pattern>, x: nat)
    ensures UsesAll(ps, x) == multiset(AllBinderLocals(ps))[x]
    decreases ps, 1
  {
    if ps != [] {
      UsesCounted(ps[0], x);
      AllUsesCounted(ps[1..], x);
    }
  }

  lemma {:induction false} DistinctOnce(s: seq<nat>, x: nat)
    requires Distinct(s)
    ensures multiset(s)[x] <= 1
  {
    if s != [] {
      assert s == [s[0]] + s[1..];
      assert s[0] !in s[1..];
      DistinctOnce(s[1..], x);
    }
  }

  /** An arm whose binders are distinct is a linear row. */
  lemma ArmLinear(p: Pattern, i: nat)
    requires Distinct(BinderLocals(p))
    ensures Linear(Row([Some(p)], i, []))
  {
    forall x: nat ensures RowUses(Row([Some(p)], i, []), x) <= 1 {
      UsesCounted(p, x);
      DistinctOnce(BinderLocals(p), x);
      assert CellsUse([Some(p)], x) == Uses(p, x);
    }
  }

  ghost function Firsts(bs: seq<(nat, Value)>): (r: seq<nat>)
    ensures |r| == |bs| && forall i :: 0 <= i < |bs| ==> r[i] == bs[i].0
  {
    seq(|bs|, i requires 0 <= i < |bs| => bs[i].0)
  }

  lemma {:induction false} BindsNames(p: Pattern, v: Value)
    requires Matches(p, v)
    ensures Firsts(Binds(p, v)) == BinderLocals(p)
    decreases p, 0
  {
    match p
    case TuplePat(ps) => BindsAllNames(ps, Parts(p, v).value);
    case StructPat(_, ps) => BindsAllNames(ps, Parts(p, v).value);
    case CtorPat(_, _, ps) => BindsAllNames(ps, Parts(p, v).value);
    case _ =>
  }

  lemma {:induction false} BindsAllNames(ps: seq<Pattern>, vs: seq<Value>)
    requires |ps| == |vs| && forall i :: 0 <= i < |ps| ==> Matches(ps[i], vs[i])
    ensures Firsts(BindsAll(ps, vs)) == AllBinderLocals(ps)
    decreases ps, 1
  {
    if ps != [] {
      BindsNames(ps[0], vs[0]);
      BindsAllNames(ps[1..], vs[1..]);
      assert Firsts(BindsAll(ps, vs)) == Firsts(Binds(ps[0], vs[0])) + Firsts(BindsAll(ps[1..], vs[1..]));
    }
  }

  /** The bindings as a table; with distinct names it holds each of them. */
  ghost function Table(bs: seq<(nat, Value)>): map<nat, Value> {
    if bs == [] then map[] else Table(bs[1..])[bs[0].0 := bs[0].1]
  }

  lemma DistinctTail(bs: seq<(nat, Value)>)
    requires bs != [] && Distinct(Firsts(bs))
    ensures Distinct(Firsts(bs[1..])) && forall e :: e in bs[1..] ==> e.0 != bs[0].0
  {
    var (xs, ys) := (Firsts(bs), Firsts(bs[1..]));
    forall i | 0 <= i < |ys| ensures ys[i] == xs[i + 1] && xs[0] != xs[i + 1] {
    }
    forall e | e in bs[1..] ensures e.0 != bs[0].0 {
      var i :| 0 <= i < |bs[1..]| && bs[1..][i] == e;
      assert ys[i] == e.0;
    }
  }

  lemma {:induction false} TableHolds(bs: seq<(nat, Value)>)
    requires Distinct(Firsts(bs))
    ensures forall e :: e in bs ==> e.0 in Table(bs) && Table(bs)[e.0] == e.1
    ensures forall x :: x in Table(bs) ==> (x, Table(bs)[x]) in bs
  {
    if bs != [] {
      var (first, rest) := (bs[0], bs[1..]);
      DistinctTail(bs);
      TableHolds(rest);
      assert bs == [first] + rest;
      forall e | e in bs ensures e.0 in Table(bs) && Table(bs)[e.0] == e.1 {
        assert e == first || e in rest;
      }
      forall x | x in Table(bs) ensures (x, Table(bs)[x]) in bs {
        if x != first.0 {
          assert (x, Table(rest)[x]) in rest;
        }
      }
    }
  }

  /** A store after binding: the table wins, the rest is as before. */
  ghost predicate Updated(s: M.Store, s': M.Store, table: map<nat, Value>) {
    forall x: nat :: if x in table then x in s' && s'[x] == table[x]
                     else (x in s' <==> x in s) && (x in s ==> s'[x] == s[x])
  }

  lemma {:induction false} BindAllUpdates(bs: seq<(nat, Value)>, s: M.Store, table: map<nat, Value>)
    requires forall e :: e in bs ==> e.0 in table && table[e.0] == e.1
    requires forall x :: x in table ==> (x, table[x]) in bs || (x in s && s[x] == table[x])
    ensures Updated(s, BindAll(bs, s), table)
  {
    if bs == [] {
    } else {
      var s1 := s[bs[0].0 := bs[0].1];
      assert bs[0] in bs && bs == [bs[0]] + bs[1..];
      forall e | e in bs[1..] ensures e.0 in table && table[e.0] == e.1 {
        assert e in bs;
      }
      BindAllUpdates(bs[1..], s1, table);
    }
  }

  lemma {:induction false} AssignedUpdates(bs: seq<Binding>, t: M.Store, local: nat, table: map<nat, Value>)
    requires local in t && BindingsAt(bs, local) && Avoids(bs, local)
    requires forall i :: 0 <= i < |bs| ==>
               bs[i].local in table && Project(t[local], bs[i].place.projs) == Some(table[bs[i].local])
    requires forall x :: x in table ==> (exists i :: 0 <= i < |bs| && bs[i].local == x) || (x in t && t[x] == table[x])
    ensures Updated(t, Assigned(bs, t), table)
    decreases |bs|
  {
    if bs == [] {
    } else {
      var t1 := t[bs[0].local := table[bs[0].local]];
      assert M.ReadPlace(t, bs[0].place) == Some(table[bs[0].local]);
      forall x | x in table
        ensures (exists i :: 0 <= i < |bs[1..]| && bs[1..][i].local == x) || (x in t1 && t1[x] == table[x])
      {
        if x != bs[0].local && !(x in t && t[x] == table[x]) {
          var i :| 0 <= i < |bs| && bs[i].local == x;
          assert bs[1..][i - 1].local == x;
        }
      }
      AssignedUpdates(bs[1..], t1, local, table);
    }
  }

  lemma UpdatedSame(s: M.Store, s': M.Store, t: M.Store, t': M.Store, table: map<nat, Value>, n: nat)
    requires Updated(s, s', table) && Updated(t, t', table) && Same(s, t, n)
    ensures Same(s', t', n)
  {
  }

  // ----- the arms of a match -----

  /**
   * Compiled for a scrutinee of type t, the arms lose no binding, their literals are
   * values of the types they are compared at, and their struct patterns are in order.
   */
  ghost predicate ArmsKept(arms: seq<Arm>, t: Ty)
    requires ArmsTyped(arms, t)
  {
    MatchMatrixOk(Place(0, [], t), arms);
    && Keeps(MatchMatrix(Place(0, [], t), arms))
    && ArmsMeet(arms, t, LiteralsInRange) && ArmsMeet(arms, t, InOrder)
  }

  ghost predicate ArmsMeet(arms: seq<Arm>, t: Ty, demand: Demand) {
    forall i {:trigger arms[i]} :: 0 <= i < |arms| ==> PatOk(arms[i].pat, t, demand)
  }

  lemma ArmRowsMeet(place: Place, arms: seq<Arm>, demand: Demand)
    requires ArmsMeet(arms, place.ty, demand)
    ensures RowsOk(MatchMatrix(place, arms).rows, MatchMatrix(place, arms).cols, demand)
  {
    var m := MatchMatrix(place, arms);
    forall r {:trigger m.rows[r]} | 0 <= r < |m.rows| ensures RowOk(m.rows[r], m.cols, demand) {
      assert PatOk(arms[r].pat, place.ty, demand);
    }
  }

  /** Wherever the scrutinee is. */
  lemma KeptAnywhere(place: Place, arms: seq<Arm>)
    requires ArmsTyped(arms, place.ty) && ArmsKept(arms, place.ty)
    ensures MatrixOk(MatchMatrix(place, arms)) && Keeps(MatchMatrix(place, arms))
    ensures RowsOk(MatchMatrix(place, arms).rows, [place], LiteralsInRange)
    ensures RowsOk(MatchMatrix(place, arms).rows, [place], InOrder)
  {
    var m := MatchMatrix(place, arms);
    MatchMatrixOk(place, arms);
    MatchMatrixOk(Place(0, [], place.ty), arms);
    KeepsAlike(MatchMatrix(Place(0, [], place.ty), arms), m);
    ArmRowsMeet(place, arms, LiteralsInRange);
    ArmRowsMeet(place, arms, InOrder);
  }

  ghost predicate ArmsClashFree(arms: seq<Arm>) {
    forall i, j {:trigger arms[i], arms[j]} :: 0 <= i < j < |arms| ==> !Clash(arms[i].pat, arms[j].pat)
  }

  /** In particular when no arm binds as a whole a tuple that an arm above it destructures. */
  lemma ClashFreeArmsKept(arms: seq<Arm>, t: Ty)
    requires ArmsTyped(arms, t) && ArmsClashFree(arms)
    requires ArmsMeet(arms, t, LiteralsInRange) && ArmsMeet(arms, t, InOrder)
    ensures ArmsKept(arms, t)
  {
    var m := MatchMatrix(Place(0, [], t), arms);
    MatchMatrixOk(Place(0, [], t), arms);
    forall r, s {:trigger m.rows[r], m.rows[s]} | 0 <= r < s < |m.rows| ensures RowsClashFree(m.rows[r], m.rows[s]) {
      assert !Clash(arms[r].pat, arms[s].pat);
    }
    ClashFreeKeeps(m);
  }

  lemma OneCell(p: Pattern, v: Value, b: (nat, Value))
    ensures CellsMatch([Some(p)], [v]) <==> Matches(p, v)
    ensures CellsBind([Some(p)], [v], b) <==> b in Binds(p, v)
  {
    assert CellMatches([Some(p)][0], [v][0]) <==> Matches(p, v);
    assert CellBinds([Some(p)][0], [v][0], b) <==> b in Binds(p, v);
  }

  /** The first matching row of the one-column matrix is the row of the selected arm. */
  lemma {:induction false} FirstIsSelected(place: Place, arms: seq<Arm>, v: Value, k: nat)
    requires k <= |arms|
    ensures var rows := MatchMatrix(place, arms).rows; var i := k + Select(arms[k..], v);
            First(rows[k..], [v]) == if i < |arms| then Some(rows[i]) else None
    decreases |arms| - k
  {
    var rows := MatchMatrix(place, arms).rows;
    if k < |arms| {
      OneCell(arms[k].pat, v, (0, v));
      assert rows[k..][1..] == rows[k + 1..] && arms[k..][1..] == arms[k + 1..];
      FirstIsSelected(place, arms, v, k + 1);
    }
  }

  /** What the walk of a match's tree answers, in terms of its arms. */
  ghost predicate ArmAnswers(o: WalkResult, arms: seq<Arm>, root: Value, v: Value) {
    match o
    case Stuck => false
    case NoMatch => Select(arms, v) == |arms|
    case Matched(branch, bs) =>
      && branch == Select(arms, v) < |arms|
      && MatchCompilerSteps.Readable(bs, root)
      && forall b :: Recorded(bs, root, b) <==> b in Binds(arms[branch].pat, v)
  }

  lemma MatchWalk(place: Place, arms: seq<Arm>, root: Value, v: Value)
    requires MatrixOk(MatchMatrix(place, arms)) && RowsOk(MatchMatrix(place, arms).rows, [place], InOrder)
    requires Keeps(MatchMatrix(place, arms))
    requires Project(root, place.projs) == Some(v) && HasType(v, place.ty)
    ensures ArmAnswers(Walk(Compile(MatchMatrix(place, arms)), root), arms, root, v)
  {
    var m := MatchMatrix(place, arms);
    assert ColsAt(m.cols, root, [v]);
    CompileCorrect(m, root, [v]);
    assert arms[0..] == arms && m.rows[0..] == m.rows;
    FirstIsSelected(place, arms, v, 0);
    forall b {
      NothingDropped(m, root, [v], b);
    }
    var i := Select(arms, v);
    if i < |arms| {
      forall b ensures RowBinds(m.rows[i], root, [v], b) <==> b in Binds(arms[i].pat, v) {
        OneCell(arms[i].pat, v, b);
      }
    }
  }

  /** Without that condition: a binding of the selected arm is missing if and only if it is Dropped. */
  lemma ArmBindingExact(place: Place, arms: seq<Arm>, root: Value, v: Value, b: (nat, Value))
    requires MatrixOk(MatchMatrix(place, arms)) && RowsOk(MatchMatrix(place, arms).rows, [place], InOrder)
    requires ColsAt([place], root, [v])
    requires var i := Select(arms, v);
             i < |arms| && Distinct(BinderLocals(arms[i].pat)) && b in Binds(arms[i].pat, v)
    ensures var o := Walk(Compile(MatchMatrix(place, arms)), root);
            && o.Matched? && o.branch == Select(arms, v)
            && (!Recorded(o.bindings, root, b) <==> Dropped(MatchMatrix(place, arms), root, [v], b))
            && (Dropped(MatchMatrix(place, arms), root, [v], b) ==>
                  forall e :: Recorded(o.bindings, root, e) ==> e.0 != b.0)
  {
    var m := MatchMatrix(place, arms);
    var i := Select(arms, v);
    assert arms[0..] == arms && m.rows[0..] == m.rows;
    FirstIsSelected(place, arms, v, 0);
    OneCell(arms[i].pat, v, b);
    ArmLinear(arms[i].pat, i);
    CompileCorrect(m, root, [v]);
    DroppedExact(m, root, [v], m.rows[i], b);
  }

  /** The branch is entered with the store that naive matching prepares. */
  lemma BranchStore(arms: seq<Arm>, v: Value, bs: seq<Binding>, local: nat, s: M.Store, pre: M.Store, users: nat)
    requires var i := Select(arms, v);
             i < |arms| && Distinct(BinderLocals(arms[i].pat)) && local !in BinderLocals(arms[i].pat)
    requires local in pre && BindingsAt(bs, local) && MatchCompilerSteps.Readable(bs, pre[local])
    requires forall b :: Recorded(bs, pre[local], b) <==> b in Binds(arms[Select(arms, v)].pat, v)
    requires Same(s, pre, users)
    ensures Avoids(bs, local)
    ensures Same(BindAll(Binds(arms[Select(arms, v)].pat, v), s), Assigned(bs, pre), users)
  {
    var p := arms[Select(arms, v)].pat;
    var binds := Binds(p, v);
    var table := Table(binds);
    BindsNames(p, v);
    TableHolds(binds);
    forall i | 0 <= i < |bs|
      ensures bs[i].local != local && bs[i].local in table
              && Project(pre[local], bs[i].place.projs) == Some(table[bs[i].local])
    {
      var e := (bs[i].local, Project(pre[local], bs[i].place.projs).value);
      assert Denotes(bs[i], pre[local], e);
      assert e in binds;
      var j :| 0 <= j < |binds| && binds[j] == e;
      assert BinderLocals(p)[j] == e.0;
    }
    forall x | x in table ensures exists i :: 0 <= i < |bs| && bs[i].local == x {
      assert Recorded(bs, pre[local], (x, table[x]));
      var i :| 0 <= i < |bs| && Denotes(bs[i], pre[local], (x, table[x]));
    }
    BindAllUpdates(binds, s, table);
    AssignedUpdates(bs, pre, local, table);
    UpdatedSame(s, BindAll(binds, s), pre, Assigned(bs, pre), table, users);
  }

  // ----- well-scoped statements -----

  ghost predicate ArmScoped(a: Arm, scrut: Expr, users: nat) {
    && Distinct(BinderLocals(a.pat))
    && (forall i :: 0 <= i < |BinderLocals(a.pat)| ==> BinderLocals(a.pat)[i] < users)
    && (scrut.Use? ==> scrut.place.local !in BinderLocals(a.pat))
  }

  /**
   * Locals are the function's own, breaks and continues target an enclosing loop,
   * and nested loops have different scopes.
   */
  ghost predicate Scoped(st: Stmt, users: nat, active: set<nat>)
    decreases st, 0
  {
    match st
    case Body(stmts) => AllScoped(stmts, users, active)
    case If(cond, thn, els) =>
      && AllScoped(cond.stmts, users, active) && ExprIn(cond.expr, users)
      && AllScoped(thn, users, active) && (els.Else? ==> AllScoped(els.stmts, users, active))
    case While(scope, cond, body) =>
      && scope !in active
      && AllScoped(cond.stmts, users, active + {scope}) && ExprIn(cond.expr, users)
      && AllScoped(body, users, active + {scope})
    case Let(x, init) => x < users && ExprIn(init, users)
    case Assign(p, rhs) => p.local < users && ExprIn(rhs, users)
    case ReturnS(v) => v.Some? ==> ExprIn(v.value, users)
    case Break(scope) => scope in active
    case Continue(scope) => scope in active
    case Match(scrut, arms) =>
      && AllScoped(scrut.stmts, users, active) && ExprIn(scrut.expr, users)
      && forall i {:trigger arms[i]} :: 0 <= i < |arms| ==>
           ArmScoped(arms[i], scrut.expr, users) && AllScoped(arms[i].body, users, active)
    case ExprS(e) => ExprIn(e, users)
    case ErrorS => true
  }

  ghost predicate AllScoped(stmts: seq<Stmt>, users: nat, active: set<nat>)
    decreases stmts, 1
  {
    forall i {:trigger stmts[i]} :: 0 <= i < |stmts| ==> Scoped(stmts[i], users, active)
  }

  /** Every match of the body loses no binding and confuses no literal. */
  ghost predicate Kept(st: Stmt)
    requires Typed(st)
    decreases st, 0
  {
    match st
    case Body(stmts) => AllKept(stmts)
    case If(cond, thn, els) => AllKept(cond.stmts) && AllKept(thn) && (els.Else? ==> AllKept(els.stmts))
    case While(_, cond, body) => AllKept(cond.stmts) && AllKept(body)
    case Match(scrut, arms) =>
      && AllKept(scrut.stmts) && ArmsKept(arms, TypeOf(scrut.expr))
      && forall i {:trigger arms[i]} :: 0 <= i < |arms| ==> AllKept(arms[i].body)
    case _ => true
  }

  ghost predicate AllKept(stmts: seq<Stmt>)
    requires AllTyped(stmts)
    decreases stmts, 1
  {
    forall i {:trigger stmts[i]} :: 0 <= i < |stmts| ==> Kept(stmts[i])
  }

  // ----- the loops in force are not overwritten -----

  ghost predicate LoopsKept(l: Low, l': Low, active: set<nat>) {
    forall sc :: sc in active && sc in l.begins && sc in l.ends ==>
      sc in l'.begins && l'.begins[sc] == l.begins[sc] && sc in l'.ends && l'.ends[sc] == l.ends[sc]
  }

  lemma {:induction false} StmtsKeepLoops(env: Env, l: Low, stmts: seq<Stmt>, users: nat, active: set<nat>)
    requires AllTyped(stmts) && AllScoped(stmts, users, active) && BuildStmts(env, l, stmts).Some?
    ensures LoopsKept(l, BuildStmts(env, l, stmts).value, active)
    decreases stmts, 1
  {
    if stmts != [] {
      assert Typed(stmts[0]) && Scoped(stmts[0], users, active);
      StmtKeepsLoops(env, l, stmts[0], users, active);
      StmtsKeepLoops(env, BuildStmt(env, l, stmts[0]).value, stmts[1..], users, active);
    }
  }

  lemma {:induction false} SetupKeepsLoops(env: Env, l: Low, s: Setup, users: nat, active: set<nat>)
    requires AllTyped(s.stmts) && AllScoped(s.stmts, users, active) && BuildSetup(env, l, s).Some?
    ensures LoopsKept(l, BuildSetup(env, l, s).value.0, active)
    decreases s, 1
  {
    StmtsKeepLoops(env, l, s.stmts, users, active);
  }

  lemma {:induction false} IntoKeepsLoops(env: Env, l: Low, start: nat, stmts: seq<Stmt>, next: nat, users: nat,
                                          active: set<nat>)
    requires AllTyped(stmts) && AllScoped(stmts, users, active) && BuildInto(env, l, start, stmts, next).Some?
    ensures LoopsKept(l, BuildInto(env, l, start, stmts, next).value, active)
    decreases stmts, 2
  {
    StmtsKeepLoops(env, l.(b := SwitchTo(l.b, start).value), stmts, users, active);
  }

  lemma {:induction false} ArmsKeepLoops(env: Env, l: Low, arms: seq<Arm>, bbs: seq<nat>, merge: nat, users: nat,
                                         active: set<nat>)
    requires |bbs| == |arms|
    requires forall i {:trigger arms[i]} :: 0 <= i < |arms| ==>
               AllTyped(arms[i].body) && AllScoped(arms[i].body, users, active)
    requires BuildArms(env, l, arms, bbs, merge).Some?
    ensures LoopsKept(l, BuildArms(env, l, arms, bbs, merge).value, active)
    decreases arms, 1
  {
    if arms != [] {
      IntoKeepsLoops(env, l, bbs[0], arms[0].body, merge, users, active);
      ArmsKeepLoops(env, BuildInto(env, l, bbs[0], arms[0].body, merge).value, arms[1..], bbs[1..], merge, users,
                    active);
    }
  }

  lemma {:induction false} StmtKeepsLoops(env: Env, l: Low, st: Stmt, users: nat, active: set<nat>)
    requires Typed(st) && Scoped(st, users, active) && BuildStmt(env, l, st).Some?
    ensures LoopsKept(l, BuildStmt(env, l, st).value, active)
    decreases st, 4
  {
    match st
    case Body(stmts) => StmtsKeepLoops(env, l, stmts, users, active);
    case If(_, _, _) => IfKeepsLoops(env, l, st, users, active);
    case While(_, _, _) => WhileKeepsLoops(env, l, st, users, active);
    case Match(_, _) => MatchKeepsLoops(env, l, st, users, active);
    case _ =>
  }

  lemma {:induction false} IfKeepsLoops(env: Env, l: Low, st: Stmt, users: nat, active: set<nat>)
    requires st.If? && Typed(st) && Scoped(st, users, active) && BuildIf(env, l, st).Some?
    ensures LoopsKept(l, BuildIf(env, l, st).value, active)
    decreases st, 1
  {
    var l1, o, b3, l4, l5, b6 := BuildIfSteps(env, l, st);
    SetupKeepsLoops(env, l, st.cond, users, active);
    if st.els.Else? {
      IntoKeepsLoops(env, l1.(b := b3), |l1.b.blocks| + 2, st.els.stmts, |l1.b.blocks| + 1, users, active);
    }
    IntoKeepsLoops(env, l4, |l1.b.blocks|, st.thn, |l1.b.blocks| + 1, users, active);
  }

  lemma {:induction false} WhileKeepsLoops(env: Env, l: Low, st: Stmt, users: nat, active: set<nat>)
    requires st.While? && Typed(st) && Scoped(st, users, active) && BuildWhile(env, l, st).Some?
    ensures LoopsKept(l, BuildWhile(env, l, st).value, active)
    decreases st, 1
  {
    var l2, l3, o, b4, l5, b6 := BuildWhileSteps(env, l, st);
    SetupKeepsLoops(env, l2, st.cond, users, active + {st.scope});
    IntoKeepsLoops(env, l3.(b := b4), |l.b.blocks| + 1, st.body, |l.b.blocks|, users, active + {st.scope});
  }

  lemma {:induction false} MatchKeepsLoops(env: Env, l: Low, st: Stmt, users: nat, active: set<nat>)
    requires st.Match? && Typed(st) && Scoped(st, users, active) && BuildMatch(env, l, st).Some?
    ensures LoopsKept(l, BuildMatch(env, l, st).value, active)
    decreases st, 1
  {
    var l1, o, b2, place, tree, b4, l5, b7, b8 := BuildMatchSteps(env, l, st);
    SetupKeepsLoops(env, l, st.scrut, users, active);
    ArmsKeepLoops(env, l1.(b := b4), st.arms, BlockIds(|b2.blocks| + 1, |st.arms|), |b2.blocks|, users, active);
  }
}
