/** Running the blocks of a body executes the body. */
module BodySim {
  import opened Core
  import M = Mir
  import opened Thir
  import opened Builder
  import opened Lowering
  import opened LoweringShape
  import opened LoweringSim
  import opened Scoping
  import opened StmtSim
  import opened LoopSim
  import opened MatchSim
  import opened IfSim
  import opened BodyFacts

  // ----- sequences -----

  lemma {:induction false} SimStmts(w: World, l: Low, stmts: seq<Stmt>, l': Low, s: M.Store, t: M.Store,
                                    active: set<nat>, fuel: nat)
    returns (n: nat, c: M.Config)
    requires AllTyped(stmts) && AllKept(stmts) && AllScoped(stmts, w.users, active) && !Closed(l.b)
    requires BuildStmts(w.env, l, stmts) == Some(l') && Start(w, l, l'.b, s, t, active)
    ensures M.Run(w.g, w.m, Pos(l.b, t), n) == c
    ensures StmtPost(w, ExecAll(w.m, stmts, s, fuel), l, l', active, fuel, n, c)
    decreases fuel, stmts, 1
  {
    if stmts == [] {
      n, c := 0, Pos(l.b, t);
    } else {
      HeadParts(stmts, w.users, active);
      var l1 := StmtsSplit(w, l, stmts, l', active);
      n, c := SimStmt(w, l, stmts[0], l1, s, t, active, fuel);
      var r := Exec(w.m, stmts[0], s, fuel);
      if r.exit == Normal {
        var k, c2 := SimOthers(w, l1, stmts, l', r.store, c.store, active, fuel);
        StmtsGoOn(w, l, stmts, l1, l', s, Pos(l.b, t), n, c, k, c2, active, fuel);
        n, c := n + k, c2;
      }
    }
  }

  lemma {:induction false} SimOthers(w: World, l1: Low, stmts: seq<Stmt>, l': Low, s: M.Store, t: M.Store,
                                     active: set<nat>, fuel: nat)
    returns (n: nat, c: M.Config)
    requires stmts != [] && AllTyped(stmts) && AllKept(stmts) && AllScoped(stmts, w.users, active) && !Closed(l1.b)
    requires AllTyped(stmts[1..]) && BuildStmts(w.env, l1, stmts[1..]) == Some(l') && Start(w, l1, l'.b, s, t, active)
    ensures M.Run(w.g, w.m, Pos(l1.b, t), n) == c
    ensures StmtPost(w, ExecAll(w.m, stmts[1..], s, fuel), l1, l', active, fuel, n, c)
    decreases fuel, stmts, 0
  {
    StmtsParts(stmts, w.users, active);
    n, c := SimStmts(w, l1, stmts[1..], l', s, t, active, fuel);
  }

  lemma HeadParts(stmts: seq<Stmt>, users: nat, active: set<nat>)
    requires stmts != [] && AllTyped(stmts) && AllKept(stmts) && AllScoped(stmts, users, active)
    ensures Typed(stmts[0]) && Kept(stmts[0]) && Scoped(stmts[0], users, active)
  {
  }

  lemma StmtsParts(stmts: seq<Stmt>, users: nat, active: set<nat>)
    requires stmts != [] && AllTyped(stmts) && AllKept(stmts) && AllScoped(stmts, users, active)
    ensures AllTyped(stmts[1..]) && AllKept(stmts[1..]) && AllScoped(stmts[1..], users, active)
  {
  }

  /** The first statement fell through, and the others ran. */
  lemma StmtsGoOn(w: World, l: Low, stmts: seq<Stmt>, l1: Low, l': Low, s: M.Store, start: M.Config, n: nat,
                  c: M.Config, k: nat, c2: M.Config, active: set<nat>, fuel: nat)
    requires stmts != [] && Exec(w.m, stmts[0], s, fuel).exit == Normal
    requires M.Run(w.g, w.m, start, n) == c && M.Run(w.g, w.m, c, k) == c2
    requires LoopsKept(l, l1, active) && LoopsFor(l, active)
    requires StmtPost(w, ExecAll(w.m, stmts[1..], Exec(w.m, stmts[0], s, fuel).store, fuel), l1, l', active, fuel, k,
                      c2)
    ensures M.Run(w.g, w.m, start, n + k) == c2
    ensures StmtPost(w, ExecAll(w.m, stmts, s, fuel), l, l', active, fuel, n + k, c2)
  {
    Chain(w, start, n, c, k, c2);
    OutcomeLater(w, ExecAll(w.m, stmts[1..], Exec(w.m, stmts[0], s, fuel).store, fuel), l, l1, l', active, fuel, k,
                 n + k, c2);
  }

  /** Statements, then the value they prepare. */
  lemma {:induction false} SimSetup(w: World, l: Low, st: Setup, l': Low, o: M.Operand, s: M.Store, t: M.Store,
                                    active: set<nat>, fuel: nat)
    returns (n: nat, c: M.Config)
    requires AllTyped(st.stmts) && AllKept(st.stmts) && AllScoped(st.stmts, w.users, active) && ExprIn(st.expr, w.users)
             && !Closed(l.b)
    requires BuildSetup(w.env, l, st) == Some((l', o)) && Start(w, l, l'.b, s, t, active)
    ensures M.Run(w.g, w.m, Pos(l.b, t), n) == c
    ensures SetupPost(w, ExecAll(w.m, st.stmts, s, fuel), st.expr, l, l', o, active, fuel, n, c)
    decreases fuel, st, 1
  {
    var l1 := BuildStmts(w.env, l, st.stmts).value;
    BuildStmtsSeg(w.env, l, st.stmts);
    BuildOperandSeg(w.env, l1.b, st.expr);
    FitsBack(l1.b, l'.b, w.g);
    n, c := SimStmts(w, l, st.stmts, l1, s, t, active, fuel);
    var r := ExecAll(w.m, st.stmts, s, fuel);
    if r.exit == Normal {
      var k, c2 := SimOperand(w, l1.b, st.expr, l'.b, o, r.store, c.store);
      Chain(w, Pos(l.b, t), n, c, k, c2);
      SetupDone(w, r, st.expr, l, l1, l', o, active, fuel, c.store, n + k, c2);
      n, c := n + k, c2;
    }
  }

  /** A body in a block of its own, from the start of that block to the start of the next. */
  lemma {:induction false} SimInto(w: World, l: Low, start: nat, stmts: seq<Stmt>, next: nat, l': Low, s: M.Store,
                                   t: M.Store, active: set<nat>, fuel: nat)
    returns (n: nat, c: M.Config)
    requires AllTyped(stmts) && AllKept(stmts) && AllScoped(stmts, w.users, active)
    requires BuildInto(w.env, l, start, stmts, next) == Some(l') && IntoReady(w, l, start, next, l'.b, s, t, active)
    ensures M.Run(w.g, w.m, M.At(start, 0, t), n) == c
    ensures IntoPost(w, ExecAll(w.m, stmts, s, fuel), l, active, fuel, next, n, c)
    decreases fuel, stmts, 2
  {
    var l0 := l.(b := SwitchTo(l.b, start).value);
    var l1 := BuildStmts(w.env, l0, stmts).value;
    IntoStatic(w.env, l, start, stmts, next, l', w.g, l0, l1);
    n, c := SimStmts(w, l0, stmts, l1, s, t, active, fuel);
    assert Pos(l0.b, t) == M.At(start, 0, t);
    n, c := IntoEnds(w, ExecAll(w.m, stmts, s, fuel), l, l0, l1, l'.b, next, M.At(start, 0, t), n, c, active, fuel);
  }

  // ----- conditionals -----

  lemma {:induction false} SimIf(w: World, l: Low, st: Stmt, l': Low, s: M.Store, t: M.Store, active: set<nat>,
                                 fuel: nat)
    returns (n: nat, c: M.Config)
    requires st.If? && Typed(st) && Kept(st) && Scoped(st, w.users, active) && !Closed(l.b)
    requires BuildIf(w.env, l, st) == Some(l') && Start(w, l, l'.b, s, t, active)
    ensures M.Run(w.g, w.m, Pos(l.b, t), n) == c
    ensures StmtPost(w, Exec(w.m, st, s, fuel), l, l', active, fuel, n, c)
    decreases fuel, st, 2
  {
    var l1, o := SimIfParts(w, l, st, l', active, fuel);
    n, c := SimSetup(w, l, st.cond, l1, o, s, t, active, fuel);
    n, c := SimIfFrom(w, st, l, l1, o, l', Pos(l.b, t), n, c, s, active, fuel);
  }

  /** How the arms of a lowered conditional run. */
  lemma {:induction false} SimIfParts(w: World, l: Low, st: Stmt, l': Low, active: set<nat>, fuel: nat)
    returns (l1: Low, o: M.Operand)
    requires st.If? && Typed(st) && Kept(st) && Scoped(st, w.users, active) && LowWf(l) && w.users <= |l.b.locals|
             && LoopsFor(l, active)
    requires BuildIf(w.env, l, st) == Some(l') && Fits(l'.b, w.g)
    ensures BuildSetup(w.env, l, st.cond) == Some((l1, o)) && Fits(l1.b, w.g)
    ensures IfParts(w, st, l, l1.b, o, l', |l1.b.blocks|, |l1.b.blocks| + 1, |l1.b.blocks| + 2, active, fuel)
    decreases fuel, st, 1
  {
    var b3, l4, l5;
    l1, o, b3, l4, l5 := IfPlan(w, l, st, l', active);
    var (thn, merge, els) := (|l1.b.blocks|, |l1.b.blocks| + 1, |l1.b.blocks| + 2);
    SimAllParts(w, l, l4, thn, st.thn, merge, l5, active, fuel);
    if st.els.Else? {
      SimAllParts(w, l, l1.(b := b3), els, st.els.stmts, merge, l4, active, fuel);
    }
  }

  /** A part of a statement, from any stores that agree. */
  lemma {:induction false} SimAllParts(w: World, l: Low, l4: Low, entry: nat, stmts: seq<Stmt>, next: nat, l5: Low,
                                       active: set<nat>, fuel: nat)
    requires AllTyped(stmts) && AllKept(stmts) && AllScoped(stmts, w.users, active)
    requires BuildInto(w.env, l4, entry, stmts, next) == Some(l5) && PartReady(w, l, l4, entry, next, l5.b, active)
    ensures AllRuns(w, stmts, l, entry, next, active, fuel)
    decreases fuel, stmts, 3
  {
    forall s, t | Same(s, t, w.users) ensures PartRuns(w, stmts, l, entry, next, active, fuel, s, t) {
      var n, c := SimInto(w, l4, entry, stmts, next, l5, s, t, active, fuel);
      IntoLater(w, ExecAll(w.m, stmts, s, fuel), l, l4, active, fuel, next, n, n, c);
    }
  }

  // ----- loops -----

  lemma {:induction false} SimWhile(w: World, l: Low, st: Stmt, l': Low, s: M.Store, t: M.Store, active: set<nat>,
                                    fuel: nat)
    returns (n: nat, c: M.Config)
    requires st.While? && Typed(st) && Kept(st) && Scoped(st, w.users, active) && !Closed(l.b)
    requires BuildWhile(w.env, l, st) == Some(l') && Start(w, l, l'.b, s, t, active)
    ensures M.Run(w.g, w.m, Pos(l.b, t), n) == c
    ensures StmtPost(w, Exec(w.m, st, s, fuel), l, l', active, fuel, n, c)
    decreases fuel, st, 2
  {
    var l2, l3, o, b4, l5, b6 := BuildWhileSteps(w.env, l, st);
    WhileStatic(w, l, st, l2, l3, o, b4, l5, b6, active);
    EnterLoop(w, l, st, l2, l3, t);
    SimLoopParts(w, l, st, l2, l3, o, b4, l5, l', active, fuel);
    n, c := SimLoop(w, l, st, l2, l3, o, l', s, t, active, fuel);
    Chain(w, Pos(l.b, t), 1, M.At(|l.b.blocks|, 0, t), n, c);
    MoreSteps(w, Exec(w.m, st, s, fuel), l, l', active, fuel, n, 1 + n, c);
    n := 1 + n;
  }

  lemma EnterLoop(w: World, l: Low, st: Stmt, l2: Low, l3: Low, t: M.Store)
    requires st.While? && LowWf(l) && LoopHead(l, st.scope, l2) && LowWf(l2) && Grow(l2.b, l3.b) && Fits(l3.b, w.g)
    ensures M.Run(w.g, w.m, Pos(l.b, t), 1) == M.At(|l.b.blocks|, 0, t)
  {
    var b1 := Goto(NewBlocks(l.b, 3), |l.b.blocks|).value;
    FitsBack(l2.b, l3.b, w.g);
    ForkKeeps(l.b, 3, M.Goto(|l.b.blocks|), b1);
    SwitchKeeps(b1, |l.b.blocks|);
    FitsBack(b1, l2.b, w.g);
    ForkStep(w, l.b, 3, M.Goto(|l.b.blocks|), b1, t);
  }

  /** How the parts of a loop run. */
  lemma {:induction false} SimLoopParts(w: World, l: Low, st: Stmt, l2: Low, l3: Low, o: M.Operand, b4: State, l5: Low,
                                        l': Low, active: set<nat>, fuel: nat)
    requires st.While? && Typed(st) && Kept(st) && Scoped(st, w.users, active)
    requires LoopEnds(l, st, l2, l', active) && BranchesTo(w, l3.b, o, |l.b.blocks| + 1, |l.b.blocks| + 2)
    requires BuildSetup(w.env, l2, st.cond) == Some((l3, o))
             && TestReady(w, l2, l3.b, |l.b.blocks|, active + {st.scope})
    requires BuildInto(w.env, l3.(b := b4), |l.b.blocks| + 1, st.body, |l.b.blocks|) == Some(l5)
    requires LoopsKept(l2, l3, active + {st.scope})
    requires LoopBodyReady(w, l3.(b := b4), |l.b.blocks|, l5.b, active + {st.scope})
    ensures LoopParts(w, l, st, l2, l3, o, l', active, fuel)
    decreases fuel, st, 1
  {
    var (head, inner) := (|l.b.blocks|, active + {st.scope});
    forall s, t, f: nat | f <= fuel && Same(s, t, w.users) ensures TestRuns(w, st, head, l2, l3, o, inner, f, s, t) {
      var n, c := SimLoopTest(w, st, head, l2, l3, o, s, t, inner, f);
    }
    forall s, t, f: nat | f <= fuel && Same(s, t, w.users) ensures BodyRuns(w, st, head, l2, inner, f, s, t) {
      var n, c := SimLoopBody(w, st, head, l2, l3, b4, l5, s, t, inner, f);
      assert BodyRun(w, head, t, n) == c;
    }
  }

  lemma {:induction false} SimLoopTest(w: World, st: Stmt, head: nat, l2: Low, l3: Low, o: M.Operand, s: M.Store,
                                       t: M.Store, inner: set<nat>, fuel: nat)
    returns (n: nat, c: M.Config)
    requires st.While? && AllTyped(st.cond.stmts) && AllKept(st.cond.stmts) && AllScoped(st.cond.stmts, w.users, inner)
             && ExprIn(st.cond.expr, w.users)
    requires BuildSetup(w.env, l2, st.cond) == Some((l3, o)) && TestReady(w, l2, l3.b, head, inner)
             && Same(s, t, w.users)
    ensures M.Run(w.g, w.m, M.At(head, 0, t), n) == c
    ensures SetupPost(w, ExecAll(w.m, st.cond.stmts, s, fuel), st.cond.expr, l2, l3, o, inner, fuel, n, c)
    decreases fuel, st, 0
  {
    assert Pos(l2.b, t) == M.At(head, 0, t);
    n, c := SimSetup(w, l2, st.cond, l3, o, s, t, inner, fuel);
  }

  lemma {:induction false} SimLoopBody(w: World, st: Stmt, head: nat, l2: Low, l3: Low, b4: State, l5: Low, s: M.Store,
                                       t: M.Store, inner: set<nat>, fuel: nat)
    returns (n: nat, c: M.Config)
    requires st.While? && AllTyped(st.body) && AllKept(st.body) && AllScoped(st.body, w.users, inner)
             && Same(s, t, w.users)
    requires BuildInto(w.env, l3.(b := b4), head + 1, st.body, head) == Some(l5)
    requires LoopBodyReady(w, l3.(b := b4), head, l5.b, inner) && LoopsFor(l2, inner) && LoopsKept(l2, l3, inner)
    ensures M.Run(w.g, w.m, M.At(head + 1, 0, t), n) == c
    ensures IntoPost(w, ExecAll(w.m, st.body, s, fuel), l2, inner, fuel, head, n, c)
    decreases fuel, st, 0
  {
    n, c := SimInto(w, l3.(b := b4), head + 1, st.body, head, l5, s, t, inner, fuel);
    IntoLater(w, ExecAll(w.m, st.body, s, fuel), l2, l3.(b := b4), inner, fuel, head, n, n, c);
  }

  // ----- matches -----

  lemma {:induction false} SimArms(w: World, l: Low, arms: seq<Arm>, bbs: seq<nat>, merge: nat, l': Low, i: nat,
                                   s: M.Store, t: M.Store, active: set<nat>, fuel: nat)
    returns (n: nat, c: M.Config)
    requires |bbs| == |arms| && i < |arms| && Distinct(bbs) && IdsIn(bbs, |l.b.blocks|) && merge < |l.b.blocks|
    requires forall j {:trigger arms[j]} :: 0 <= j < |arms| ==>
               AllTyped(arms[j].body) && AllKept(arms[j].body) && AllScoped(arms[j].body, w.users, active)
    requires forall j :: 0 <= j < |bbs| ==> l.b.blocks[bbs[j]] == EMPTY_BLOCK
    requires BuildArms(w.env, l, arms, bbs, merge) == Some(l') && Start(w, l, l'.b, s, t, active)
    ensures M.Run(w.g, w.m, M.At(bbs[i], 0, t), n) == c
    ensures IntoPost(w, ExecAll(w.m, arms[i].body, s, fuel), l, active, fuel, merge, n, c)
    decreases fuel, arms, 1
  {
    var l1 := BuildInto(w.env, l, bbs[0], arms[0].body, merge).value;
    ArmsSplit(w, l, arms, bbs, merge, l1, l', active);
    if i == 0 {
      n, c := SimInto(w, l, bbs[0], arms[0].body, merge, l1, s, t, active, fuel);
    } else {
      n, c := SimArms(w, l1, arms[1..], bbs[1..], merge, l', i - 1, s, t, active, fuel);
      assert arms[1..][i - 1] == arms[i] && bbs[1..][i - 1] == bbs[i];
      IntoLater(w, ExecAll(w.m, arms[i].body, s, fuel), l, l1, active, fuel, merge, n, n, c);
    }
  }

  lemma {:induction false} SimMatch(w: World, l: Low, st: Stmt, l': Low, s: M.Store, t: M.Store, active: set<nat>,
                                    fuel: nat)
    returns (n: nat, c: M.Config)
    requires st.Match? && Typed(st) && Kept(st) && Scoped(st, w.users, active) && !Closed(l.b)
    requires BuildMatch(w.env, l, st) == Some(l') && Start(w, l, l'.b, s, t, active)
    ensures M.Run(w.g, w.m, Pos(l.b, t), n) == c
    ensures StmtPost(w, Exec(w.m, st, s, fuel), l, l', active, fuel, n, c)
    decreases fuel, st, 3
  {
    var l1, o, merge, l4, l5 := MatchPlan(w, l, st, l', active);
    SimAllArms(w, l, st, l4, merge, l5, active, fuel);
    n, c := SimSetup(w, l, st.scrut, l1, o, s, t, active, fuel);
    n, c := SimMatchFrom(w, l, st, l', l1, o, merge, Pos(l.b, t), n, c, s, active, fuel);
  }

  lemma {:induction false} SimAllArms(w: World, l: Low, st: Stmt, l4: Low, merge: nat, l5: Low, active: set<nat>,
                                      fuel: nat)
    requires st.Match? && Typed(st) && Kept(st) && Scoped(st, w.users, active)
    requires BuildArms(w.env, l4, st.arms, BlockIds(merge + 1, |st.arms|), merge) == Some(l5)
    requires ArmsReady(w, l4, |st.arms|, merge, l5.b, active) && LoopsFor(l, active) && LoopsKept(l, l4, active)
    ensures AllArmsRun(w, st.arms, l, merge, active, fuel)
    decreases fuel, st, 1
  {
    forall i: nat, s, t | i < |st.arms| && Same(s, t, w.users)
      ensures ArmRuns(w, st.arms, l, merge, active, fuel, i, s, t)
    {
      SimArm(w, l, st, l4, merge, l5, i, s, t, active, fuel);
    }
  }

  lemma {:induction false} SimArm(w: World, l: Low, st: Stmt, l4: Low, merge: nat, l5: Low, i: nat, s: M.Store,
                                  t: M.Store, active: set<nat>, fuel: nat)
    requires st.Match? && Typed(st) && Kept(st) && Scoped(st, w.users, active) && i < |st.arms| && Same(s, t, w.users)
    requires BuildArms(w.env, l4, st.arms, BlockIds(merge + 1, |st.arms|), merge) == Some(l5)
    requires ArmsReady(w, l4, |st.arms|, merge, l5.b, active) && LoopsFor(l, active) && LoopsKept(l, l4, active)
    ensures ArmRuns(w, st.arms, l, merge, active, fuel, i, s, t)
    decreases fuel, st, 0
  {
    var bbs := BlockIds(merge + 1, |st.arms|);
    ArmsStart(w, l4, |st.arms|, merge, bbs, l5.b, active, s, t);
    var n, c := SimArms(w, l4, st.arms, bbs, merge, l5, i, s, t, active, fuel);
    IntoLater(w, ExecAll(w.m, st.arms[i].body, s, fuel), l, l4, active, fuel, merge, n, n, c);
    assert BranchRun(w, merge, i, t, n) == c;
  }

  lemma {:induction false} SimStmt(w: World, l: Low, st: Stmt, l': Low, s: M.Store, t: M.Store, active: set<nat>,
                                   fuel: nat)
    returns (n: nat, c: M.Config)
    requires Typed(st) && Kept(st) && Scoped(st, w.users, active) && !Closed(l.b)
    requires BuildStmt(w.env, l, st) == Some(l') && Start(w, l, l'.b, s, t, active)
    ensures M.Run(w.g, w.m, Pos(l.b, t), n) == c
    ensures StmtPost(w, Exec(w.m, st, s, fuel), l, l', active, fuel, n, c)
    decreases fuel, st, 4
  {
    match st
    case Body(stmts) => n, c := SimStmts(w, l, stmts, l', s, t, active, fuel);
    case If(_, _, _) => n, c := SimIf(w, l, st, l', s, t, active, fuel);
    case While(_, _, _) => n, c := SimWhile(w, l, st, l', s, t, active, fuel);
    case Match(_, _) => n, c := SimMatch(w, l, st, l', s, t, active, fuel);
    case _ => n, c := SimSimple(w, l, st, l', s, t, active, fuel);
  }
}
