/** Running the rounds of a loop, given how its test and its body run. */
module LoopSim {
  import opened Core
  import M = Mir
  import opened Thir
  import opened Builder
  import opened Lowering
  import opened LoweringShape
  import opened LoweringSim
  import opened Scoping
  import opened StmtSim

  lemma OutcomeLater(w: World, out: Outcome, l: Low, l1: Low, l': Low, active: set<nat>, fuel: nat, k: nat, n: nat,
                     c: M.Config)
    requires StmtPost(w, out, l1, l', active, fuel, k, c) && LoopsKept(l, l1, active) && LoopsFor(l, active) && k <= n
    ensures StmtPost(w, out, l, l', active, fuel, n, c)
  {
    if out.exit != Normal {
      LeftLater(w, out, l, l1, active, fuel, k, n, c);
    }
  }

  lemma IntoLater(w: World, out: Outcome, l: Low, l1: Low, active: set<nat>, fuel: nat, next: nat, k: nat, n: nat,
                  c: M.Config)
    requires IntoPost(w, out, l1, active, fuel, next, k, c) && LoopsKept(l, l1, active) && LoopsFor(l, active) && k <= n
    ensures IntoPost(w, out, l, active, fuel, next, n, c)
  {
    if out.exit != Normal {
      LeftLater(w, out, l, l1, active, fuel, k, n, c);
    }
  }

  /** The statements before an expression completed and the expression has a value. */
  ghost predicate Reaches(w: World, r: Outcome, e: Expr) {
    r.exit == Normal && EvalExpr(w.m, r.store, e).Val?
  }

  lemma MoreSteps(w: World, out: Outcome, l: Low, l': Low, active: set<nat>, fuel: nat, k: nat, n: nat, c: M.Config)
    requires StmtPost(w, out, l, l', active, fuel, k, c) && k <= n
    ensures StmtPost(w, out, l, l', active, fuel, n, c)
  {
  }

  lemma Then(w: World, out: Outcome, l: Low, l': Low, active: set<nat>, fuel: nat, start: M.Config, n: nat, c: M.Config,
             k: nat, c2: M.Config)
    requires M.Run(w.g, w.m, start, n) == c && M.Run(w.g, w.m, c, k) == c2
             && StmtPost(w, out, l, l', active, fuel, k, c2)
    ensures M.Run(w.g, w.m, start, n + k) == c2 && StmtPost(w, out, l, l', active, fuel, n + k, c2)
  {
    Chain(w, start, n, c, k, c2);
    MoreSteps(w, out, l, l', active, fuel, k, n + k, c2);
  }

  /** Leaving the body of a loop, seen from outside the loop. */
  lemma LeaveLoop(w: World, l: Low, st: Stmt, l2: Low, l': Low, r: Outcome, exit: Exit, active: set<nat>, fuel: nat,
                  n: nat, c: M.Config)
    requires st.While? && LoopHead(l, st.scope, l2) && st.scope !in active && LoopsFor(l, active)
    requires Left(w, r, l2, active + {st.scope}, fuel, n, c) && LoopExit(r.exit, st.scope) == Leave(exit)
    requires l'.b.current == |l.b.blocks| + 2 && l'.b.current < |l'.b.blocks|
             && l'.b.blocks[l'.b.current] == EMPTY_BLOCK && !Closed(l'.b)
    ensures StmtPost(w, Outcome(exit, r.store), l, l', active, fuel, n, c)
  {
  }

  /** Another round: the fuel the round burns is paid for by a step. */
  lemma OneMoreRound(w: World, out: Outcome, l: Low, l': Low, active: set<nat>, fuel: nat, k: nat, n: nat, c: M.Config)
    requires fuel > 0 && StmtPost(w, out, l, l', active, fuel - 1, k, c) && k < n
    ensures StmtPost(w, out, l, l', active, fuel, n, c)
  {
  }

  /** What one execution of a loop's body, and the rounds after it, amount to. */
  ghost function RoundOutcome(w: World, st: Stmt, s: M.Store, fuel: nat): Outcome
    requires st.While? && fuel > 0
  {
    var b := ExecAll(w.m, st.body, s, fuel);
    match LoopExit(b.exit, st.scope)
    case Leave(exit) => Outcome(exit, b.store)
    case _ => Exec(w.m, st, b.store, fuel - 1)
  }

  ghost function TestOutcome(w: World, st: Stmt, v: Value, s: M.Store, fuel: nat): Outcome
    requires st.While? && fuel > 0
  {
    if M.Truthy(v) then RoundOutcome(w, st, s, fuel) else Outcome(Normal, s)
  }

  lemma LoopDry(w: World, l: Low, st: Stmt, l': Low, s: M.Store, active: set<nat>, n: nat, c: M.Config)
    requires st.While? && c.At?
    ensures StmtPost(w, Exec(w.m, st, s, 0), l, l', active, 0, n, c)
  {
  }

  lemma LoopAgain(w: World, l: Low, st: Stmt, l': Low, start: M.Config, n: nat, c: M.Config, k: nat, c2: M.Config,
                  s: M.Store, active: set<nat>, fuel: nat)
    requires st.While? && fuel > 0 && n > 0 && M.Run(w.g, w.m, start, n) == c && M.Run(w.g, w.m, c, k) == c2
    requires var r := ExecAll(w.m, st.cond.stmts, s, fuel);
             LoopExit(r.exit, st.scope) == Again
               && StmtPost(w, Exec(w.m, st, r.store, fuel - 1), l, l', active, fuel - 1, k, c2)
    ensures M.Run(w.g, w.m, start, n + k) == c2 && StmtPost(w, Exec(w.m, st, s, fuel), l, l', active, fuel, n + k, c2)
  {
    Chain(w, start, n, c, k, c2);
    var out := Exec(w.m, st, ExecAll(w.m, st.cond.stmts, s, fuel).store, fuel - 1);
    OneMoreRound(w, out, l, l', active, fuel, k, n + k, c2);
    assert Exec(w.m, st, s, fuel) == out;
  }

  lemma LoopGoesOn(w: World, l: Low, st: Stmt, l': Low, start: M.Config, n: nat, c: M.Config, k: nat, c2: M.Config,
                   v: Value, s: M.Store, active: set<nat>, fuel: nat)
    requires st.While? && fuel > 0 && M.Run(w.g, w.m, start, n) == c
    requires M.Run(w.g, w.m, M.Run(w.g, w.m, c, 1), k) == c2
    requires var r := ExecAll(w.m, st.cond.stmts, s, fuel);
             Reaches(w, r, st.cond.expr) && EvalExpr(w.m, r.store, st.cond.expr).v == v
             && StmtPost(w, TestOutcome(w, st, v, r.store, fuel), l, l', active, fuel, k, c2)
    ensures M.Run(w.g, w.m, start, n + 1 + k) == c2
    ensures StmtPost(w, Exec(w.m, st, s, fuel), l, l', active, fuel, n + 1 + k, c2)
  {
    var c1 := M.Run(w.g, w.m, c, 1);
    Chain(w, start, n, c, 1, c1);
    Chain(w, start, n + 1, c1, k, c2);
    var out := TestOutcome(w, st, v, ExecAll(w.m, st.cond.stmts, s, fuel).store, fuel);
    assert Exec(w.m, st, s, fuel) == out;
    MoreSteps(w, out, l, l', active, fuel, k, n + 1 + k, c2);
  }

  /** The state after a loop, and the loops in force around it. */
  ghost predicate LoopEnds(l: Low, st: Stmt, l2: Low, l': Low, active: set<nat>)
    requires st.While?
  {
    && LoopHead(l, st.scope, l2) && st.scope !in active && LoopsFor(l, active)
    && l'.b.current == |l.b.blocks| + 2 && l'.b.current < |l'.b.blocks|
    && l'.b.blocks[l'.b.current] == EMPTY_BLOCK && !Closed(l'.b)
  }

  /** The test of the loop, run from the head of the loop. */
  ghost predicate TestRuns(w: World, st: Stmt, head: nat, l2: Low, l3: Low, o: M.Operand, inner: set<nat>, f: nat,
                           s: M.Store, t: M.Store)
    requires st.While?
  {
    exists n: nat :: SetupPost(w, ExecAll(w.m, st.cond.stmts, s, f), st.cond.expr, l2, l3, o, inner, f, n,
                               M.Run(w.g, w.m, M.At(head, 0, t), n))
  }

  ghost function BodyRun(w: World, head: nat, t: M.Store, n: nat): M.Config {
    M.Run(w.g, w.m, M.At(head + 1, 0, t), n)
  }

  /** The body of the loop, run from its block. */
  ghost predicate BodyRuns(w: World, st: Stmt, head: nat, l2: Low, inner: set<nat>, f: nat, s: M.Store, t: M.Store)
    requires st.While?
  {
    exists n: nat :: IntoPost(w, ExecAll(w.m, st.body, s, f), l2, inner, f, head, n, BodyRun(w, head, t, n))
  }

  /** The block ends in a branch on the operand. */
  ghost predicate BranchesTo(w: World, b3: State, o: M.Operand, thn: nat, els: nat) {
    b3.current < |b3.blocks| &&
    forall v, t :: M.EvalOperand(t, o) == Some(v) ==>
      M.Run(w.g, w.m, Pos(b3, t), 1) == M.At(if M.Truthy(v) then thn else els, 0, t)
  }

  ghost predicate LoopParts(w: World, l: Low, st: Stmt, l2: Low, l3: Low, o: M.Operand, l': Low, active: set<nat>,
                            fuel: nat)
  {
    match st
    case While(scope, _, _) =>
      var (head, inner) := (|l.b.blocks|, active + {scope});
      && LoopEnds(l, st, l2, l', active) && BranchesTo(w, l3.b, o, head + 1, head + 2)
      && (forall s, t, f: nat {:trigger TestRuns(w, st, head, l2, l3, o, inner, f, s, t)} ::
          f <= fuel && Same(s, t, w.users) ==> TestRuns(w, st, head, l2, l3, o, inner, f, s, t))
      && (forall s, t, f: nat {:trigger BodyRuns(w, st, head, l2, inner, f, s, t)} ::
          f <= fuel && Same(s, t, w.users) ==> BodyRuns(w, st, head, l2, inner, f, s, t))
    case _ => false
  }

  lemma LoopStops(w: World, l: Low, st: Stmt, l2: Low, l3: Low, l': Low, o: M.Operand, n: nat, c: M.Config, s: M.Store,
                  active: set<nat>, fuel: nat)
    requires st.While? && fuel > 0 && LoopEnds(l, st, l2, l', active)
    requires var r := ExecAll(w.m, st.cond.stmts, s, fuel);
             LoopExit(r.exit, st.scope) != Again && !Reaches(w, r, st.cond.expr)
             && SetupPost(w, r, st.cond.expr, l2, l3, o, active + {st.scope}, fuel, n, c)
    ensures StmtPost(w, Exec(w.m, st, s, fuel), l, l', active, fuel, n, c)
  {
    var r := ExecAll(w.m, st.cond.stmts, s, fuel);
    var step := LoopExit(r.exit, st.scope);
    if step.Leave? {
      LeaveLoop(w, l, st, l2, l', r, step.exit, active, fuel, n, c);
      assert Exec(w.m, st, s, fuel) == Outcome(step.exit, r.store);
    }
  }

  lemma RoundAgain(w: World, l: Low, st: Stmt, l': Low, head: nat, n: nat, t: M.Store, c: M.Config, k: nat,
                   c2: M.Config, s: M.Store, active: set<nat>, fuel: nat)
    requires st.While? && fuel > 0 && M.Run(w.g, w.m, M.At(head + 1, 0, t), n) == c && c == M.At(head, 0, c.store)
    requires M.Run(w.g, w.m, c, k) == c2
    requires var r := ExecAll(w.m, st.body, s, fuel);
             !LoopExit(r.exit, st.scope).Leave?
               && StmtPost(w, Exec(w.m, st, r.store, fuel - 1), l, l', active, fuel - 1, k, c2)
    ensures M.Run(w.g, w.m, M.At(head + 1, 0, t), n + k) == c2
    ensures StmtPost(w, RoundOutcome(w, st, s, fuel), l, l', active, fuel, n + k, c2)
  {
    Chain(w, M.At(head + 1, 0, t), n, c, k, c2);
    OneMoreRound(w, RoundOutcome(w, st, s, fuel), l, l', active, fuel, k, n + k, c2);
  }

  /** The rounds of a loop, by the fuel they burn. */
  lemma {:induction false} SimLoop(w: World, l: Low, st: Stmt, l2: Low, l3: Low, o: M.Operand, l': Low, s: M.Store,
                                   t: M.Store, active: set<nat>, fuel: nat)
    returns (n: nat, c: M.Config)
    requires st.While? && Same(s, t, w.users) && LoopParts(w, l, st, l2, l3, o, l', active, fuel)
    ensures M.Run(w.g, w.m, M.At(|l.b.blocks|, 0, t), n) == c
    ensures StmtPost(w, Exec(w.m, st, s, fuel), l, l', active, fuel, n, c)
    decreases fuel, 3
  {
    var (head, inner) := (|l.b.blocks|, active + {st.scope});
    if fuel == 0 {
      n, c := 0, M.At(head, 0, t);
      LoopDry(w, l, st, l', s, active, n, c);
    } else {
      assert TestRuns(w, st, head, l2, l3, o, inner, fuel, s, t);
      var r := ExecAll(w.m, st.cond.stmts, s, fuel);
      n :| SetupPost(w, r, st.cond.expr, l2, l3, o, inner, fuel, n, M.Run(w.g, w.m, M.At(head, 0, t), n));
      c := M.Run(w.g, w.m, M.At(head, 0, t), n);
      n, c := SimLoopFrom(w, l, st, l2, l3, o, l', M.At(head, 0, t), n, c, s, active, fuel);
    }
  }

  /** From the end of the test on, whatever came of it. */
  lemma {:induction false} SimLoopFrom(w: World, l: Low, st: Stmt, l2: Low, l3: Low, o: M.Operand, l': Low,
                                       start: M.Config, n1: nat, c1: M.Config, s: M.Store, active: set<nat>, fuel: nat)
    returns (n: nat, c: M.Config)
    requires st.While? && fuel > 0 && LoopParts(w, l, st, l2, l3, o, l', active, fuel)
    requires M.Run(w.g, w.m, start, n1) == c1
    requires SetupPost(w, ExecAll(w.m, st.cond.stmts, s, fuel), st.cond.expr, l2, l3, o, active + {st.scope}, fuel, n1,
                       c1)
    ensures M.Run(w.g, w.m, start, n) == c
    ensures StmtPost(w, Exec(w.m, st, s, fuel), l, l', active, fuel, n, c)
    decreases fuel, 2
  {
    var r := ExecAll(w.m, st.cond.stmts, s, fuel);
    if LoopExit(r.exit, st.scope) == Again {
      var k, c2 := SimLoop(w, l, st, l2, l3, o, l', r.store, c1.store, active, fuel - 1);
      LoopAgain(w, l, st, l', start, n1, c1, k, c2, s, active, fuel);
      n, c := n1 + k, c2;
    } else if Reaches(w, r, st.cond.expr) {
      var v := EvalExpr(w.m, r.store, st.cond.expr).v;
      var k, c2 := SimRounds(w, l, st, l2, l3, o, l', v, r.store, c1.store, active, fuel);
      LoopGoesOn(w, l, st, l', start, n1, c1, k, c2, v, s, active, fuel);
      n, c := n1 + 1 + k, c2;
    } else {
      LoopStops(w, l, st, l2, l3, l', o, n1, c1, s, active, fuel);
      n, c := n1, c1;
    }
  }

  /** From the outcome of the test on: nothing more, or the body and the rounds after it. */
  lemma {:induction false} SimRounds(w: World, l: Low, st: Stmt, l2: Low, l3: Low, o: M.Operand, l': Low, v: Value,
                                     s: M.Store, t: M.Store, active: set<nat>, fuel: nat)
    returns (n: nat, c: M.Config)
    requires st.While? && Same(s, t, w.users) && fuel > 0 && LoopParts(w, l, st, l2, l3, o, l', active, fuel)
    ensures M.Run(w.g, w.m, M.At(|l.b.blocks| + (if M.Truthy(v) then 1 else 2), 0, t), n) == c
    ensures StmtPost(w, TestOutcome(w, st, v, s, fuel), l, l', active, fuel, n, c)
    decreases fuel, 1
  {
    var (head, inner) := (|l.b.blocks|, active + {st.scope});
    if M.Truthy(v) {
      assert BodyRuns(w, st, head, l2, inner, fuel, s, t);
      var r := ExecAll(w.m, st.body, s, fuel);
      n :| IntoPost(w, r, l2, inner, fuel, head, n, BodyRun(w, head, t, n));
      n, c := SimRoundFrom(w, l, st, l2, l3, o, l', s, t, n, active, fuel);
    } else {
      n, c := 0, M.At(head + 2, 0, t);
    }
  }

  /** From the end of the body on. */
  lemma {:induction false} SimRoundFrom(w: World, l: Low, st: Stmt, l2: Low, l3: Low, o: M.Operand, l': Low,
                                        s: M.Store, t: M.Store, n1: nat, active: set<nat>, fuel: nat)
    returns (n: nat, c: M.Config)
    requires st.While? && fuel > 0 && LoopParts(w, l, st, l2, l3, o, l', active, fuel)
    requires IntoPost(w, ExecAll(w.m, st.body, s, fuel), l2, active + {st.scope}, fuel, |l.b.blocks|, n1,
                      BodyRun(w, |l.b.blocks|, t, n1))
    ensures M.Run(w.g, w.m, M.At(|l.b.blocks| + 1, 0, t), n) == c
    ensures StmtPost(w, RoundOutcome(w, st, s, fuel), l, l', active, fuel, n, c)
    decreases fuel, 0
  {
    var (head, r) := (|l.b.blocks|, ExecAll(w.m, st.body, s, fuel));
    n, c := n1, M.Run(w.g, w.m, M.At(head + 1, 0, t), n1);
    if LoopExit(r.exit, st.scope).Leave? {
      LeaveLoop(w, l, st, l2, l', r, LoopExit(r.exit, st.scope).exit, active, fuel, n, c);
    } else {
      var k, c2 := SimLoop(w, l, st, l2, l3, o, l', r.store, c.store, active, fuel - 1);
      RoundAgain(w, l, st, l', head, n, t, c, k, c2, s, active, fuel);
      n, c := n + k, c2;
    }
  }
}
