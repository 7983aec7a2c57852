/** Running a conditional, given how its arms run. */
module IfSim {
  import opened Core
  import M = Mir
  import opened Thir
  import opened Builder
  import opened Lowering
  import opened LoweringShape
  import opened LoweringSim
  import opened StmtSim
  import opened LoopSim
  import opened MatchSim

  /** Allocating blocks and then closing the current one is a single step of the run. */
  lemma ForkStep(w: World, b: State, k: nat, tm: M.Terminator, b': State, t: M.Store)
    requires Wf(b) && TerminateWith(NewBlocks(b, k), tm) == Some(b') && Fits(b', w.g)
    ensures M.Run(w.g, w.m, Pos(b, t), 1) == M.Terminate(w.m, t, tm)
  {
    NewBlocksKeep(b, k);
    StepTerminate(w, NewBlocks(b, k), tm, b', t);
    assert Pos(NewBlocks(b, k), t) == Pos(b, t);
  }

  lemma BranchStep(w: World, b: State, k: nat, o: M.Operand, thn: nat, els: nat, b': State, v: Value, t: M.Store)
    requires Wf(b) && TerminateWith(NewBlocks(b, k), M.Branch(o, thn, els)) == Some(b') && Fits(b', w.g)
    requires M.EvalOperand(t, o) == Some(v)
    ensures M.Run(w.g, w.m, Pos(b, t), 1) == M.At(if M.Truthy(v) then thn else els, 0, t)
  {
    ForkStep(w, b, k, M.Branch(o, thn, els), b', t);
  }

  lemma ForkBranches(w: World, b: State, k: nat, o: M.Operand, thn: nat, els: nat, b': State)
    requires Wf(b) && TerminateWith(NewBlocks(b, k), M.Branch(o, thn, els)) == Some(b') && Fits(b', w.g)
    ensures BranchesTo(w, b, o, thn, els)
  {
    forall v, t | M.EvalOperand(t, o) == Some(v)
      ensures M.Run(w.g, w.m, Pos(b, t), 1) == M.At(if M.Truthy(v) then thn else els, 0, t)
    {
      BranchStep(w, b, k, o, thn, els, b', v, t);
    }
  }

  ghost function BranchOutcome(w: World, st: Stmt, v: Value, s: M.Store, fuel: nat): Outcome
    requires st.If?
  {
    if M.Truthy(v) then ExecAll(w.m, st.thn, s, fuel)
    else if st.els.Else? then ExecAll(w.m, st.els.stmts, s, fuel)
    else Outcome(Normal, s)
  }

  /** A sequence in a block of its own, run from that block. */
  ghost predicate PartRuns(w: World, stmts: seq<Stmt>, l: Low, entry: nat, next: nat, active: set<nat>, fuel: nat,
                           s: M.Store, t: M.Store)
  {
    exists n: nat ::
      IntoPost(w, ExecAll(w.m, stmts, s, fuel), l, active, fuel, next, n, M.Run(w.g, w.m, M.At(entry, 0, t), n))
  }

  ghost predicate AllRuns(w: World, stmts: seq<Stmt>, l: Low, entry: nat, next: nat, active: set<nat>, fuel: nat) {
    forall s, t {:trigger PartRuns(w, stmts, l, entry, next, active, fuel, s, t)} ::
      Same(s, t, w.users) ==> PartRuns(w, stmts, l, entry, next, active, fuel, s, t)
  }

  /** How the arms of a conditional run, and where its branch and its end are. */
  ghost predicate IfParts(w: World, st: Stmt, l: Low, b1: State, o: M.Operand, l': Low, thn: nat, merge: nat, els: nat,
                          active: set<nat>, fuel: nat)
  {
    match st
    case If(_, thnStmts, elsPart) =>
      && BranchesTo(w, b1, o, thn, if elsPart.Else? then els else merge) && MatchEnd(merge, l'.b)
      && AllRuns(w, thnStmts, l, thn, merge, active, fuel)
      && (elsPart.Else? ==> AllRuns(w, elsPart.stmts, l, els, merge, active, fuel))
    case _ => false
  }

  lemma SimPart(w: World, stmts: seq<Stmt>, l: Low, l': Low, entry: nat, merge: nat, s: M.Store, t: M.Store,
                active: set<nat>, fuel: nat)
    returns (n: nat, c: M.Config)
    requires AllRuns(w, stmts, l, entry, merge, active, fuel) && Same(s, t, w.users) && MatchEnd(merge, l'.b)
    ensures M.Run(w.g, w.m, M.At(entry, 0, t), n) == c
            && StmtPost(w, ExecAll(w.m, stmts, s, fuel), l, l', active, fuel, n, c)
  {
    assert PartRuns(w, stmts, l, entry, merge, active, fuel, s, t);
    n :| IntoPost(w, ExecAll(w.m, stmts, s, fuel), l, active, fuel, merge, n, M.Run(w.g, w.m, M.At(entry, 0, t), n));
    c := M.Run(w.g, w.m, M.At(entry, 0, t), n);
  }

  /** From the value of the condition on. */
  lemma SimIfRest(w: World, st: Stmt, l: Low, b1: State, o: M.Operand, l': Low, thn: nat, merge: nat, els: nat,
                  v: Value, s: M.Store, t: M.Store, active: set<nat>, fuel: nat)
    returns (n: nat, c: M.Config)
    requires IfParts(w, st, l, b1, o, l', thn, merge, els, active, fuel)
    requires Same(s, t, w.users) && M.EvalOperand(t, o) == Some(v) && b1.current < |b1.blocks|
    ensures M.Run(w.g, w.m, Pos(b1, t), n) == c
    ensures st.If? && StmtPost(w, BranchOutcome(w, st, v, s, fuel), l, l', active, fuel, n, c)
  {
    var entry := if M.Truthy(v) then thn else if st.els.Else? then els else merge;
    if M.Truthy(v) {
      n, c := SimPart(w, st.thn, l, l', entry, merge, s, t, active, fuel);
    } else if st.els.Else? {
      n, c := SimPart(w, st.els.stmts, l, l', entry, merge, s, t, active, fuel);
    } else {
      n, c := 0, M.At(merge, 0, t);
    }
    Then(w, BranchOutcome(w, st, v, s, fuel), l, l', active, fuel, Pos(b1, t), 1, M.At(entry, 0, t), n, c);
    n := 1 + n;
  }

  lemma IfGoesOn(w: World, l: Low, st: Stmt, l': Low, start: M.Config, n: nat, c: M.Config, k: nat, c2: M.Config,
                 v: Value, s: M.Store, active: set<nat>, fuel: nat)
    requires st.If? && M.Run(w.g, w.m, start, n) == c && M.Run(w.g, w.m, c, k) == c2
    requires var r := ExecAll(w.m, st.cond.stmts, s, fuel);
             Reaches(w, r, st.cond.expr) && EvalExpr(w.m, r.store, st.cond.expr).v == v
             && StmtPost(w, BranchOutcome(w, st, v, r.store, fuel), l, l', active, fuel, k, c2)
    ensures M.Run(w.g, w.m, start, n + k) == c2
    ensures StmtPost(w, Exec(w.m, st, s, fuel), l, l', active, fuel, n + k, c2)
  {
    var out := BranchOutcome(w, st, v, ExecAll(w.m, st.cond.stmts, s, fuel).store, fuel);
    assert Exec(w.m, st, s, fuel) == out;
    Then(w, out, l, l', active, fuel, start, n, c, k, c2);
  }

  lemma IfStops(w: World, l: Low, st: Stmt, l1: Low, l': Low, o: M.Operand, n: nat, c: M.Config, s: M.Store,
                active: set<nat>, fuel: nat)
    requires st.If?
    requires var r := ExecAll(w.m, st.cond.stmts, s, fuel);
             !Reaches(w, r, st.cond.expr) && SetupPost(w, r, st.cond.expr, l, l1, o, active, fuel, n, c)
    ensures StmtPost(w, Exec(w.m, st, s, fuel), l, l', active, fuel, n, c)
  {
  }

  /** From the end of the condition on, whatever came of it. */
  lemma SimIfFrom(w: World, st: Stmt, l: Low, l1: Low, o: M.Operand, l': Low, start: M.Config, k: nat, c1: M.Config,
                  s: M.Store, active: set<nat>, fuel: nat)
    returns (n: nat, c: M.Config)
    requires IfParts(w, st, l, l1.b, o, l', |l1.b.blocks|, |l1.b.blocks| + 1, |l1.b.blocks| + 2, active, fuel)
    requires st.If? && M.Run(w.g, w.m, start, k) == c1
    requires SetupPost(w, ExecAll(w.m, st.cond.stmts, s, fuel), st.cond.expr, l, l1, o, active, fuel, k, c1)
    ensures M.Run(w.g, w.m, start, n) == c
    ensures StmtPost(w, Exec(w.m, st, s, fuel), l, l', active, fuel, n, c)
  {
    if Reaches(w, ExecAll(w.m, st.cond.stmts, s, fuel), st.cond.expr) {
      n, c := SimIfReached(w, st, l, l1, o, l', start, k, c1, s, active, fuel);
    } else {
      IfStops(w, l, st, l1, l', o, k, c1, s, active, fuel);
      n, c := k, c1;
    }
  }

  lemma ConditionReached(w: World, r: Outcome, e: Expr, l: Low, l1: Low, o: M.Operand, active: set<nat>, fuel: nat,
                         k: nat, c1: M.Config)
    returns (v: Value)
    requires Reaches(w, r, e) && SetupPost(w, r, e, l, l1, o, active, fuel, k, c1)
    ensures EvalExpr(w.m, r.store, e).v == v && M.EvalOperand(c1.store, o) == Some(v)
    ensures l1.b.current < |l1.b.blocks| && c1 == Pos(l1.b, c1.store) && Same(r.store, c1.store, w.users)
  {
    v := EvalExpr(w.m, r.store, e).v;
  }

  lemma SimIfReached(w: World, st: Stmt, l: Low, l1: Low, o: M.Operand, l': Low, start: M.Config, k: nat, c1: M.Config,
                     s: M.Store, active: set<nat>, fuel: nat)
    returns (n: nat, c: M.Config)
    requires IfParts(w, st, l, l1.b, o, l', |l1.b.blocks|, |l1.b.blocks| + 1, |l1.b.blocks| + 2, active, fuel)
    requires st.If? && M.Run(w.g, w.m, start, k) == c1
    requires var r := ExecAll(w.m, st.cond.stmts, s, fuel);
             Reaches(w, r, st.cond.expr) && SetupPost(w, r, st.cond.expr, l, l1, o, active, fuel, k, c1)
    ensures M.Run(w.g, w.m, start, n) == c
    ensures StmtPost(w, Exec(w.m, st, s, fuel), l, l', active, fuel, n, c)
  {
    var r := ExecAll(w.m, st.cond.stmts, s, fuel);
    var v := ConditionReached(w, r, st.cond.expr, l, l1, o, active, fuel, k, c1);
    var j, c2 := SimIfRest(w, st, l, l1.b, o, l', |l1.b.blocks|, |l1.b.blocks| + 1, |l1.b.blocks| + 2, v, r.store,
                           c1.store, active, fuel);
    IfGoesOn(w, l, st, l', start, k, c1, j, c2, v, s, active, fuel);
    n, c := k + j, c2;
  }
}
