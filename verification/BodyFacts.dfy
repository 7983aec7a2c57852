/** What holds between the parts of a lowered body, whatever the run. */
module BodyFacts {
  import opened Core
  import DT = DecisionTree
  import M = Mir
  import opened Thir
  import opened Builder
  import opened Lowering
  import opened LoweringShape
  import opened LoweringSim
  import opened Scoping
  import opened StmtSim
  import opened LoopSim
  import opened IfSim
  import opened MatchSim

  /** What holds between the first statement and the rest. */
  lemma StmtsSplit(w: World, l: Low, stmts: seq<Stmt>, l': Low, active: set<nat>) returns (l1: Low)
    requires stmts != [] && AllTyped(stmts) && AllScoped(stmts, w.users, active)
    requires LowWf(l) && Fits(l'.b, w.g) && w.users <= |l.b.locals| && LoopsFor(l, active)
    requires BuildStmts(w.env, l, stmts) == Some(l')
    ensures Typed(stmts[0]) && AllTyped(stmts[1..])
    ensures BuildStmt(w.env, l, stmts[0]) == Some(l1) && BuildStmts(w.env, l1, stmts[1..]) == Some(l')
    ensures LowWf(l1) && Fits(l1.b, w.g) && w.users <= |l1.b.locals| && LoopsFor(l1, active) && LoopsKept(l, l1, active)
  {
    assert Typed(stmts[0]) && Scoped(stmts[0], w.users, active);
    l1 := BuildStmt(w.env, l, stmts[0]).value;
    BuildStmtSeg(w.env, l, stmts[0]);
    BuildStmtsSeg(w.env, l1, stmts[1..]);
    StmtKeepsLoops(w.env, l, stmts[0], w.users, active);
    FitsBack(l1.b, l'.b, w.g);
  }

  lemma SetupDone(w: World, r: Outcome, e: Expr, l: Low, l1: Low, l': Low, o: M.Operand, active: set<nat>, fuel: nat,
                  t1: M.Store, n: nat, c: M.Config)
    requires r.exit == Normal && Same(r.store, t1, w.users) && w.users <= |l1.b.locals|
    requires !Closed(l1.b) && (Closed(l'.b) ==> Closed(l1.b))
    requires OperandPost(w, EvalExpr(w.m, r.store, e), l1.b, l'.b, o, t1, c)
    ensures SetupPost(w, r, e, l, l', o, active, fuel, n, c)
  {
    if !EvalExpr(w.m, r.store, e).Bad? {
      SameTrans(r.store, t1, c.store, w.users, |l1.b.locals|);
    }
  }

  ghost predicate IntoReady(w: World, l: Low, start: nat, next: nat, b': State, s: M.Store, t: M.Store,
                            active: set<nat>)
  {
    && Start(w, l, b', s, t, active)
    && start < |l.b.blocks| && next < |l.b.blocks| && l.b.blocks[start] == EMPTY_BLOCK
  }

  // ----- conditionals -----

  ghost predicate IfOrder(l1: Low, b3: State, l4: Low, l5: Low, withElse: bool) {
    && LowWf(l1) && LowWf(l1.(b := b3)) && LowWf(l4) && LowWf(l5) && Grow(l1.b, b3)
    && (if withElse then Fill(b3, l4.b, |l1.b.blocks| + 2) else b3 == l4.b)
    && Fill(l4.b, l5.b, |l1.b.blocks|)
  }

  ghost predicate IfBlocks(b1: State, b3: State, b4: State, b6: State, withElse: bool) {
    && |b1.blocks| + 1 < |b3.blocks| <= |b4.blocks| && (withElse ==> |b1.blocks| + 2 < |b3.blocks|)
    && (forall i :: |b1.blocks| <= i < |b3.blocks| ==> b3.blocks[i] == EMPTY_BLOCK)
    && b4.blocks[|b1.blocks|] == EMPTY_BLOCK
    && b6.current == |b1.blocks| + 1 && b6.current < |b6.blocks| && b6.blocks[b6.current] == EMPTY_BLOCK && !Closed(b6)
  }

  /** What running a conditional needs to know about how it was lowered. */
  lemma IfStatic(w: World, l: Low, st: Stmt, l1: Low, o: M.Operand, b3: State, l4: Low, l5: Low, b6: State,
                 active: set<nat>)
    requires st.If? && Typed(st) && Scoped(st, w.users, active) && LowWf(l) && w.users <= |l.b.locals|
             && LoopsFor(l, active)
    requires BuildSetup(w.env, l, st.cond) == Some((l1, o)) && IfSteps(w.env, st, l1, o, b3, l4, l5, b6)
    requires Fits(b6, w.g)
    ensures Fits(l1.b, w.g) && IfIsReady(w, l, l1, o, b3, l4, l5, b6, st.els.Else?, active)
  {
    BuildSetupSeg(w.env, l, st.cond);
    IfArmsFilled(w.env, st, l1, o, b3, l4, l5, b6);
    IfLoopsKept(w, l, st, l1, o, b3, l4, l5, b6, active);
    IfReady(w, l, l1, o, b3, l4, l5, b6, st.els.Else?, active);
  }

  lemma IfPlan(w: World, l: Low, st: Stmt, l': Low, active: set<nat>)
    returns (l1: Low, o: M.Operand, b3: State, l4: Low, l5: Low)
    requires st.If? && Typed(st) && Scoped(st, w.users, active) && LowWf(l) && w.users <= |l.b.locals|
             && LoopsFor(l, active)
    requires BuildIf(w.env, l, st) == Some(l') && Fits(l'.b, w.g)
    ensures BuildSetup(w.env, l, st.cond) == Some((l1, o)) && Fits(l1.b, w.g)
    ensures BuildInto(w.env, l4, |l1.b.blocks|, st.thn, |l1.b.blocks| + 1) == Some(l5)
    ensures st.els.Else? ==>
            BuildInto(w.env, l1.(b := b3), |l1.b.blocks| + 2, st.els.stmts, |l1.b.blocks| + 1) == Some(l4)
    ensures IfIsReady(w, l, l1, o, b3, l4, l5, l'.b, st.els.Else?, active)
  {
    var b6;
    l1, o, b3, l4, l5, b6 := BuildIfSteps(w.env, l, st);
    IfStatic(w, l, st, l1, o, b3, l4, l5, b6, active);
  }

  /** A part of a statement can be run from its block. */
  ghost predicate PartReady(w: World, l: Low, l4: Low, entry: nat, next: nat, b5: State, active: set<nat>) {
    && LowWf(l4) && Fits(b5, w.g) && w.users <= |l4.b.locals| && LoopsFor(l, active) && LoopsKept(l, l4, active)
    && entry < |l4.b.blocks| && next < |l4.b.blocks| && l4.b.blocks[entry] == EMPTY_BLOCK
  }

  ghost predicate IfIsReady(w: World, l: Low, l1: Low, o: M.Operand, b3: State, l4: Low, l5: Low, b6: State,
                            withElse: bool, active: set<nat>)
  {
    match l1
    case Low(b1, _, _) =>
      var (thn, merge, els) := (|b1.blocks|, |b1.blocks| + 1, |b1.blocks| + 2);
      && BranchesTo(w, b1, o, thn, if withElse then els else merge)
      && PartReady(w, l, l4, thn, merge, l5.b, active)
      && (withElse ==> PartReady(w, l, l1.(b := b3), els, merge, l4.b, active))
      && MatchEnd(merge, b6)
  }

  lemma IfReady(w: World, l: Low, l1: Low, o: M.Operand, b3: State, l4: Low, l5: Low, b6: State, withElse: bool,
                active: set<nat>)
    requires IfOrder(l1, b3, l4, l5, withElse) && IfForks(l1.b, o, b3, withElse)
             && SwitchTo(l5.b, |l1.b.blocks| + 1) == Some(b6)
    requires LoopsFor(l, active) && LoopsKept(l, l1.(b := b3), active) && LoopsKept(l, l4, active)
    requires Fits(b6, w.g) && w.users <= |l1.b.locals|
    ensures Fits(l1.b, w.g) && IfIsReady(w, l, l1, o, b3, l4, l5, b6, withElse, active)
  {
    var (thn, merge, els) := (|l1.b.blocks|, |l1.b.blocks| + 1, |l1.b.blocks| + 2);
    IfFits(l5.b, b6, merge, w.g);
    FitsBack(l4.b, l5.b, w.g);
    FitsBack(b3, l4.b, w.g);
    FitsBack(l1.b, b3, w.g);
    IfBlocksOk(l1.b, b3, l4.b, l5.b, b6, withElse);
    if withElse {
      ForkBranches(w, l1.b, 3, o, thn, els, b3);
    } else {
      ForkBranches(w, l1.b, 2, o, thn, merge, b3);
    }
  }

  /** The branch of a conditional and the blocks it allocates. */
  ghost predicate IfForks(b1: State, o: M.Operand, b3: State, withElse: bool) {
    var (thn, merge, els) := (|b1.blocks|, |b1.blocks| + 1, |b1.blocks| + 2);
    && (if withElse then TerminateWith(NewBlocks(b1, 3), M.Branch(o, thn, els)) == Some(b3)
        else TerminateWith(NewBlocks(b1, 2), M.Branch(o, thn, merge)) == Some(b3))
    && |b3.blocks| == |b1.blocks| + (if withElse then 3 else 2)
    && forall i :: |b1.blocks| <= i < |b3.blocks| ==> b3.blocks[i] == EMPTY_BLOCK
  }

  lemma IfFits(b5: State, b6: State, merge: nat, g: seq<M.Block>)
    requires Wf(b5) && SwitchTo(b5, merge) == Some(b6) && Fits(b6, g)
    ensures Fits(b5, g)
  {
  }

  lemma IfLoopsKept(w: World, l: Low, st: Stmt, l1: Low, o: M.Operand, b3: State, l4: Low, l5: Low, b6: State,
                    active: set<nat>)
    requires st.If? && Typed(st) && Scoped(st, w.users, active)
    requires BuildSetup(w.env, l, st.cond) == Some((l1, o)) && IfSteps(w.env, st, l1, o, b3, l4, l5, b6)
    ensures LoopsKept(l, l1.(b := b3), active) && LoopsKept(l, l4, active)
  {
    SetupKeepsLoops(w.env, l, st.cond, w.users, active);
    if st.els.Else? {
      IntoKeepsLoops(w.env, l1.(b := b3), |l1.b.blocks| + 2, st.els.stmts, |l1.b.blocks| + 1, w.users, active);
    }
  }

  lemma IfArmsFilled(env: Env, st: Stmt, l1: Low, o: M.Operand, b3: State, l4: Low, l5: Low, b6: State)
    requires st.If? && Typed(st) && LowWf(l1) && IfSteps(env, st, l1, o, b3, l4, l5, b6)
    ensures IfOrder(l1, b3, l4, l5, st.els.Else?) && IfForks(l1.b, o, b3, st.els.Else?)
  {
    var (t, merge) := (|l1.b.blocks|, |l1.b.blocks| + 1);
    IfForked(env, st, l1, o, b3, l4, l5, b6);
    if st.els.Else? {
      BuildIntoFill(env, l1.(b := b3), merge + 1, st.els.stmts, merge);
    }
    BuildIntoFill(env, l4, t, st.thn, merge);
  }

  lemma IfBlocksOk(b1: State, b3: State, b4: State, b5: State, b6: State, withElse: bool)
    requires |b3.blocks| == |b1.blocks| + (if withElse then 3 else 2)
    requires forall i :: |b1.blocks| <= i < |b3.blocks| ==> b3.blocks[i] == EMPTY_BLOCK
    requires if withElse then Fill(b3, b4, |b1.blocks| + 2) else b3 == b4
    requires Fill(b4, b5, |b1.blocks|) && SwitchTo(b5, |b1.blocks| + 1) == Some(b6)
    ensures IfBlocks(b1, b3, b4, b6, withElse)
  {
  }

  // ----- loops -----

  /** A loop's test can be run from the head of the loop. */
  ghost predicate TestReady(w: World, l2: Low, b3: State, head: nat, inner: set<nat>) {
    && LowWf(l2) && Fits(b3, w.g) && w.users <= |l2.b.locals| && LoopsFor(l2, inner) && !Closed(l2.b)
    && l2.b.current == head && head < |l2.b.blocks| && l2.b.blocks[head] == EMPTY_BLOCK
  }

  /** A loop's body can be run from its block. */
  ghost predicate LoopBodyReady(w: World, l4: Low, head: nat, b5: State, inner: set<nat>) {
    && LowWf(l4) && Fits(b5, w.g) && w.users <= |l4.b.locals| && LoopsFor(l4, inner)
    && head + 1 < |l4.b.blocks| && l4.b.blocks[head + 1] == EMPTY_BLOCK
  }

  /** The states of a loop: what lowering its parts touched and what it left open. */
  ghost predicate LoopFilled(l: Low, scope: nat, l2: Low, l3: Low, o: M.Operand, b4: State, l5: Low, b6: State) {
    var head := |l.b.blocks|;
    && LoopHead(l, scope, l2) && LowWf(l2) && LowWf(l3.(b := b4)) && Wf(l3.b)
    && |l2.b.blocks| == head + 3 && l2.b.current == head && !Closed(l2.b) && l2.b.locals == l.b.locals
    && (forall i :: head <= i < head + 3 ==> l2.b.blocks[i] == EMPTY_BLOCK)
    && Seg(l2.b, l3.b) && TerminateWith(l3.b, M.Branch(o, head + 1, head + 2)) == Some(b4) && Grow(l3.b, b4)
    && Fill(b4, l5.b, head + 1) && SwitchTo(l5.b, head + 2) == Some(b6)
  }

  lemma WhileStatic(w: World, l: Low, st: Stmt, l2: Low, l3: Low, o: M.Operand, b4: State, l5: Low, b6: State,
                    active: set<nat>)
    requires st.While? && Typed(st) && Scoped(st, w.users, active) && LowWf(l) && w.users <= |l.b.locals|
    requires WhileSteps(w.env, l, st, l2, l3, o, b4, l5, b6) && Fits(b6, w.g) && LoopsFor(l, active)
    ensures LoopFilled(l, st.scope, l2, l3, o, b4, l5, b6)
    ensures LoopsFor(l2, active + {st.scope}) && LoopsKept(l2, l3, active + {st.scope})
    ensures LoopIsReady(w, l, st, l2, l3, o, b4, l5, b6, active)
  {
    WhileFilled(w.env, l, st, l2, l3, o, b4, l5, b6);
    WhileLoops(w, l, st, l2, l3, o, active);
    LoopReady(w, l, st, l2, l3, o, b4, l5, b6, active);
  }

  ghost predicate LoopIsReady(w: World, l: Low, st: Stmt, l2: Low, l3: Low, o: M.Operand, b4: State, l5: Low, b6: State,
                              active: set<nat>)
    requires st.While?
  {
    && LoopEnds(l, st, l2, l5.(b := b6), active) && BranchesTo(w, l3.b, o, |l.b.blocks| + 1, |l.b.blocks| + 2)
    && TestReady(w, l2, l3.b, |l.b.blocks|, active + {st.scope})
    && LoopBodyReady(w, l3.(b := b4), |l.b.blocks|, l5.b, active + {st.scope})
  }

  lemma LoopReady(w: World, l: Low, st: Stmt, l2: Low, l3: Low, o: M.Operand, b4: State, l5: Low, b6: State,
                  active: set<nat>)
    requires st.While? && LoopFilled(l, st.scope, l2, l3, o, b4, l5, b6) && Fits(b6, w.g)
    requires st.scope !in active && LoopsFor(l, active) && w.users <= |l.b.locals|
    requires LoopsFor(l2, active + {st.scope}) && LoopsKept(l2, l3, active + {st.scope})
    ensures LoopIsReady(w, l, st, l2, l3, o, b4, l5, b6, active)
  {
    var head := |l.b.blocks|;
    WhileBlocks(l2.b, l3.b, M.Branch(o, head + 1, head + 2), b4, l5.b, b6, head);
    LoopFits(w, l3.b, b4, l5.b, b6, head);
    LoopForks(w, l3.b, o, head, b4);
  }

  lemma LoopFits(w: World, b3: State, b4: State, b5: State, b6: State, head: nat)
    requires Wf(b3) && Grow(b3, b4) && Fill(b4, b5, head + 1) && SwitchTo(b5, head + 2) == Some(b6) && Fits(b6, w.g)
    ensures Fits(b5, w.g) && Fits(b4, w.g) && Fits(b3, w.g)
  {
    IfFits(b5, b6, head + 2, w.g);
    FitsBack(b4, b5, w.g);
    FitsBack(b3, b4, w.g);
  }

  lemma LoopForks(w: World, b3: State, o: M.Operand, head: nat, b4: State)
    requires Wf(b3) && TerminateWith(b3, M.Branch(o, head + 1, head + 2)) == Some(b4) && Fits(b4, w.g)
    ensures BranchesTo(w, b3, o, head + 1, head + 2)
  {
    assert NewBlocks(b3, 0) == b3;
    ForkBranches(w, b3, 0, o, head + 1, head + 2, b4);
  }

  lemma WhileLoops(w: World, l: Low, st: Stmt, l2: Low, l3: Low, o: M.Operand, active: set<nat>)
    requires st.While? && Typed(st) && Scoped(st, w.users, active) && LoopsFor(l, active)
    requires LoopHead(l, st.scope, l2) && BuildSetup(w.env, l2, st.cond) == Some((l3, o))
    ensures LoopsFor(l2, active + {st.scope}) && LoopsKept(l2, l3, active + {st.scope})
  {
    SetupKeepsLoops(w.env, l2, st.cond, w.users, active + {st.scope});
  }

  lemma WhileFilled(env: Env, l: Low, st: Stmt, l2: Low, l3: Low, o: M.Operand, b4: State, l5: Low, b6: State)
    requires st.While? && Typed(st) && LowWf(l) && WhileSteps(env, l, st, l2, l3, o, b4, l5, b6)
    ensures LoopFilled(l, st.scope, l2, l3, o, b4, l5, b6)
  {
    LoopHeadWf(l, st.scope, l2);
    LoopTested(env, l, st, l2, l3, o, b4);
    BuildIntoFill(env, l3.(b := b4), |l.b.blocks| + 1, st.body, |l.b.blocks|);
  }

  lemma WhileBlocks(b2: State, b3: State, tm: M.Terminator, b4: State, b5: State, b6: State, head: nat)
    requires |b2.blocks| == head + 3 && b2.current == head
             && (forall i :: head <= i < head + 3 ==> b2.blocks[i] == EMPTY_BLOCK)
    requires Seg(b2, b3) && TerminateWith(b3, tm) == Some(b4) && Fill(b4, b5, head + 1)
    requires SwitchTo(b5, head + 2) == Some(b6)
    ensures |b4.blocks| > head + 2 && b4.blocks[head + 1] == EMPTY_BLOCK
    ensures |b6.blocks| > head + 2 && b6.blocks[head + 2] == EMPTY_BLOCK
  {
  }

  lemma IntoStatic(env: Env, l: Low, start: nat, stmts: seq<Stmt>, next: nat, l': Low, g: seq<M.Block>, l0: Low,
                   l1: Low)
    requires AllTyped(stmts) && LowWf(l) && start < |l.b.blocks| && next < |l.b.blocks|
             && l.b.blocks[start] == EMPTY_BLOCK
    requires BuildInto(env, l, start, stmts, next) == Some(l') && Fits(l'.b, g)
    requires SwitchTo(l.b, start).Some? && l0 == l.(b := SwitchTo(l.b, start).value)
             && BuildStmts(env, l0, stmts) == Some(l1)
    ensures LowWf(l0) && !Closed(l0.b) && Fits(l1.b, g) && Wf(l1.b)
    ensures forall t :: Pos(l0.b, t) == M.At(start, 0, t)
  {
    SwitchKeeps(l.b, start);
    BuildStmtsSeg(env, l0, stmts);
    if !Closed(l1.b) {
      TerminateKeeps(l1.b, M.Goto(next));
      FitsBack(l1.b, l'.b, g);
    }
  }

  /** A body that ran to its end jumps to the next block, and one that left has left. */
  lemma IntoEnds(w: World, out: Outcome, l: Low, l0: Low, l1: Low, b': State, next: nat, start: M.Config, n: nat,
                 c: M.Config, active: set<nat>, fuel: nat)
    returns (k: nat, c2: M.Config)
    requires Wf(l1.b) && l0.begins == l.begins && l0.ends == l.ends && LoopsFor(l, active)
    requires if Closed(l1.b) then b' == l1.b else Goto(l1.b, next) == Some(b')
    requires Fits(b', w.g) && M.Run(w.g, w.m, start, n) == c && StmtPost(w, out, l0, l1, active, fuel, n, c)
    ensures M.Run(w.g, w.m, start, k) == c2 && IntoPost(w, out, l, active, fuel, next, k, c2)
  {
    if out.exit == Normal {
      StepTerminate(w, l1.b, M.Goto(next), b', c.store);
      k, c2 := n + 1, M.At(next, 0, c.store);
      Chain(w, start, n, c, 1, c2);
    } else {
      k, c2 := n, c;
      LeftLater(w, out, l, l0, active, fuel, n, n, c);
    }
  }

  // ----- matches -----

  /** The scrutinee sits in a place that no arm assigns. */
  lemma SpilledLocal(env: Env, b: State, e: Expr, b1: State, o: M.Operand, b2: State, place: Place, users: nat)
    requires Wf(b) && users <= |b.locals| && ExprIn(e, users)
    requires BuildOperand(env, b, e) == Some((b1, o)) && SpillOperand(b1, o) == Some((b2, place))
    ensures place.local >= users || (e.Use? && place.local == e.place.local)
  {
    BuildOperandSeg(env, b, e);
    if e.Op? {
      BuildRValueSeg(env, b, e);
    } else if e.CallE? {
      BuildOperandsSeg(env, b, e.args);
    }
  }

  /** Every branch of a match can be run from its block. */
  ghost predicate ArmsReady(w: World, l4: Low, n: nat, merge: nat, b5: State, active: set<nat>) {
    && LowWf(l4) && Fits(b5, w.g) && w.users <= |l4.b.locals| && LoopsFor(l4, active)
    && merge + n + 2 <= |l4.b.blocks| && forall i :: merge <= i < merge + n + 2 ==> l4.b.blocks[i] == EMPTY_BLOCK
  }

  lemma ArmsStart(w: World, l4: Low, n: nat, merge: nat, bbs: seq<nat>, b5: State, active: set<nat>, s: M.Store,
                  t: M.Store)
    requires ArmsReady(w, l4, n, merge, b5, active) && bbs == BlockIds(merge + 1, n) && Same(s, t, w.users)
    ensures Start(w, l4, b5, s, t, active) && merge < |l4.b.blocks|
    ensures Distinct(bbs) && IdsIn(bbs, |l4.b.blocks|)
    ensures forall j :: 0 <= j < |bbs| ==> l4.b.blocks[bbs[j]] == EMPTY_BLOCK
  {
  }

  ghost predicate MatchReady(w: World, l: Low, n: nat, l1: Low, b2: State, b4: State, l5: Low, b8: State,
                             active: set<nat>)
  {
    && Wf(l1.b) && Wf(b2) && Fits(l1.b, w.g) && Fits(b2, w.g) && Fits(b4, w.g)
       && w.users <= |l1.b.locals| <= |b2.locals|
    && LoopsFor(l, active) && LoopsKept(l, l1, active)
    && ArmsReady(w, l1.(b := b4), n, |b2.blocks|, l5.b, active) && MatchEnd(|b2.blocks|, b8)
  }

  lemma MatchStatic(w: World, l: Low, st: Stmt, o: M.Operand, place: Place, tree: DT.Tree, l1: Low, b2: State,
                    b4: State, l5: Low, b7: State, b8: State, active: set<nat>)
    requires st.Match? && Typed(st) && Scoped(st, w.users, active) && LowWf(l) && w.users <= |l.b.locals|
    requires BuildSetup(w.env, l, st.scrut) == Some((l1, o)) && SpillOperand(l1.b, o) == Some((b2, place))
    requires MatchSteps(w.env, st, tree, l1, b2, b4, l5, b7, b8) && Fits(b8, w.g) && LoopsFor(l, active)
    ensures MatchReady(w, l, |st.arms|, l1, b2, b4, l5, b8, active) && (Closed(b2) ==> Closed(l1.b))
  {
    BuildSetupSeg(w.env, l, st.scrut);
    SpillOperandSeg(l1.b, o);
    SetupKeepsLoops(w.env, l, st.scrut, w.users, active);
    MatchFills(w.env, st, tree, l1, b2, b4, l5, b7, b8);
    MatchIsReady(w, l, |st.arms|, l1, b2, b4, l5, b7, b8, active);
  }

  lemma MatchIsReady(w: World, l: Low, n: nat, l1: Low, b2: State, b4: State, l5: Low, b7: State, b8: State,
                     active: set<nat>)
    requires Seg(l1.b, b2) && LowWf(l1.(b := b4)) && MatchFilled(b2, n, b4, l5.b, b7, b8) && Fits(b8, w.g)
    requires w.users <= |l1.b.locals| && LoopsFor(l, active) && LoopsKept(l, l1, active)
    ensures MatchReady(w, l, n, l1, b2, b4, l5, b8, active)
  {
    MatchEnds(b2, n, b4, l5.b, b7, b8);
    FitsBack(l5.b, b8, w.g);
    FitsBack(b4, l5.b, w.g);
    FitsBack(b2, b4, w.g);
    FitsBack(l1.b, b2, w.g);
  }

  ghost predicate MatchStates(b2: State, n: nat, b4: State, b5: State, b8: State) {
    && Wf(NewBlocks(b2, n + 2)) && Wf(b8) && Grow(b2, b4) && Grow(b4, b5) && Grow(b5, b8)
    && |b4.blocks| >= |b2.blocks| + n + 2
    && (forall i :: |b2.blocks| <= i < |b2.blocks| + n + 2 ==> b4.blocks[i] == EMPTY_BLOCK)
    && b8.current == |b2.blocks| && |b2.blocks| < |b8.blocks| && b8.blocks[|b2.blocks|] == EMPTY_BLOCK && !Closed(b8)
  }

  lemma MatchEnds(b2: State, n: nat, b4: State, b5: State, b7: State, b8: State)
    requires Wf(b2) && MatchFilled(b2, n, b4, b5, b7, b8)
    ensures MatchStates(b2, n, b4, b5, b8)
  {
    NewBlocksKeep(b2, n + 2);
    GrowTrans(b2, NewBlocks(b2, n + 2), b4);
    MatchOpen(b2, n, NewBlocks(b2, n + 2), b4, b5, BlockIds(|b2.blocks| + 1, n));
    MatchTail(b5, |b2.blocks| + 1 + n, |b2.blocks|, b7, b8);
    MatchBlocksEmpty(b2, n, b4, b5, b8);
  }

  lemma MatchBlocksEmpty(b2: State, n: nat, b4: State, b5: State, b8: State)
    requires Wf(b2) && Fill(NewBlocks(b2, n + 2), b4, b2.current) && |b4.blocks| >= |b2.blocks| + n + 2
    requires FillAll(b4, b5, Elements(BlockIds(|b2.blocks| + 1, n))) && Untouched(b5, b8, |b2.blocks| + 1 + n)
    requires Grow(b4, b5)
    ensures forall i :: |b2.blocks| <= i < |b2.blocks| + n + 2 ==> b4.blocks[i] == EMPTY_BLOCK
    ensures |b2.blocks| < |b8.blocks| && b8.blocks[|b2.blocks|] == EMPTY_BLOCK
  {
    var ids := BlockIds(|b2.blocks| + 1, n);
    assert |b2.blocks| !in Elements(ids);
  }

  lemma ArmsSplit(w: World, l: Low, arms: seq<Arm>, bbs: seq<nat>, merge: nat, l1: Low, l': Low, active: set<nat>)
    requires arms != [] && |bbs| == |arms| && Distinct(bbs) && IdsIn(bbs, |l.b.blocks|) && merge < |l.b.blocks|
    requires forall j {:trigger arms[j]} :: 0 <= j < |arms| ==>
               AllTyped(arms[j].body) && AllScoped(arms[j].body, w.users, active)
    requires forall j :: 0 <= j < |bbs| ==> l.b.blocks[bbs[j]] == EMPTY_BLOCK
    requires LowWf(l) && Fits(l'.b, w.g) && w.users <= |l.b.locals| && LoopsFor(l, active)
    requires BuildInto(w.env, l, bbs[0], arms[0].body, merge) == Some(l1)
    requires BuildArms(w.env, l1, arms[1..], bbs[1..], merge) == Some(l')
    ensures LowWf(l1) && Fits(l1.b, w.g) && w.users <= |l1.b.locals| && LoopsFor(l1, active) && LoopsKept(l, l1, active)
    ensures IdsIn(bbs[1..], |l1.b.blocks|) && merge < |l1.b.blocks| && Distinct(bbs[1..])
    ensures forall j :: 0 <= j < |bbs[1..]| ==> l1.b.blocks[bbs[1..][j]] == EMPTY_BLOCK
  {
    BuildIntoFill(w.env, l, bbs[0], arms[0].body, merge);
    BuildArmsFill(w.env, l1, arms[1..], bbs[1..], merge);
    IntoKeepsLoops(w.env, l, bbs[0], arms[0].body, merge, w.users, active);
    FitsBack(l1.b, l'.b, w.g);
    forall j | 0 <= j < |bbs[1..]| ensures l1.b.blocks[bbs[1..][j]] == EMPTY_BLOCK {
      assert bbs[0] != bbs[j + 1];
    }
  }

  lemma ScrutineeKept(w: World, l: Low, st: Stmt, l1: Low, o: M.Operand, b2: State, place: Place, active: set<nat>)
    requires st.Match? && Typed(st) && Scoped(st, w.users, active) && LowWf(l) && w.users <= |l.b.locals|
    requires BuildSetup(w.env, l, st.scrut) == Some((l1, o)) && SpillOperand(l1.b, o) == Some((b2, place))
    ensures BoundElsewhere(st.arms, place.local)
  {
    var l0 := BuildStmts(w.env, l, st.scrut.stmts).value;
    BuildStmtsSeg(w.env, l, st.scrut.stmts);
    SpilledLocal(w.env, l0.b, st.scrut.expr, l1.b, o, b2, place, w.users);
    forall i | 0 <= i < |st.arms|
      ensures Distinct(BinderLocals(st.arms[i].pat)) && place.local !in BinderLocals(st.arms[i].pat)
    {
      assert ArmScoped(st.arms[i], st.scrut.expr, w.users);
    }
  }

  /** What running a match needs to know about how it was lowered. */
  lemma MatchPlan(w: World, l: Low, st: Stmt, l': Low, active: set<nat>)
    returns (l1: Low, o: M.Operand, merge: nat, l4: Low, l5: Low)
    requires st.Match? && Typed(st) && Kept(st) && Scoped(st, w.users, active) && LowWf(l) && w.users <= |l.b.locals|
             && !Closed(l.b)
    requires BuildMatch(w.env, l, st) == Some(l') && Fits(l'.b, w.g) && LoopsFor(l, active)
    ensures BuildSetup(w.env, l, st.scrut) == Some((l1, o)) && Fits(l1.b, w.g)
    ensures BuildArms(w.env, l4, st.arms, BlockIds(merge + 1, |st.arms|), merge) == Some(l5)
    ensures ArmsReady(w, l4, |st.arms|, merge, l5.b, active) && LoopsKept(l, l4, active) && MatchEnd(merge, l'.b)
    ensures !Closed(l1.b) && OperandBelow(o, |l1.b.locals|) ==>
            Dispatches(w, st.arms, l1.b, o, TypeOf(st.scrut.expr), merge + 1)
  {
    var b2, place, tree, b4, b7, b8;
    l1, o, b2, place, tree, b4, l5, b7, b8 := MatchDecided(w.env, l, st);
    MatchArmsReady(w, l, st, o, place, tree, l1, b2, b4, l5, b7, b8, active);
    merge, l4 := |b2.blocks|, l1.(b := b4);
    if !Closed(l1.b) && OperandBelow(o, |l1.b.locals|) {
      MatchTestsReady(w, l, st, o, place, tree, l1, b2, b4, l5, b7, b8, active);
    }
  }

  lemma MatchArmsReady(w: World, l: Low, st: Stmt, o: M.Operand, place: Place, tree: DT.Tree, l1: Low, b2: State,
                       b4: State, l5: Low, b7: State, b8: State, active: set<nat>)
    requires st.Match? && Typed(st) && Scoped(st, w.users, active) && LowWf(l) && w.users <= |l.b.locals|
    requires BuildSetup(w.env, l, st.scrut) == Some((l1, o)) && SpillOperand(l1.b, o) == Some((b2, place))
    requires MatchSteps(w.env, st, tree, l1, b2, b4, l5, b7, b8) && Fits(b8, w.g) && LoopsFor(l, active)
    ensures Fits(l1.b, w.g) && ArmsReady(w, l1.(b := b4), |st.arms|, |b2.blocks|, l5.b, active)
    ensures LoopsKept(l, l1, active) && MatchEnd(|b2.blocks|, b8)
  {
    MatchStatic(w, l, st, o, place, tree, l1, b2, b4, l5, b7, b8, active);
  }

  lemma MatchTestsReady(w: World, l: Low, st: Stmt, o: M.Operand, place: Place, tree: DT.Tree, l1: Low, b2: State,
                        b4: State, l5: Low, b7: State, b8: State, active: set<nat>)
    requires st.Match? && Typed(st) && Scoped(st, w.users, active) && LowWf(l) && w.users <= |l.b.locals|
    requires BuildSetup(w.env, l, st.scrut) == Some((l1, o)) && SpillOperand(l1.b, o) == Some((b2, place))
    requires MatchSteps(w.env, st, tree, l1, b2, b4, l5, b7, b8) && Fits(b8, w.g) && LoopsFor(l, active)
    requires Decides(tree, place, st.arms) && !Closed(l1.b) && OperandBelow(o, |l1.b.locals|)
    ensures Dispatches(w, st.arms, l1.b, o, place.ty, |b2.blocks| + 1)
  {
    MatchDispatchReady(w, l, st, o, place, tree, l1, b2, b4, l5, b7, b8, active);
    MatchDispatches(w, st, o, place, tree, l1, b2, b4, l5, b7, b8);
  }

  lemma MatchDecided(env: Env, l: Low, st: Stmt)
    returns (l1: Low, o: M.Operand, b2: State, place: Place, tree: DT.Tree, b4: State, l5: Low, b7: State, b8: State)
    requires st.Match? && Typed(st) && Kept(st) && BuildMatch(env, l, st).Some?
    ensures BuildSetup(env, l, st.scrut) == Some((l1, o)) && SpillOperand(l1.b, o) == Some((b2, place))
    ensures Decides(tree, place, st.arms)
    ensures MatchSteps(env, st, tree, l1, b2, b4, l5, b7, b8)
    ensures BuildMatch(env, l, st) == Some(l5.(b := b8))
  {
    l1, o, b2, place, tree, b4, l5, b7, b8 := BuildMatchSteps(env, l, st);
    CompileDecides(place, st.arms);
  }

  ghost predicate DispatchReady(w: World, b1: State, b2: State, b4: State) {
    && Wf(b1) && Wf(b2) && Fits(b2, w.g) && Fits(b4, w.g) && w.users <= |b1.locals| <= |b2.locals|
    && (Closed(b2) ==> Closed(b1))
  }

  lemma MatchDispatchReady(w: World, l: Low, st: Stmt, o: M.Operand, place: Place, tree: DT.Tree, l1: Low, b2: State,
                           b4: State, l5: Low, b7: State, b8: State, active: set<nat>)
    requires st.Match? && Typed(st) && Scoped(st, w.users, active) && LowWf(l) && w.users <= |l.b.locals|
    requires BuildSetup(w.env, l, st.scrut) == Some((l1, o)) && SpillOperand(l1.b, o) == Some((b2, place))
    requires MatchSteps(w.env, st, tree, l1, b2, b4, l5, b7, b8) && Fits(b8, w.g) && LoopsFor(l, active)
    ensures DispatchReady(w, l1.b, b2, b4) && BoundElsewhere(st.arms, place.local)
  {
    MatchStatic(w, l, st, o, place, tree, l1, b2, b4, l5, b7, b8, active);
    ScrutineeKept(w, l, st, l1, o, b2, place, active);
  }

  lemma MatchDispatches(w: World, st: Stmt, o: M.Operand, place: Place, tree: DT.Tree, l1: Low, b2: State, b4: State,
                        l5: Low, b7: State, b8: State)
    requires st.Match? && Typed(st) && MatchSteps(w.env, st, tree, l1, b2, b4, l5, b7, b8)
    requires SpillOperand(l1.b, o) == Some((b2, place)) && DispatchReady(w, l1.b, b2, b4)
             && BoundElsewhere(st.arms, place.local)
    requires Decides(tree, place, st.arms) && !Closed(l1.b) && OperandBelow(o, |l1.b.locals|)
    ensures Dispatches(w, st.arms, l1.b, o, place.ty, |b2.blocks| + 1)
  {
    SimDispatch(w, st.arms, l1.b, o, place, tree, b2, b4);
  }
}
