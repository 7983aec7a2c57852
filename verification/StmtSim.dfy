/** Running the blocks of a statement executes the statement. */
module StmtSim {
  import opened Core
  import M = Mir
  import opened Thir
  import opened Builder
  import opened Lowering
  import opened LoweringShape
  import opened LoweringSim
  import opened Scoping

  // ----- what running a lowered part must achieve -----

  /** The source left the part early (or never left it) and the graph did the same. */
  ghost predicate Left(w: World, out: Outcome, l: Low, active: set<nat>, fuel: nat, n: nat, c: M.Config) {
    match out.exit
    case Normal => false
    case BreakTo(sc) =>
      sc in active && sc in l.ends && c == M.At(l.ends[sc], 0, c.store) && Same(out.store, c.store, w.users)
    case ContinueTo(sc) =>
      n > 0 && sc in active && sc in l.begins && c == M.At(l.begins[sc], 0, c.store)
        && Same(out.store, c.store, w.users)
    case Ret(v) => c == M.Done(M.Returned(v), c.store) && Same(out.store, c.store, w.users)
    case Diverges => c == M.Done(M.Diverged, c.store) && Same(out.store, c.store, w.users)
    case Broken => true
    case OutOfFuel => n >= fuel && c.At?
  }

  ghost predicate StmtPost(w: World, out: Outcome, l: Low, l': Low, active: set<nat>, fuel: nat, n: nat, c: M.Config) {
    match out.exit
    case Normal =>
      && l'.b.current < |l'.b.blocks| && !Closed(l'.b)
      && c == Pos(l'.b, c.store) && Same(out.store, c.store, w.users)
    case _ => Left(w, out, l, active, fuel, n, c)
  }

  /** A part lowered into a block of its own ends at the start of the next one. */
  ghost predicate IntoPost(w: World, out: Outcome, l: Low, active: set<nat>, fuel: nat, next: nat, n: nat, c: M.Config)
  {
    match out.exit
    case Normal => c == M.At(next, 0, c.store) && Same(out.store, c.store, w.users)
    case _ => Left(w, out, l, active, fuel, n, c)
  }

  /** The outcome of a setup followed by its expression. */
  ghost predicate SetupPost(w: World, r: Outcome, e: Expr, l: Low, l': Low, o: M.Operand, active: set<nat>, fuel: nat,
                            n: nat, c: M.Config)
  {
    match r.exit
    case Normal =>
      (match EvalExpr(w.m, r.store, e)
       case Bad => true
       case Div => c == M.Done(M.Diverged, c.store) && Same(r.store, c.store, w.users)
       case Val(v) =>
         && l'.b.current < |l'.b.blocks| && !Closed(l'.b) && c == Pos(l'.b, c.store)
         && Same(r.store, c.store, w.users)
         && OperandBelow(o, |l'.b.locals|) && M.EvalOperand(c.store, o) == Some(v))
    case _ => Left(w, r, l, active, fuel, n, c)
  }

  ghost predicate LoopsFor(l: Low, active: set<nat>) {
    forall sc :: sc in active ==> sc in l.begins && sc in l.ends
  }

  ghost predicate Start(w: World, l: Low, b': State, s: M.Store, t: M.Store, active: set<nat>) {
    match l
    case Low(b, _, _) =>
      && LowWf(l) && Fits(b', w.g) && w.users <= |b.locals| && Same(s, t, w.users)
      && LoopsFor(l, active)
  }

  lemma LeftLater(w: World, out: Outcome, l: Low, l1: Low, active: set<nat>, fuel: nat, k: nat, n: nat, c: M.Config)
    requires Left(w, out, l1, active, fuel, k, c) && LoopsKept(l, l1, active) && LoopsFor(l, active) && k <= n
    ensures Left(w, out, l, active, fuel, n, c)
  {
  }

  // ----- simple statements -----

  lemma ExprExit(w: World, l: Low, l': Low, active: set<nat>, fuel: nat, r: Eval<Value>, s: M.Store, t: M.Store, n: nat,
                 c: M.Config)
    requires Same(s, t, w.users) && w.users <= |l.b.locals|
    requires r.Div? && Stopped(l.b, t, c)
    ensures StmtPost(w, Outcome(Diverges, s), l, l', active, fuel, n, c)
  {
    SameTrans(s, t, c.store, w.users, |l.b.locals|);
  }

  lemma WriteSame(s: M.Store, t: M.Store, p: Place, v: Value, users: nat)
    requires Same(s, t, users) && p.local < users
    ensures M.WritePlace(s, p, v).Some? <==> M.WritePlace(t, p, v).Some?
    ensures M.WritePlace(s, p, v).Some? ==> Same(M.WritePlace(s, p, v).value, M.WritePlace(t, p, v).value, users)
  {
  }

  /** Evaluate, then store: let and assignment. */
  lemma SimStore(w: World, l: Low, e: Expr, dest: Place, b': State, s: M.Store, t: M.Store, active: set<nat>, fuel: nat)
    returns (n: nat, c: M.Config)
    requires Start(w, l, b', s, t, active) && ExprIn(e, w.users) && dest.local < w.users
    requires BuildRValue(w.env, l.b, e).Some?
    requires Emit(BuildRValue(w.env, l.b, e).value.0, M.AssignTo(dest, BuildRValue(w.env, l.b, e).value.1)) == Some(b')
    ensures M.Run(w.g, w.m, Pos(l.b, t), n) == c
    ensures StmtPost(w, EvalStore(w.m, s, e, dest), l, l.(b := b'), active, fuel, n, c)
  {
    var (b1, rv) := BuildRValue(w.env, l.b, e).value;
    BuildRValueSeg(w.env, l.b, e);
    EmitSeg(b1, M.AssignTo(dest, rv));
    FitsBack(b1, b', w.g);
    n, c := SimRValue(w, l.b, e, b1, rv, s, t);
    var r := EvalExpr(w.m, s, e);
    if r.Div? {
      ExprExit(w, l, l.(b := b'), active, fuel, r, s, t, n, c);
    } else if r.Val? && M.WritePlace(s, dest, r.v).Some? {
      var t1 := c.store;
      SameTrans(s, t, t1, w.users, |l.b.locals|);
      WriteSame(s, t1, dest, r.v, w.users);
      var t2 := M.WritePlace(t1, dest, r.v).value;
      StepEmit(w, b1, M.AssignTo(dest, rv), b', t1, t2);
      Chain(w, Pos(l.b, t), n, c, 1, Pos(b', t2));
      n, c := n + 1, Pos(b', t2);
    }
  }

  /** What an expression statement, or a return of the expression, amounts to. */
  ghost function ExprOutcome(m: M.Machine, s: M.Store, e: Expr, returned: bool): Outcome {
    match EvalExpr(m, s, e)
    case Div => Outcome(Diverges, s)
    case Bad => Outcome(Broken, s)
    case Val(v) => Outcome(if returned then Ret(Some(v)) else Normal, s)
  }

  /** An expression evaluated for its effects. */
  lemma SimExprStmt(w: World, l: Low, e: Expr, b': State, s: M.Store, t: M.Store, active: set<nat>, fuel: nat)
    returns (n: nat, c: M.Config)
    requires Start(w, l, b', s, t, active) && ExprIn(e, w.users) && !Closed(l.b)
    requires BuildRValue(w.env, l.b, e).Some?
    requires SpillRValue(BuildRValue(w.env, l.b, e).value.0, BuildRValue(w.env, l.b, e).value.1, TypeOf(e)) == Some(b')
    ensures M.Run(w.g, w.m, Pos(l.b, t), n) == c
    ensures StmtPost(w, ExprOutcome(w.m, s, e, false), l, l.(b := b'), active, fuel, n, c)
  {
    var (b1, rv) := BuildRValue(w.env, l.b, e).value;
    BuildRValueSeg(w.env, l.b, e);
    SpillRValueSeg(b1, rv, TypeOf(e));
    FitsBack(b1, b', w.g);
    n, c := SimRValue(w, l.b, e, b1, rv, s, t);
    var r := EvalExpr(w.m, s, e);
    if r.Div? {
      ExprExit(w, l, l.(b := b'), active, fuel, r, s, t, n, c);
    } else if r.Val? {
      SameTrans(s, t, c.store, w.users, |l.b.locals|);
      n, c := SimEffect(w, b1, rv, TypeOf(e), b', r.v, s, Pos(l.b, t), n, c);
    }
  }

  /** The value of an expression statement is spilled or dropped. */
  lemma SimEffect(w: World, b1: State, rv: M.RValue, ty: Ty, b': State, v: Value, s: M.Store, start: M.Config, n: nat,
                  c: M.Config)
    returns (k: nat, c2: M.Config)
    requires Wf(b1) && SpillRValue(b1, rv, ty) == Some(b') && Fits(b', w.g) && w.users <= |b1.locals|
    requires c.At? && c == Pos(b1, c.store) && M.Run(w.g, w.m, start, n) == c
    requires M.EvalRValue(w.m, c.store, rv) == Some(v) && Same(s, c.store, w.users)
    ensures b'.current < |b'.blocks| && M.Run(w.g, w.m, start, k) == c2
    ensures c2.At? && c2 == Pos(b', c2.store) && Same(s, c2.store, w.users)
  {
    if b' == b1 {
      k, c2 := n, c;
    } else {
      var j := SimSpill(w, b1, rv, ty, b', v, c.store);
      c2 := Pos(b', c.store[|b1.locals| := v]);
      Chain(w, start, n, c, j, c2);
      k := n + j;
    }
  }

  lemma SimSpill(w: World, b1: State, rv: M.RValue, ty: Ty, b': State, v: Value, t1: M.Store) returns (k: nat)
    requires Wf(b1) && SpillRValue(b1, rv, ty) == Some(b') && b' != b1 && Fits(b', w.g)
    requires M.EvalRValue(w.m, t1, rv) == Some(v)
    ensures b'.current < |b'.blocks| && M.Run(w.g, w.m, Pos(b1, t1), k) == Pos(b', t1[|b1.locals| := v])
  {
    SpillStep(w, b1, rv, ty, b', v, t1);
    k := 1;
  }

  lemma SimReturnExpr(w: World, l: Low, e: Expr, b': State, s: M.Store, t: M.Store, active: set<nat>, fuel: nat)
    returns (n: nat, c: M.Config)
    requires Start(w, l, b', s, t, active) && ExprIn(e, w.users) && BuildOperand(w.env, l.b, e).Some?
    requires var (b1, o) := BuildOperand(w.env, l.b, e).value; Returns(b1, M.Return(Some(o)), b')
    ensures M.Run(w.g, w.m, Pos(l.b, t), n) == c
    ensures StmtPost(w, ExprOutcome(w.m, s, e, true), l, l.(b := b'), active, fuel, n, c)
  {
    var (b1, o) := BuildOperand(w.env, l.b, e).value;
    BuildOperandSeg(w.env, l.b, e);
    ReturnFits(w, b1, M.Return(Some(o)), b');
    n, c := SimOperand(w, l.b, e, b1, o, s, t);
    var r := EvalExpr(w.m, s, e);
    if r.Div? {
      ExprExit(w, l, l.(b := b'), active, fuel, r, s, t, n, c);
    } else if r.Val? {
      var t1 := c.store;
      SameTrans(s, t, t1, w.users, |l.b.locals|);
      ReturnStep(w, b1, M.Return(Some(o)), b', t1);
      Chain(w, Pos(l.b, t), n, c, 1, M.Done(M.Returned(Some(r.v)), t1));
      n, c := n + 1, M.Done(M.Returned(Some(r.v)), t1);
    }
  }

  /** A return closes the block and opens a dead one. */
  ghost predicate Returns(b1: State, tm: M.Terminator, b': State) {
    match TerminateWith(b1, tm)
    case None => false
    case Some(b2) => SwitchTo(NewBlock(b2), |b2.blocks|) == Some(b')
  }

  lemma ReturnFits(w: World, b1: State, tm: M.Terminator, b': State)
    requires Wf(b1) && tm.Return? && Returns(b1, tm, b') && Fits(b', w.g)
    ensures Fits(TerminateWith(b1, tm).value, w.g) && Fits(b1, w.g)
  {
    var b2 := TerminateWith(b1, tm).value;
    TerminateKeeps(b1, tm);
    NewBlockKeeps(b2);
    SwitchKeeps(NewBlock(b2), |b2.blocks|);
    GrowTrans(b2, NewBlock(b2), b');
    FitsBack(b2, b', w.g);
    FitsBack(b1, b2, w.g);
  }

  lemma ReturnStep(w: World, b1: State, tm: M.Terminator, b': State, t: M.Store)
    requires Wf(b1) && tm.Return? && Returns(b1, tm, b') && Fits(b', w.g)
    ensures M.Run(w.g, w.m, Pos(b1, t), 1) == M.Terminate(w.m, t, tm)
  {
    ReturnFits(w, b1, tm, b');
    StepTerminate(w, b1, tm, TerminateWith(b1, tm).value, t);
  }

  lemma SimReturnVoid(w: World, l: Low, b': State, s: M.Store, t: M.Store, active: set<nat>, fuel: nat)
    returns (n: nat, c: M.Config)
    requires Start(w, l, b', s, t, active) && Returns(l.b, M.Return(None), b')
    ensures M.Run(w.g, w.m, Pos(l.b, t), n) == c
    ensures StmtPost(w, Outcome(Ret(None), s), l, l.(b := b'), active, fuel, n, c)
  {
    ReturnStep(w, l.b, M.Return(None), b', t);
    n, c := 1, M.Done(M.Returned(None), t);
  }

  lemma SimJump(w: World, l: Low, target: nat, b': State, t: M.Store) returns (n: nat, c: M.Config)
    requires LowWf(l) && Goto(l.b, target) == Some(b') && Fits(b', w.g)
    ensures n == 1 && M.Run(w.g, w.m, Pos(l.b, t), n) == c && c == M.At(target, 0, t)
  {
    StepTerminate(w, l.b, M.Goto(target), b', t);
    n, c := 1, M.At(target, 0, t);
  }

  lemma SimReturn(w: World, l: Low, value: Option<Expr>, l': Low, s: M.Store, t: M.Store, active: set<nat>, fuel: nat)
    returns (n: nat, c: M.Config)
    requires (value.Some? ==> ExprIn(value.value, w.users)) && Start(w, l, l'.b, s, t, active)
    requires BuildStmt(w.env, l, ReturnS(value)) == Some(l')
    ensures M.Run(w.g, w.m, Pos(l.b, t), n) == c
    ensures StmtPost(w, Exec(w.m, ReturnS(value), s, fuel), l, l', active, fuel, n, c)
  {
    if value.None? {
      n, c := SimReturnVoid(w, l, l'.b, s, t, active, fuel);
    } else {
      n, c := SimReturnExpr(w, l, value.value, l'.b, s, t, active, fuel);
      assert Exec(w.m, ReturnS(value), s, fuel) == ExprOutcome(w.m, s, value.value, true);
    }
  }

  predicate IsSimple(st: Stmt) {
    !st.Body? && !st.If? && !st.While? && !st.Match?
  }

  lemma SimSimple(w: World, l: Low, st: Stmt, l': Low, s: M.Store, t: M.Store, active: set<nat>, fuel: nat)
    returns (n: nat, c: M.Config)
    requires IsSimple(st) && Typed(st) && Scoped(st, w.users, active) && !Closed(l.b)
    requires BuildStmt(w.env, l, st) == Some(l') && Start(w, l, l'.b, s, t, active)
    ensures M.Run(w.g, w.m, Pos(l.b, t), n) == c
    ensures StmtPost(w, Exec(w.m, st, s, fuel), l, l', active, fuel, n, c)
  {
    match st
    case Let(x, init) =>
      var dest := PlaceOfLocal(l.b, x).value;
      n, c := SimStore(w, l, init, dest, l'.b, s, t, active, fuel);
      assert Exec(w.m, st, s, fuel) == EvalStore(w.m, s, init, dest);
    case Assign(p, rhs) => n, c := SimStore(w, l, rhs, p, l'.b, s, t, active, fuel);
    case ReturnS(value) => n, c := SimReturn(w, l, value, l', s, t, active, fuel);
    case Break(scope) => n, c := SimJump(w, l, l.ends[scope], l'.b, t);
    case Continue(scope) => n, c := SimJump(w, l, l.begins[scope], l'.b, t);
    case ExprS(e) =>
      n, c := SimExprStmt(w, l, e, l'.b, s, t, active, fuel);
      assert Exec(w.m, st, s, fuel) == ExprOutcome(w.m, s, e, false);
    case ErrorS => n, c := 0, Pos(l.b, t);
  }
}
