/** Running the blocks of an expression computes the expression. */
module LoweringSim {
  import opened Core
  import M = Mir
  import opened Thir
  import opened Builder
  import opened Lowering
  import opened LoweringShape

  /** The finished graph, the machine it runs on and the number of locals the source names. */
  datatype World = World(env: Env, g: seq<M.Block>, m: M.Machine, users: nat)

  /** The graph continues what the builder has written so far. */
  ghost predicate Fits(b: State, g: seq<M.Block>) {
    && |b.blocks| <= |g|
    && forall i :: 0 <= i < |b.blocks| ==>
         b.blocks[i].stmts <= g[i].stmts && (i in b.finalized ==> g[i] == b.blocks[i])
  }

  lemma FitsBack(b: State, b': State, g: seq<M.Block>)
    requires Grow(b, b') && Fits(b', g)
    ensures Fits(b, g)
  {
  }

  /** Where the next statement of the current block goes. */
  ghost function Pos(b: State, t: M.Store): M.Config
    requires b.current < |b.blocks|
  {
    M.At(b.current, |b.blocks[b.current].stmts|, t)
  }

  /** The stores agree on the first n locals. */
  ghost predicate Same(s: M.Store, t: M.Store, n: nat) {
    forall x: nat :: x < n ==> (x in s <==> x in t) && (x in s ==> s[x] == t[x])
  }

  lemma SameTrans(a: M.Store, b: M.Store, c: M.Store, n: nat, k: nat)
    requires Same(a, b, n) && Same(b, c, k) && n <= k
    ensures Same(a, c, n)
  {
  }

  lemma Chain(w: World, a: M.Config, i: nat, b: M.Config, j: nat, c: M.Config)
    requires M.Run(w.g, w.m, a, i) == b && M.Run(w.g, w.m, b, j) == c
    ensures M.Run(w.g, w.m, a, i + j) == c
  {
    M.RunAdd(w.g, w.m, a, i, j);
  }

  lemma OneStep(w: World, a: M.Config, b: M.Config)
    requires M.Step(w.g, w.m, a) == b
    ensures M.Run(w.g, w.m, a, 1) == b
  {
    assert M.Run(w.g, w.m, a, 1) == M.Run(w.g, w.m, b, 0);
  }

  lemma StepEmit(w: World, b: State, st: M.MirStmt, b': State, t: M.Store, t': M.Store)
    requires Wf(b) && Emit(b, st) == Some(b') && Fits(b', w.g) && M.ExecStmt(w.m, t, st) == Some(t')
    ensures M.Run(w.g, w.m, Pos(b, t), 1) == Pos(b', t')
  {
    var i := |b.blocks[b.current].stmts|;
    assert b'.blocks[b.current].stmts[i] == st;
    assert w.g[b.current].stmts[i] == st;
    OneStep(w, Pos(b, t), Pos(b', t'));
  }

  lemma StepTerminate(w: World, b: State, tm: M.Terminator, b': State, t: M.Store)
    requires Wf(b) && TerminateWith(b, tm) == Some(b') && Fits(b', w.g)
    ensures M.Run(w.g, w.m, Pos(b, t), 1) == M.Terminate(w.m, t, tm)
  {
    assert w.g[b.current] == b'.blocks[b.current];
    OneStep(w, Pos(b, t), M.Terminate(w.m, t, tm));
  }

  // ----- operands read below a bound -----

  ghost predicate OperandBelow(o: M.Operand, n: nat) {
    o.Constant? || o.place.local < n
  }

  ghost predicate OperandsBelow(os: seq<M.Operand>, n: nat) {
    forall i :: 0 <= i < |os| ==> OperandBelow(os[i], n)
  }

  ghost predicate RValueBelow(r: M.RValue, n: nat) {
    match r
    case UseOf(o) => OperandBelow(o, n)
    case Pure(_, os, _) => OperandsBelow(os, n)
    case Discriminant(p, _) => p.local < n
  }

  lemma OperandSame(o: M.Operand, s: M.Store, t: M.Store, n: nat)
    requires OperandBelow(o, n) && Same(s, t, n)
    ensures M.EvalOperand(s, o) == M.EvalOperand(t, o)
  {
  }

  /** The source expression only names source locals. */
  ghost predicate ExprIn(e: Expr, users: nat)
    decreases e
  {
    match e
    case Const(_, _) => true
    case Use(p) => p.local < users
    case Op(_, args, _) => forall i :: 0 <= i < |args| ==> ExprIn(args[i], users)
    case CallE(_, args, _) => forall i :: 0 <= i < |args| ==> ExprIn(args[i], users)
  }

  // ----- running expressions -----

  /** The builder state and stores at which an expression starts. */
  ghost predicate Ready(w: World, b: State, b': State, s: M.Store, t: M.Store) {
    Wf(b) && Fits(b', w.g) && w.users <= |b.locals| && Same(s, t, w.users)
  }

  /** A value was computed: execution is where the builder ended and older locals are intact. */
  ghost predicate Arrived(b: State, b': State, t: M.Store, c: M.Config) {
    b'.current < |b'.blocks| && c.At? && c == Pos(b', c.store) && Same(t, c.store, |b.locals|)
  }

  ghost predicate Stopped(b: State, t: M.Store, c: M.Config) {
    c.Done? && c.result == M.Diverged && Same(t, c.store, |b.locals|)
  }

  ghost predicate OperandPost(w: World, r: Eval<Value>, b: State, b': State, o: M.Operand, t: M.Store, c: M.Config) {
    match r
    case Val(v) => Arrived(b, b', t, c) && OperandBelow(o, |b'.locals|) && M.EvalOperand(c.store, o) == Some(v)
    case Div => Stopped(b, t, c)
    case Bad => true
  }

  ghost predicate OperandsPost(w: World, r: Eval<seq<Value>>, b: State, b': State, os: seq<M.Operand>, t: M.Store,
                               c: M.Config)
  {
    match r
    case Val(vs) => Arrived(b, b', t, c) && OperandsBelow(os, |b'.locals|) && M.EvalOperands(c.store, os) == Some(vs)
    case Div => Stopped(b, t, c)
    case Bad => true
  }

  ghost predicate RValuePost(w: World, r: Eval<Value>, b: State, b': State, rv: M.RValue, t: M.Store, c: M.Config) {
    match r
    case Val(v) => Arrived(b, b', t, c) && RValueBelow(rv, |b'.locals|) && M.EvalRValue(w.m, c.store, rv) == Some(v)
    case Div => Stopped(b, t, c)
    case Bad => true
  }

  lemma UseReads(w: World, s: M.Store, t: M.Store, p: Place)
    requires p.local < w.users && Same(s, t, w.users)
    ensures M.ReadPlace(s, p) == M.ReadPlace(t, p)
  {
  }

  /** The call itself, once its operands are ready. */
  lemma SimCall(w: World, b: State, callee: nat, ops: seq<M.Operand>, ty: Ty, b': State, local: nat, vs: seq<Value>,
                t: M.Store)
    returns (n: nat, c: M.Config)
    requires Wf(b) && BuildCall(b, callee, ops, ty) == Some((b', local)) && Fits(b', w.g)
    requires M.EvalOperands(t, ops) == Some(vs)
    ensures M.Run(w.g, w.m, Pos(b, t), n) == c && local == |b.locals| && local < |b'.locals|
    ensures match w.m.call(callee, vs)
            case Some(v) =>
              if ty == NeverT then Stopped(b, t, c)
              else Arrived(b, b', t, c) && local in c.store && c.store[local] == v
            case None => Stopped(b, t, c)
  {
    var next := |b.blocks|;
    var b0 := NewLocal(NewBlock(b), ty);
    var tm := M.Call(callee, ops, |b.locals|, next);
    var b1 := TerminateWith(b0, tm).value;
    var b2 := SwitchTo(b1, next).value;
    BuildCallSeg(b, callee, ops, ty);
    CallClosed(b, tm, ty, b1, b2);
    if ty != NeverT {
      FitsBack(b1, b2, w.g);
      StepTerminate(w, b0, tm, b1, t);
      n, c := 1, M.Terminate(w.m, t, tm);
    } else {
      var b3 := TerminateWith(b2, M.Diverge).value;
      NeverClosed(w, b2, b3, b');
      FitsBack(b1, b2, w.g);
      StepTerminate(w, b0, tm, b1, t);
      n, c := 1, M.Terminate(w.m, t, tm);
      if c.At? {
        StepTerminate(w, b2, M.Diverge, b3, c.store);
        assert Pos(b2, c.store) == c;
        Chain(w, Pos(b, t), 1, c, 1, M.Done(M.Diverged, c.store));
        n, c := 2, M.Done(M.Diverged, c.store);
      }
    }
  }

  lemma CallClosed(b: State, tm: M.Terminator, ty: Ty, b1: State, b2: State)
    requires Wf(b) && TargetsIn(tm, |b.blocks| + 1)
    requires TerminateWith(NewLocal(NewBlock(b), ty), tm) == Some(b1) && SwitchTo(b1, |b.blocks|) == Some(b2)
    ensures Wf(NewLocal(NewBlock(b), ty)) && Wf(b2) && Grow(b1, b2) && !Closed(b2)
    ensures b2.current == |b.blocks| && b2.blocks[|b.blocks|] == EMPTY_BLOCK
    ensures forall t :: Pos(NewLocal(NewBlock(b), ty), t) == Pos(b, t)
  {
    NewBlockKeeps(b);
    NewLocalSeg(NewBlock(b), ty);
    TerminateKeeps(NewLocal(NewBlock(b), ty), tm);
    SwitchKeeps(b1, |b.blocks|);
  }

  lemma NeverClosed(w: World, b2: State, b3: State, b4: State)
    requires Wf(b2) && TerminateWith(b2, M.Diverge) == Some(b3) && SwitchTo(NewBlock(b3), |b3.blocks|) == Some(b4)
             && Fits(b4, w.g)
    ensures Fits(b3, w.g) && Fits(b2, w.g)
  {
    TerminateKeeps(b2, M.Diverge);
    NewBlockKeeps(b3);
    SwitchKeeps(NewBlock(b3), |b3.blocks|);
    GrowTrans(b3, NewBlock(b3), b4);
    FitsBack(b3, b4, w.g);
    FitsBack(b2, b3, w.g);
  }

  lemma {:induction false} SimOperands(w: World, b: State, es: seq<Expr>, b': State, os: seq<M.Operand>, s: M.Store,
                                       t: M.Store)
    returns (n: nat, c: M.Config)
    requires BuildOperands(w.env, b, es) == Some((b', os)) && Ready(w, b, b', s, t)
    requires forall i :: 0 <= i < |es| ==> ExprIn(es[i], w.users)
    ensures M.Run(w.g, w.m, Pos(b, t), n) == c
    ensures OperandsPost(w, EvalExprs(w.m, s, es), b, b', os, t, c)
    decreases es, 3
  {
    if es == [] {
      n, c := 0, Pos(b, t);
    } else {
      var (b1, o) := BuildOperand(w.env, b, es[0]).value;
      var (b2, rest) := BuildOperands(w.env, b1, es[1..]).value;
      OperandsSplit(w, b, es, b1, b2);
      n, c := SimOperand(w, b, es[0], b1, o, s, t);
      if EvalExpr(w.m, s, es[0]).Val? {
        var t1 := c.store;
        SameTrans(s, t, t1, w.users, |b.locals|);
        var k, c2 := SimOperands(w, b1, es[1..], b2, rest, s, t1);
        Chain(w, Pos(b, t), n, c, k, c2);
        OneMoreOperand(w, EvalExpr(w.m, s, es[0]).v, EvalExprs(w.m, s, es[1..]), b, b1, b2, o, rest, t, t1, c2);
        n, c := n + k, c2;
      }
    }
  }

  lemma OperandsSplit(w: World, b: State, es: seq<Expr>, b1: State, b2: State)
    requires es != [] && BuildOperand(w.env, b, es[0]).Some? && b1 == BuildOperand(w.env, b, es[0]).value.0
    requires BuildOperands(w.env, b1, es[1..]).Some? && b2 == BuildOperands(w.env, b1, es[1..]).value.0
    requires Wf(b) && Fits(b2, w.g)
    ensures Wf(b1) && Fits(b1, w.g) && |b.locals| <= |b1.locals| <= |b2.locals|
    ensures (Closed(b1) ==> Closed(b)) && (Closed(b2) ==> Closed(b1))
  {
    BuildOperandSeg(w.env, b, es[0]);
    BuildOperandsSeg(w.env, b1, es[1..]);
    FitsBack(b1, b2, w.g);
  }

  lemma OneMoreOperand(w: World, v: Value, r: Eval<seq<Value>>, b: State, b1: State, b2: State, o: M.Operand,
                       os: seq<M.Operand>, t: M.Store, t1: M.Store, c: M.Config)
    requires OperandBelow(o, |b1.locals|) && M.EvalOperand(t1, o) == Some(v) && Same(t, t1, |b.locals|)
    requires |b.locals| <= |b1.locals| <= |b2.locals| && OperandsPost(w, r, b1, b2, os, t1, c)
    ensures match r
            case Val(vs) => OperandsPost(w, Val([v] + vs), b, b2, [o] + os, t, c)
            case _ => OperandsPost(w, r, b, b2, [o] + os, t, c)
  {
    if r.Val? {
      OperandSame(o, t1, c.store, |b1.locals|);
      assert OperandBelow(o, |b2.locals|);
    }
    if !r.Bad? {
      SameTrans(t, t1, c.store, |b.locals|, |b1.locals|);
    }
  }

  lemma {:induction false} SimRValue(w: World, b: State, e: Expr, b': State, rv: M.RValue, s: M.Store, t: M.Store)
    returns (n: nat, c: M.Config)
    requires BuildRValue(w.env, b, e) == Some((b', rv)) && Ready(w, b, b', s, t) && ExprIn(e, w.users)
    ensures M.Run(w.g, w.m, Pos(b, t), n) == c
    ensures RValuePost(w, EvalExpr(w.m, s, e), b, b', rv, t, c)
    decreases e, 1
  {
    match e
    case Const(_, _) => n, c := 0, Pos(b, t);
    case Use(p) =>
      UseReads(w, s, t, p);
      n, c := 0, Pos(b, t);
    case Op(op, args, _) =>
      var (b1, os) := BuildOperands(w.env, b, args).value;
      n, c := SimOperands(w, b, args, b1, os, s, t);
    case CallE(f, args, ty) =>
      var local;
      n, c, local := SimCallExpr(w, b, e, b', s, t);
  }

  lemma {:induction false} SimCallExpr(w: World, b: State, e: Expr, b': State, s: M.Store, t: M.Store)
    returns (n: nat, c: M.Config, local: nat)
    requires e.CallE? && BuildOperands(w.env, b, e.args).Some?
    requires var (b1, os) := BuildOperands(w.env, b, e.args).value;
             BuildCall(b1, e.callee, os, e.ty).Some? && BuildCall(b1, e.callee, os, e.ty).value.0 == b'
    requires Ready(w, b, b', s, t) && ExprIn(e, w.users)
    ensures var (b1, os) := BuildOperands(w.env, b, e.args).value; local == BuildCall(b1, e.callee, os, e.ty).value.1
    ensures M.Run(w.g, w.m, Pos(b, t), n) == c
    ensures match EvalExpr(w.m, s, e)
            case Val(v) => Arrived(b, b', t, c) && local < |b'.locals| && local in c.store && c.store[local] == v
            case Div => Stopped(b, t, c)
            case Bad => true
    decreases e, 0
  {
    var (b1, os) := BuildOperands(w.env, b, e.args).value;
    local := BuildCall(b1, e.callee, os, e.ty).value.1;
    BuildOperandsSeg(w.env, b, e.args);
    BuildCallSeg(b1, e.callee, os, e.ty);
    FitsBack(b1, b', w.g);
    n, c := SimOperands(w, b, e.args, b1, os, s, t);
    var r := EvalExprs(w.m, s, e.args);
    if r.Val? {
      var t1 := c.store;
      var k, c2 := SimCall(w, b1, e.callee, os, e.ty, b', local, r.v, t1);
      Chain(w, Pos(b, t), n, c, k, c2);
      SameTrans(t, t1, c2.store, |b.locals|, |b1.locals|);
      n, c := n + k, c2;
    }
  }

  lemma {:induction false} SimOperand(w: World, b: State, e: Expr, b': State, o: M.Operand, s: M.Store, t: M.Store)
    returns (n: nat, c: M.Config)
    requires BuildOperand(w.env, b, e) == Some((b', o)) && Ready(w, b, b', s, t) && ExprIn(e, w.users)
    ensures M.Run(w.g, w.m, Pos(b, t), n) == c
    ensures OperandPost(w, EvalExpr(w.m, s, e), b, b', o, t, c)
    decreases e, 3
  {
    match e
    case Const(_, _) => n, c := 0, Pos(b, t);
    case Use(p) =>
      UseReads(w, s, t, p);
      n, c := 0, Pos(b, t);
    case CallE(f, args, ty) =>
      var local;
      n, c, local := SimCallExpr(w, b, e, b', s, t);
      if EvalExpr(w.m, s, e).Val? {
        ReadLocal(c.store, local, ty);
      }
    case Op(_, _, _) => n, c := SimOperation(w, b, e, b', o, s, t);
  }

  /** An operation, whose value goes to a local of its own. */
  lemma {:induction false} SimOperation(w: World, b: State, e: Expr, b': State, o: M.Operand, s: M.Store, t: M.Store)
    returns (n: nat, c: M.Config)
    requires e.Op? && BuildOperand(w.env, b, e) == Some((b', o)) && Ready(w, b, b', s, t) && ExprIn(e, w.users)
    ensures M.Run(w.g, w.m, Pos(b, t), n) == c
    ensures OperandPost(w, EvalExpr(w.m, s, e), b, b', o, t, c)
    decreases e, 2
  {
    var ty := e.ty;
    var (b1, rv) := BuildRValue(w.env, b, e).value;
    BuildRValueSeg(w.env, b, e);
    SpillFits(w, b1, rv, ty, b');
    n, c := SimRValue(w, b, e, b1, rv, s, t);
    var r := EvalExpr(w.m, s, e);
    if r.Val? {
      var t1 := c.store;
      SpillStep(w, b1, rv, ty, b', r.v, t1);
      var t2 := t1[|b1.locals| := r.v];
      Chain(w, Pos(b, t), n, c, 1, Pos(b', t2));
      SameTrans(t, t1, t2, |b.locals|, |b1.locals|);
      n, c := n + 1, Pos(b', t2);
    }
  }

  /** An rvalue put into a local of its own. */
  ghost predicate Spilled(b1: State, rv: M.RValue, ty: Ty, b': State) {
    Emit(NewLocal(b1, ty), M.AssignTo(Place(|b1.locals|, [], ty), rv)) == Some(b')
  }

  lemma SpillFits(w: World, b1: State, rv: M.RValue, ty: Ty, b': State)
    requires Wf(b1) && Spilled(b1, rv, ty, b') && Fits(b', w.g)
    ensures Fits(b1, w.g) && Fits(NewLocal(b1, ty), w.g) && Seg(b1, b') && |b'.locals| == |b1.locals| + 1
  {
    NewLocalSeg(b1, ty);
    EmitSeg(NewLocal(b1, ty), M.AssignTo(Place(|b1.locals|, [], ty), rv));
    SegTrans(b1, NewLocal(b1, ty), b');
    FitsBack(NewLocal(b1, ty), b', w.g);
    FitsBack(b1, NewLocal(b1, ty), w.g);
  }

  lemma SpillStep(w: World, b1: State, rv: M.RValue, ty: Ty, b': State, v: Value, t: M.Store)
    requires Wf(b1) && Spilled(b1, rv, ty, b') && Fits(b', w.g) && M.EvalRValue(w.m, t, rv) == Some(v)
    ensures b'.current < |b'.blocks| && M.Run(w.g, w.m, Pos(b1, t), 1) == Pos(b', t[|b1.locals| := v])
    ensures M.ReadPlace(t[|b1.locals| := v], Place(|b1.locals|, [], ty)) == Some(v)
  {
    NewLocalSeg(b1, ty);
    StepEmit(w, NewLocal(b1, ty), M.AssignTo(Place(|b1.locals|, [], ty), rv), b', t, t[|b1.locals| := v]);
    assert Pos(NewLocal(b1, ty), t) == Pos(b1, t);
    ReadLocal(t[|b1.locals| := v], |b1.locals|, ty);
  }

  lemma ReadLocal(t: M.Store, x: nat, ty: Ty)
    requires x in t
    ensures M.ReadPlace(t, Place(x, [], ty)) == Some(t[x])
  {
  }
}
