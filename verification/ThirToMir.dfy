/** The lowering as the mutable object that drives a block builder; each method refines its function. */
module ThirToMir {
  import opened Core
  import DT = DecisionTree
  import opened MatrixMethods
  import M = Mir
  import opened Thir
  import opened Builder
  import L = Lowering

  /** An operation that keeps the loop tables gives this for its new state. */
  ghost predicate Gives(r: Option<()>, after: State, spec: Option<State>) {
    && (r.Some? <==> spec.Some?)
    && (r.Some? ==> after == spec.value)
  }

  ghost predicate GivesWith<T>(r: Option<T>, after: State, spec: Option<(State, T)>) {
    && (r.Some? <==> spec.Some?)
    && (r.Some? ==> spec.value == (after, r.value))
  }

  ghost predicate GivesLow(r: Option<()>, after: L.Low, spec: Option<L.Low>) {
    && (r.Some? <==> spec.Some?)
    && (r.Some? ==> after == spec.value)
  }

  /** What is left to do, after a prefix has produced these operands. */
  ghost function Prefixed(ops: seq<M.Operand>, rest: Option<(State, seq<M.Operand>)>): Option<(State, seq<M.Operand>)> {
    match rest
    case None => None
    case Some(p) => Some((p.0, ops + p.1))
  }

  ghost function Joined(branches: map<int, nat>, rest: Option<(State, map<int, nat>)>): Option<(State, map<int, nat>)> {
    match rest
    case None => None
    case Some(p) => Some((p.0, branches + p.1))
  }

  ghost function LoopStarted(l: L.Low, scope: nat): Option<L.Low> {
    var head := |l.b.blocks|;
    var b1 :- L.Goto(NewBlock(NewBlock(NewBlock(l.b))), head);
    var b2 :- SwitchTo(b1, head);
    Some(L.Low(b2, l.begins[scope := head], l.ends[scope := head + 2]))
  }

  ghost function TreeStarted(env: L.Env, b: State, tree: DT.Tree, branches: nat): Option<State> {
    var first := |b.blocks|;
    L.LowerTree(env, NewBlock(L.NewBlocks(b, branches)), tree, L.BlockIds(first, branches), first + branches)
  }

  ghost function TreeFinished(armed: Option<L.Low>, divergeBB: nat, merge: nat): Option<L.Low> {
    var l :- armed;
    var b :- AfterTree(l.b, divergeBB, merge);
    Some(l.(b := b))
  }

  ghost function TreeBuilt(env: L.Env, l: L.Low, started: Option<State>, arms: seq<Arm>, merge: nat): Option<L.Low>
    requires forall i {:trigger arms[i]} :: 0 <= i < |arms| ==> L.AllTyped(arms[i].body)
  {
    var first := |l.b.blocks|;
    var b :- started;
    var bbs := L.BlockIds(first, |arms|);
    TreeFinished(L.BuildArms(env, l.(b := b), arms, bbs, merge), first + |arms|, merge)
  }

  lemma TreeParts(env: L.Env, l: L.Low, tree: DT.Tree, arms: seq<Arm>, merge: nat)
    requires forall i {:trigger arms[i]} :: 0 <= i < |arms| ==> L.AllTyped(arms[i].body)
    ensures L.LowerDecisionTree(env, l, tree, arms, merge) ==
            TreeBuilt(env, l, TreeStarted(env, l.b, tree, |arms|), arms, merge)
  {
  }

  ghost function AfterTree(b: State, divergeBB: nat, merge: nat): Option<State> {
    var b1 :- SwitchTo(b, divergeBB);
    var b2 :- TerminateWith(b1, M.Diverge);
    SwitchTo(b2, merge)
  }

  lemma PrefixedSteps(ops: seq<M.Operand>, o: M.Operand, rest: Option<(State, seq<M.Operand>)>)
    ensures Prefixed([], rest) == rest
    ensures Prefixed(ops, Prefixed([o], rest)) == Prefixed(ops + [o], rest)
  {
    if rest.Some? {
      assert [] + rest.value.1 == rest.value.1;
      assert ops + ([o] + rest.value.1) == ops + [o] + rest.value.1;
    }
  }

  lemma JoinedSteps(branches: map<int, nat>, key: int, block: nat, rest: Option<(State, map<int, nat>)>)
    ensures Joined(map[], rest) == rest
    ensures Joined(branches, Joined(map[key := block], rest)) == Joined(branches[key := block], rest)
  {
    if rest.Some? {
      assert map[] + rest.value.1 == rest.value.1;
      assert branches + (map[key := block] + rest.value.1) == branches[key := block] + rest.value.1;
    }
  }

  class ThirToMIR {
    const env: L.Env
    const builder: MIRBuilder
    var loopBegins: map<nat, nat>
    var loopEnds: map<nat, nat>

    ghost function View(): L.Low
      reads this, builder
    {
      L.Low(builder.View(), loopBegins, loopEnds)
    }

    constructor (env: L.Env)
      ensures this.env == env && fresh(builder)
      ensures View() == L.Low(State([EMPTY_BLOCK], 0, {}, []), map[], map[])
    {
      this.env := env;
      builder := new MIRBuilder();
      loopBegins := map[];
      loopEnds := map[];
    }

    // ----- expressions -----

    method BuildCall(callee: nat, args: seq<M.Operand>, ty: Ty) returns (r: Option<nat>)
      modifies builder
      ensures GivesWith(r, builder.View(), L.BuildCall(old(builder.View()), callee, args, ty))
    {
      var next := builder.AddBlock();
      var local := builder.AddLocal(ty);
      var _ :- builder.Terminate(M.Call(callee, args, local, next));
      var _ :- builder.SwitchToBlock(next);
      if ty == NeverT {
        var _ :- builder.Terminate(M.Diverge);
        var dead := builder.AddBlock();
        var _ :- builder.SwitchToBlock(dead);
      }
      return Some(local);
    }

    method BuildOperands(es: seq<Expr>) returns (r: Option<seq<M.Operand>>)
      modifies builder
      ensures GivesWith(r, builder.View(), L.BuildOperands(env, old(builder.View()), es))
      decreases es, 2
    {
      var ops := [];
      var i := 0;
      assert es[0..] == es;
      PrefixedSteps([], M.Constant(TupleV([]), VoidT), L.BuildOperands(env, builder.View(), es));
      while i < |es|
        invariant i <= |es|
        invariant L.BuildOperands(env, old(builder.View()), es) ==
                  Prefixed(ops, L.BuildOperands(env, builder.View(), es[i..]))
      {
        assert es[i..][0] == es[i] && es[i..][1..] == es[i + 1..];
        var o :- BuildOperand(es[i]);
        PrefixedSteps(ops, o, L.BuildOperands(env, builder.View(), es[i + 1..]));
        ops := ops + [o];
        i := i + 1;
      }
      assert es[i..] == [] && ops + [] == ops;
      return Some(ops);
    }

    method BuildRValue(e: Expr) returns (r: Option<M.RValue>)
      modifies builder
      ensures GivesWith(r, builder.View(), L.BuildRValue(env, old(builder.View()), e))
      decreases e, 0
    {
      match e
      case Const(v, t) => return Some(M.UseOf(M.Constant(v, t)));
      case Use(p) => return Some(M.UseOf(L.MoveOrCopy(env, p)));
      case Op(op, args, t) =>
        var ops :- BuildOperands(args);
        return Some(M.Pure(op, ops, t));
      case CallE(f, args, t) =>
        var ops :- BuildOperands(args);
        var local :- BuildCall(f, ops, t);
        return Some(M.UseOf(M.Move(Place(local, [], t))));
    }

    method BuildOperand(e: Expr) returns (r: Option<M.Operand>)
      modifies builder
      ensures GivesWith(r, builder.View(), L.BuildOperand(env, old(builder.View()), e))
      decreases e, 1
    {
      match e
      case Const(v, t) => return Some(M.Constant(v, t));
      case Use(p) => return Some(L.MoveOrCopy(env, p));
      case CallE(f, args, t) =>
        var ops :- BuildOperands(args);
        var local :- BuildCall(f, ops, t);
        return Some(L.MoveOrCopy(env, Place(local, [], t)));
      case Op(_, _, t) =>
        var rv :- BuildRValue(e);
        var local := builder.AddLocal(t);
        var _ :- builder.EmitStmt(M.AssignTo(Place(local, [], t), rv));
        return Some(M.Move(Place(local, [], t)));
    }

    method SpillRValue(rv: M.RValue, ty: Ty) returns (r: Option<()>)
      modifies builder
      ensures Gives(r, builder.View(), L.SpillRValue(old(builder.View()), rv, ty))
    {
      if rv.UseOf? && (rv.operand.Constant? || rv.operand.place.projs == []) {
        return Some(());
      }
      var local := builder.AddLocal(ty);
      r := builder.EmitStmt(M.AssignTo(Place(local, [], ty), rv));
    }

    method SpillOperand(o: M.Operand) returns (r: Option<Place>)
      modifies builder
      ensures GivesWith(r, builder.View(), L.SpillOperand(old(builder.View()), o))
    {
      if o.Move? {
        return Some(o.place);
      }
      var ty := M.OperandTy(o);
      var local := builder.AddLocal(ty);
      var _ :- builder.EmitStmt(M.AssignTo(Place(local, [], ty), M.UseOf(o)));
      return Some(Place(local, [], ty));
    }

    // ----- decision trees -----

    method EmitBindings(bs: seq<DT.Binding>) returns (r: Option<()>)
      modifies builder
      ensures Gives(r, builder.View(), L.EmitBindings(env, old(builder.View()), bs))
    {
      var i := 0;
      while i < |bs|
        invariant i <= |bs|
        invariant L.EmitBindings(env, old(builder.View()), bs) == L.EmitBindings(env, builder.View(), bs[i..])
      {
        if bs[i].local >= |builder.locals| {
          return None;
        }
        var dest := Place(bs[i].local, [], builder.locals[bs[i].local]);
        var _ :- builder.EmitStmt(M.AssignTo(dest, M.UseOf(L.MoveOrCopy(env, bs[i].place))));
        i := i + 1;
      }
      return Some(());
    }

    method LowerTree(t: DT.Tree, bbs: seq<nat>, diverge: nat) returns (r: Option<()>)
      modifies builder
      ensures Gives(r, builder.View(), L.LowerTree(env, old(builder.View()), t, bbs, diverge))
      decreases t, 1
    {
      match t
      case Leaf(branch, bindings) =>
        var _ :- EmitBindings(bindings);
        if branch >= |bbs| {
          return None;
        }
        r := builder.Terminate(M.Goto(bbs[branch]));
      case Fail =>
        var closed := builder.IsTerminated(builder.currentBlock);
        if closed {
          return Some(());
        }
        r := builder.Terminate(M.Diverge);
      case Switch(place, _, _) =>
        if place.ty.EnumT? {
          var tagTy :- L.TagTy(place.ty, env.target);
          var local := builder.AddLocal(tagTy);
          var tag := Place(local, [], tagTy);
          var _ :- builder.EmitStmt(M.AssignTo(tag, M.Discriminant(place, tagTy)));
          r := LowerSwitch(M.Move(tag), t, bbs, diverge);
        } else if L.IntLike(place.ty) {
          r := LowerSwitch(M.Move(place), t, bbs, diverge);
        } else {
          return None;
        }
    }

    method LowerSwitch(o: M.Operand, t: DT.Tree, bbs: seq<nat>, diverge: nat) returns (r: Option<()>)
      requires t.Switch?
      modifies builder
      ensures Gives(r, builder.View(), L.LowerSwitch(env, old(builder.View()), o, t, bbs, diverge))
      decreases t, 0
    {
      var current := builder.currentBlock;
      var branches :- LowerCases(t.cases, bbs, diverge, t.place.ty.EnumT?);
      var default := diverge;
      if t.default.Some? {
        default := builder.AddBlock();
        var _ :- builder.SwitchToBlock(default);
        var _ :- LowerTree(t.default.value, bbs, diverge);
      }
      var _ :- builder.SwitchToBlock(current);
      r := builder.Terminate(M.Switch(o, branches, default));
    }

    method LowerCases(cases: seq<DT.Case>, bbs: seq<nat>, diverge: nat, onEnum: bool) returns (r: Option<map<int, nat>>)
      modifies builder
      ensures GivesWith(r, builder.View(), L.LowerCases(env, old(builder.View()), cases, bbs, diverge, onEnum))
      decreases cases, 0
    {
      var branches: map<int, nat> := map[];
      var i := 0;
      assert cases[0..] == cases;
      JoinedSteps(map[], 0, 0, L.LowerCases(env, builder.View(), cases, bbs, diverge, onEnum));
      while i < |cases|
        invariant i <= |cases|
        invariant L.LowerCases(env, old(builder.View()), cases, bbs, diverge, onEnum) ==
                  Joined(branches, L.LowerCases(env, builder.View(), cases[i..], bbs, diverge, onEnum))
      {
        assert cases[i..][0] == cases[i] && cases[i..][1..] == cases[i + 1..];
        var key :- L.CaseKey(cases[i].ctor, onEnum);
        var block := builder.AddBlock();
        var _ :- builder.SwitchToBlock(block);
        assert cases[i].tree < cases[i];
        var _ :- LowerTree(cases[i].tree, bbs, diverge);
        JoinedSteps(branches, key, block, L.LowerCases(env, builder.View(), cases[i + 1..], bbs, diverge, onEnum));
        branches := branches[key := block];
        i := i + 1;
      }
      assert cases[i..] == [] && branches + map[] == branches;
      return Some(branches);
    }

    // ----- statements -----

    method BuildStmts(stmts: seq<Stmt>) returns (r: Option<()>)
      requires L.AllTyped(stmts)
      modifies this, builder
      ensures GivesLow(r, View(), L.BuildStmts(env, old(View()), stmts))
      decreases stmts, 1
    {
      var i := 0;
      assert stmts[0..] == stmts;
      while i < |stmts|
        invariant i <= |stmts|
        invariant L.BuildStmts(env, old(View()), stmts) == L.BuildStmts(env, View(), stmts[i..])
      {
        assert stmts[i..][0] == stmts[i] && stmts[i..][1..] == stmts[i + 1..] && L.Typed(stmts[i]);
        var _ :- BuildStmt(stmts[i]);
        i := i + 1;
      }
      return Some(());
    }

    method BuildSetup(s: Setup) returns (r: Option<M.Operand>)
      requires L.AllTyped(s.stmts)
      modifies this, builder
      ensures r.Some? <==> L.BuildSetup(env, old(View()), s).Some?
      ensures r.Some? ==> L.BuildSetup(env, old(View()), s).value == (View(), r.value)
      decreases s, 1
    {
      var _ :- BuildStmts(s.stmts);
      r := BuildOperand(s.expr);
    }

    /** The pattern every construct shares: fill a block, join the next one unless already closed. */
    method BuildInto(start: nat, stmts: seq<Stmt>, next: nat) returns (r: Option<()>)
      requires L.AllTyped(stmts)
      modifies this, builder
      ensures GivesLow(r, View(), L.BuildInto(env, old(View()), start, stmts, next))
      decreases stmts, 2
    {
      var _ :- builder.SwitchToBlock(start);
      var _ :- BuildStmts(stmts);
      var closed := builder.IsTerminated(builder.currentBlock);
      if closed {
        return Some(());
      }
      r := builder.Terminate(M.Goto(next));
    }

    method BuildIf(st: Stmt) returns (r: Option<()>)
      requires st.If? && L.Typed(st)
      modifies this, builder
      ensures GivesLow(r, View(), L.BuildIf(env, old(View()), st))
      decreases st, 1
    {
      var o :- BuildSetup(st.cond);
      var thenBB := builder.AddBlock();
      var mergeBB := builder.AddBlock();
      match st.els
      case NoElse =>
        var _ :- builder.Terminate(M.Branch(o, thenBB, mergeBB));
        var _ :- BuildInto(thenBB, st.thn, mergeBB);
        r := builder.SwitchToBlock(mergeBB);
      case Else(stmts) =>
        var elseBB := builder.AddBlock();
        var _ :- builder.Terminate(M.Branch(o, thenBB, elseBB));
        var _ :- BuildInto(elseBB, stmts, mergeBB);
        var _ :- BuildInto(thenBB, st.thn, mergeBB);
        r := builder.SwitchToBlock(mergeBB);
    }

    method BuildWhile(st: Stmt) returns (r: Option<()>)
      requires st.While? && L.Typed(st)
      modifies this, builder
      ensures GivesLow(r, View(), L.BuildWhile(env, old(View()), st))
      decreases st, 1
    {
      var blocks :- EnterLoop(st.scope);
      var (condBB, bodyBB, mergeBB) := blocks;
      var o :- BuildSetup(st.cond);
      var _ :- builder.Terminate(M.Branch(o, bodyBB, mergeBB));
      var _ :- BuildInto(bodyBB, st.body, condBB);
      r := builder.SwitchToBlock(mergeBB);
    }

    /** The blocks of a loop, where its breaks and continues lead, and the jump into its condition. */
    method EnterLoop(scope: nat) returns (r: Option<(nat, nat, nat)>)
      modifies this, builder
      ensures GivesLow(if r.Some? then Some(()) else None, View(), LoopStarted(old(View()), scope))
      ensures r.Some? ==> var head := |old(builder.View()).blocks|; r.value == (head, head + 1, head + 2)
    {
      var condBB := builder.AddBlock();
      var bodyBB := builder.AddBlock();
      var mergeBB := builder.AddBlock();
      loopBegins := loopBegins[scope := condBB];
      loopEnds := loopEnds[scope := mergeBB];
      var _ :- builder.Terminate(M.Goto(condBB));
      var _ :- builder.SwitchToBlock(condBB);
      return Some((condBB, bodyBB, mergeBB));
    }

    method AddBlocks(n: nat) returns (ids: seq<nat>)
      modifies builder
      ensures builder.View() == L.NewBlocks(old(builder.View()), n)
      ensures ids == L.BlockIds(|old(builder.View()).blocks|, n)
    {
      ids := [];
      while |ids| < n
        invariant |ids| <= n
        invariant builder.View() == L.NewBlocks(old(builder.View()), |ids|)
        invariant ids == L.BlockIds(|old(builder.View()).blocks|, |ids|)
      {
        var id := builder.AddBlock();
        ids := ids + [id];
      }
    }

    method BuildArms(arms: seq<Arm>, bbs: seq<nat>, merge: nat) returns (r: Option<()>)
      requires |bbs| == |arms|
      requires forall i {:trigger arms[i]} :: 0 <= i < |arms| ==> L.AllTyped(arms[i].body)
      modifies this, builder
      ensures GivesLow(r, View(), L.BuildArms(env, old(View()), arms, bbs, merge))
      decreases arms, 1
    {
      var i := 0;
      assert arms[0..] == arms && bbs[0..] == bbs;
      while i < |arms|
        invariant i <= |arms|
        invariant L.BuildArms(env, old(View()), arms, bbs, merge) ==
                  L.BuildArms(env, View(), arms[i..], bbs[i..], merge)
      {
        assert arms[i..][0] == arms[i] && arms[i..][1..] == arms[i + 1..] && bbs[i..][1..] == bbs[i + 1..];
        var _ :- BuildInto(bbs[i], arms[i].body, merge);
        i := i + 1;
      }
      return Some(());
    }

    method LowerDecisionTree(tree: DT.Tree, arms: seq<Arm>, merge: nat) returns (r: Option<()>)
      requires forall i {:trigger arms[i]} :: 0 <= i < |arms| ==> L.AllTyped(arms[i].body)
      modifies this, builder
      ensures GivesLow(r, View(), L.LowerDecisionTree(env, old(View()), tree, arms, merge))
      decreases arms, 3
    {
      TreeParts(env, View(), tree, arms, merge);
      ghost var parts := TreeBuilt(env, View(), TreeStarted(env, builder.View(), tree, |arms|), arms, merge);
      var blocks :- StartTree(tree, |arms|);
      r := FinishTree(arms, blocks.0, blocks.1, merge);
      assert GivesLow(r, View(), parts);
    }

    /** The bodies of the branches, and what stands where nothing matches. */
    method FinishTree(arms: seq<Arm>, bbs: seq<nat>, divergeBB: nat, merge: nat) returns (r: Option<()>)
      requires |bbs| == |arms|
      requires forall i {:trigger arms[i]} :: 0 <= i < |arms| ==> L.AllTyped(arms[i].body)
      modifies this, builder
      ensures GivesLow(r, View(), TreeFinished(L.BuildArms(env, old(View()), arms, bbs, merge), divergeBB, merge))
      decreases arms, 2
    {
      var _ :- BuildArms(arms, bbs, merge);
      r := EndTree(divergeBB, merge);
    }

    /** The blocks of the branches, the block for no match, and the tests that lead to them. */
    method StartTree(tree: DT.Tree, branches: nat) returns (r: Option<(seq<nat>, nat)>)
      modifies builder
      ensures Gives(if r.Some? then Some(()) else None, builder.View(),
                    TreeStarted(env, old(builder.View()), tree, branches))
      ensures r.Some? ==> var first := |old(builder.View()).blocks|;
                          r.value == (L.BlockIds(first, branches), first + branches)
    {
      var bbs := AddBlocks(branches);
      var divergeBB := builder.AddBlock();
      var _ :- LowerTree(tree, bbs, divergeBB);
      return Some((bbs, divergeBB));
    }

    /** Close the block for a scrutinee that nothing matches and go on in the merge block. */
    method EndTree(divergeBB: nat, merge: nat) returns (r: Option<()>)
      modifies builder
      ensures Gives(r, builder.View(), AfterTree(old(builder.View()), divergeBB, merge))
    {
      var _ :- builder.SwitchToBlock(divergeBB);
      var _ :- builder.Terminate(M.Diverge);
      r := builder.SwitchToBlock(merge);
    }

    method BuildMatch(st: Stmt) returns (r: Option<()>)
      requires st.Match? && L.Typed(st)
      modifies this, builder
      ensures GivesLow(r, View(), L.BuildMatch(env, old(View()), st))
      decreases st, 1
    {
      var o :- BuildSetup(st.scrut);
      var place :- SpillOperand(o);
      var mergeBB := builder.AddBlock();
      L.MatchMatrixOk(place, st.arms);
      var tree := CompileMatrix(L.MatchMatrix(place, st.arms));
      var _ :- LowerDecisionTree(tree, st.arms, mergeBB);
      r := builder.SwitchToBlock(mergeBB);
    }

    /** Evaluate into a place. */
    method BuildStore(dest: Place, e: Expr) returns (r: Option<()>)
      modifies builder
      ensures var rv := L.BuildRValue(env, old(builder.View()), e);
              Gives(r, builder.View(), if rv.None? then None else Emit(rv.value.0, M.AssignTo(dest, rv.value.1)))
    {
      var rv :- BuildRValue(e);
      r := builder.EmitStmt(M.AssignTo(dest, rv));
    }

    method BuildReturn(value: Option<Expr>) returns (r: Option<()>)
      modifies builder
      ensures GivesLow(r, L.Low(builder.View(), map[], map[]),
                       L.BuildStmt(env, L.Low(old(builder.View()), map[], map[]), ReturnS(value)))
    {
      var o: Option<M.Operand> := None;
      if value.Some? {
        var v :- BuildOperand(value.value);
        o := Some(v);
      }
      var _ :- builder.Terminate(M.Return(o));
      var dead := builder.AddBlock();
      r := builder.SwitchToBlock(dead);
    }

    method BuildStmt(st: Stmt) returns (r: Option<()>)
      requires L.Typed(st)
      modifies this, builder
      ensures GivesLow(r, View(), L.BuildStmt(env, old(View()), st))
      decreases st, 4
    {
      match st
      case Body(stmts) => r := BuildStmts(stmts);
      case If(_, _, _) => r := BuildIf(st);
      case While(_, _, _) => r := BuildWhile(st);
      case Match(_, _) => r := BuildMatch(st);
      case Let(x, init) =>
        if x >= |builder.locals| {
          return None;
        }
        r := BuildStore(Place(x, [], builder.locals[x]), init);
      case Assign(place, rhs) => r := BuildStore(place, rhs);
      case ReturnS(value) => r := BuildReturn(value);
      case Break(scope) =>
        if scope !in loopEnds {
          return None;
        }
        r := builder.Terminate(M.Goto(loopEnds[scope]));
      case Continue(scope) =>
        if scope !in loopBegins {
          return None;
        }
        r := builder.Terminate(M.Goto(loopBegins[scope]));
      case ExprS(e) =>
        var rv :- BuildRValue(e);
        r := SpillRValue(rv, TypeOf(e));
      case ErrorS => return Some(());
    }
  }

  /** Lowering a whole function with a fresh builder. */
  method Lower(env: L.Env, f: L.Function) returns (r: Option<M.Graph>)
    requires L.AllTyped(f.root)
    ensures r == L.LowerFunction(env, f)
  {
    var ctx := new ThirToMIR(env);
    var i := 0;
    while i < |f.locals|
      invariant i <= |f.locals| && ctx.env == env && fresh(ctx) && fresh(ctx.builder)
      invariant ctx.View() == L.Low(State([EMPTY_BLOCK], 0, {}, f.locals[..i]), map[], map[])
    {
      var _ := ctx.builder.AddLocal(f.locals[i]);
      i := i + 1;
    }
    assert f.locals[..i] == f.locals;
    var _ :- ctx.BuildStmts(f.root);
    var closed := ctx.builder.IsTerminated(ctx.builder.currentBlock);
    if !closed {
      var _ :- ctx.builder.Terminate(if f.isVoid then M.Return(None) else M.Diverge);
    }
    r := ctx.builder.FinalizeBlocks();
  }
}
