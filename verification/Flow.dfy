/** Exactly when lowering a body succeeds: no code that would write to a closed block, and no unreadable tag. */
module Flow {
  import opened Core
  import opened Patterns
  import opened MatchCompiler
  import DT = DecisionTree
  import M = Mir
  import opened Thir
  import opened Builder
  import opened Lowering
  import opened LoweringShape
  import opened Scoping
  import opened StmtSim
  import opened TreeSim
  import opened TreeTags
  import opened TreeLowering

  // ----- a reading of a body that only tracks whether the current block is closed -----

  function AfterExprs(es: seq<Expr>, closed: bool): Option<bool>
    decreases es, 1
  {
    if es == [] then Some(closed)
    else
      var c :- AfterOperand(es[0], closed);
      AfterExprs(es[1..], c)
  }

  /** Constants and places are free; a call or a spilled operation needs an open block. */
  function AfterOperand(e: Expr, closed: bool): Option<bool>
    decreases e, 0
  {
    match e
    case Const(_, _) => Some(closed)
    case Use(_) => Some(closed)
    case Op(_, args, _) =>
      var c :- AfterExprs(args, closed);
      if c then None else Some(false)
    case CallE(_, args, _) =>
      var c :- AfterExprs(args, closed);
      if c then None else Some(false)
  }

  function AfterRValue(e: Expr, closed: bool): Option<bool> {
    if e.Op? then AfterExprs(e.args, closed) else AfterOperand(e, closed)
  }

  /** The value of an expression statement is worth a local of its own. */
  predicate Spilled(e: Expr) {
    e.Op? || (e.Use? && e.place.projs != [])
  }

  /** A match on a place that is moved inspects the place itself. */
  predicate Inspected(env: Env, e: Expr) {
    e.Use? && !env.copies(e.place.ty)
  }

  function OpenOnly(c: bool, next: bool): Option<bool> {
    if c then None else Some(next)
  }

  /** Whether the current block is closed after a statement; None when lowering it panics. */
  function After(env: Env, st: Stmt, closed: bool): Option<bool>
    decreases st, 2
  {
    match st
    case Body(stmts) => AfterAll(env, stmts, closed)
    case Let(_, e) =>
      var c :- AfterRValue(e, closed);
      OpenOnly(c, false)
    case Assign(_, e) =>
      var c :- AfterRValue(e, closed);
      OpenOnly(c, false)
    case ReturnS(None) => OpenOnly(closed, false)
    case ReturnS(Some(e)) =>
      var c :- AfterOperand(e, closed);
      OpenOnly(c, false)
    case Break(_) => OpenOnly(closed, true)
    case Continue(_) => OpenOnly(closed, true)
    case ErrorS => Some(closed)
    case ExprS(e) =>
      var c :- AfterRValue(e, closed);
      if Spilled(e) then OpenOnly(c, false) else Some(c)
    case If(cond, thn, els) =>
      var c :- AfterSetup(env, cond, closed);
      if c || AfterAll(env, thn, false).None? || (els.Else? && AfterAll(env, els.stmts, false).None?) then None
      else Some(false)
    case While(_, cond, body) =>
      var _ :- OpenOnly(closed, false);
      var c :- AfterSetup(env, cond, false);
      if c || AfterAll(env, body, false).None? then None else Some(false)
    case Match(scrut, arms) =>
      var c :- AfterSetup(env, scrut, closed);
      if c && (!Inspected(env, scrut.expr) || arms != []) then None
      else if AfterArms(env, arms) then Some(false)
      else None
  }

  function AfterAll(env: Env, stmts: seq<Stmt>, closed: bool): Option<bool>
    decreases stmts, 1
  {
    if stmts == [] then Some(closed)
    else
      var c :- After(env, stmts[0], closed);
      AfterAll(env, stmts[1..], c)
  }

  function AfterSetup(env: Env, s: Setup, closed: bool): Option<bool>
    decreases s, 1
  {
    var c :- AfterAll(env, s.stmts, closed);
    AfterOperand(s.expr, c)
  }

  function AfterArms(env: Env, arms: seq<Arm>): bool
    decreases arms, 1
  {
    arms == [] || (AfterAll(env, arms[0].body, false).Some? && AfterArms(env, arms[1..]))
  }

  // ----- expressions -----

  ghost predicate Agrees(b: Option<State>, a: Option<bool>) {
    && (b.Some? <==> a.Some?)
    && (b.Some? ==> Closed(b.value) == a.value)
  }

  function BuilderOf<T>(r: Option<(State, T)>): Option<State> {
    match r
    case None => None
    case Some(p) => Some(p.0)
  }

  lemma CallAfter(b: State, callee: nat, args: seq<M.Operand>, ty: Ty)
    requires Wf(b)
    ensures Agrees(BuilderOf(BuildCall(b, callee, args, ty)), OpenOnly(Closed(b), false))
  {
    if !Closed(b) {
      var b0 := NewLocal(NewBlock(b), ty);
      NewBlockKeeps(b);
      NewLocalSeg(NewBlock(b), ty);
      var tm := M.Call(callee, args, |b.locals|, |b.blocks|);
      TerminateKeeps(b0, tm);
      var b1 := TerminateWith(b0, tm).value;
      var b2 := SwitchTo(b1, |b.blocks|).value;
      SwitchKeeps(b1, |b.blocks|);
      if ty == NeverT {
        TerminateKeeps(b2, M.Diverge);
        FreshSwitch(TerminateWith(b2, M.Diverge).value);
      }
    }
  }

  lemma {:induction false} OperandsAfter(env: Env, b: State, es: seq<Expr>)
    requires Wf(b)
    ensures Agrees(BuilderOf(BuildOperands(env, b, es)), AfterExprs(es, Closed(b)))
    decreases es, 1
  {
    if es != [] {
      OperandAfter(env, b, es[0]);
      if BuildOperand(env, b, es[0]).Some? {
        BuildOperandSeg(env, b, es[0]);
        OperandsAfter(env, BuildOperand(env, b, es[0]).value.0, es[1..]);
      }
    }
  }

  lemma {:induction false} OperandAfter(env: Env, b: State, e: Expr)
    requires Wf(b)
    ensures Agrees(BuilderOf(BuildOperand(env, b, e)), AfterOperand(e, Closed(b)))
    decreases e, 0
  {
    if e.Op? || e.CallE? {
      OperandsAfter(env, b, e.args);
      if BuildOperands(env, b, e.args).Some? {
        BuildOperandsSeg(env, b, e.args);
        var (b1, os) := BuildOperands(env, b, e.args).value;
        if e.CallE? {
          CallAfter(b1, e.callee, os, e.ty);
        }
      }
    }
  }

  /** A right-hand side that an expression statement drops. */
  predicate Free(rv: M.RValue) {
    rv.UseOf? && (rv.operand.Constant? || rv.operand.place.projs == [])
  }

  lemma RValueAfter(env: Env, b: State, e: Expr)
    requires Wf(b)
    ensures Agrees(BuilderOf(BuildRValue(env, b, e)), AfterRValue(e, Closed(b)))
    ensures BuildRValue(env, b, e).Some? ==>
              (Spilled(e) <==> !Free(BuildRValue(env, b, e).value.1))
  {
    if e.Op? || e.CallE? {
      OperandsAfter(env, b, e.args);
      if BuildOperands(env, b, e.args).Some? {
        BuildOperandsSeg(env, b, e.args);
        var (b1, os) := BuildOperands(env, b, e.args).value;
        if e.CallE? {
          CallAfter(b1, e.callee, os, e.ty);
        }
      }
    }
  }

  // ----- statements -----

  /** The tree of every match reads only tags that can be read. */
  ghost predicate Tagged(st: Stmt, target: IntWidth)
    requires Typed(st)
    decreases st, 0
  {
    match st
    case Body(stmts) => AllTagged(stmts, target)
    case If(cond, thn, els) =>
      AllTagged(cond.stmts, target) && AllTagged(thn, target) && (els.Else? ==> AllTagged(els.stmts, target))
    case While(_, cond, body) => AllTagged(cond.stmts, target) && AllTagged(body, target)
    case Match(scrut, arms) =>
      && AllTagged(scrut.stmts, target) && TreeTagged(MatchTree(arms, TypeOf(scrut.expr)), target)
      && forall i {:trigger arms[i]} :: 0 <= i < |arms| ==> AllTagged(arms[i].body, target)
    case _ => true
  }

  ghost predicate AllTagged(stmts: seq<Stmt>, target: IntWidth)
    requires AllTyped(stmts)
    decreases stmts, 1
  {
    forall i {:trigger stmts[i]} :: 0 <= i < |stmts| ==> Tagged(stmts[i], target)
  }

  /** A body that can be lowered from an open block. */
  ghost predicate Clear(env: Env, stmts: seq<Stmt>)
    requires AllTyped(stmts)
  {
    AllTagged(stmts, env.target) && AfterAll(env, stmts, false).Some?
  }

  ghost predicate BodiesTyped(arms: seq<Arm>) {
    forall i {:trigger arms[i]} :: 0 <= i < |arms| ==> AllTyped(arms[i].body)
  }

  ghost predicate ArmsClear(env: Env, arms: seq<Arm>)
    requires BodiesTyped(arms)
  {
    && AfterArms(env, arms)
    && forall i {:trigger arms[i]} :: 0 <= i < |arms| ==> AllTagged(arms[i].body, env.target)
  }

  /** What lowering may assume of the state it starts in. */
  ghost predicate At(l: Low, users: nat, active: set<nat>) {
    LowWf(l) && LoopsFor(l, active) && users <= |l.b.locals|
  }

  function StateOf(l: Option<Low>): Option<State> {
    match l
    case None => None
    case Some(l) => Some(l.b)
  }

  lemma StepKeeps(env: Env, l: Low, st: Stmt, users: nat, active: set<nat>)
    requires Typed(st) && Scoped(st, users, active) && At(l, users, active) && BuildStmt(env, l, st).Some?
    ensures At(BuildStmt(env, l, st).value, users, active)
  {
    BuildStmtSeg(env, l, st);
    StmtKeepsLoops(env, l, st, users, active);
  }

  ghost predicate Good(stmts: seq<Stmt>, users: nat, active: set<nat>) {
    AllTyped(stmts) && AllScoped(stmts, users, active)
  }

  /** The answer of the reading, when the tags can be read. */
  ghost function When(tagged: bool, a: Option<bool>): Option<bool> {
    if tagged then a else None
  }

  lemma {:induction false} StmtsAfter(env: Env, l: Low, stmts: seq<Stmt>, users: nat, active: set<nat>)
    requires Good(stmts, users, active) && At(l, users, active)
    ensures Agrees(StateOf(BuildStmts(env, l, stmts)),
                   When(AllTagged(stmts, env.target), AfterAll(env, stmts, Closed(l.b))))
    decreases stmts, 1
  {
    if stmts != [] {
      assert Typed(stmts[0]) && Scoped(stmts[0], users, active);
      TaggedSplit(stmts, env.target);
      StmtAfter(env, l, stmts[0], users, active);
      if BuildStmt(env, l, stmts[0]).Some? {
        StepKeeps(env, l, stmts[0], users, active);
        StmtsAfter(env, BuildStmt(env, l, stmts[0]).value, stmts[1..], users, active);
      }
    }
  }

  lemma TaggedSplit(stmts: seq<Stmt>, target: IntWidth)
    requires stmts != [] && AllTyped(stmts)
    ensures AllTyped(stmts[1..])
    ensures AllTagged(stmts, target) <==> Tagged(stmts[0], target) && AllTagged(stmts[1..], target)
  {
    assert stmts == [stmts[0]] + stmts[1..];
    if Tagged(stmts[0], target) && AllTagged(stmts[1..], target) {
      forall i {:trigger stmts[i]} | 0 <= i < |stmts| ensures Tagged(stmts[i], target) {
        if i > 0 { assert stmts[i] == stmts[1..][i - 1]; }
      }
    }
  }

  lemma {:induction false} SetupAfter(env: Env, l: Low, s: Setup, users: nat, active: set<nat>)
    requires Good(s.stmts, users, active) && At(l, users, active)
    ensures BuildSetup(env, l, s).Some? <==> AllTagged(s.stmts, env.target) && AfterSetup(env, s, Closed(l.b)).Some?
    ensures BuildSetup(env, l, s).Some? ==>
            Closed(BuildSetup(env, l, s).value.0.b) == AfterSetup(env, s, Closed(l.b)).value
    decreases s, 1
  {
    StmtsAfter(env, l, s.stmts, users, active);
    if BuildStmts(env, l, s.stmts).Some? {
      BuildStmtsSeg(env, l, s.stmts);
      OperandAfter(env, BuildStmts(env, l, s.stmts).value.b, s.expr);
    }
  }

  lemma {:induction false} IntoAfter(env: Env, l: Low, start: nat, stmts: seq<Stmt>, next: nat, users: nat,
                                     active: set<nat>)
    requires Good(stmts, users, active) && At(l, users, active)
    requires start in Open(l.b) && next < |l.b.blocks|
    ensures BuildInto(env, l, start, stmts, next).Some? <==> Clear(env, stmts)
    decreases stmts, 2
  {
    var l0 := l.(b := SwitchTo(l.b, start).value);
    SwitchKeeps(l.b, start);
    StmtsAfter(env, l0, stmts, users, active);
    if BuildStmts(env, l0, stmts).Some? {
      BuildStmtsSeg(env, l0, stmts);
    }
  }

  lemma {:induction false} ArmsAfter(env: Env, l: Low, arms: seq<Arm>, bbs: seq<nat>, merge: nat, users: nat,
                                     active: set<nat>)
    requires |bbs| == |arms| && Distinct(bbs) && At(l, users, active) && merge < |l.b.blocks|
    requires forall i :: 0 <= i < |bbs| ==> bbs[i] in Open(l.b)
    requires forall i {:trigger arms[i]} :: 0 <= i < |arms| ==>
               AllTyped(arms[i].body) && Good(arms[i].body, users, active)
    ensures BuildArms(env, l, arms, bbs, merge).Some? <==> ArmsClear(env, arms)
    decreases arms, 1
  {
    if arms != [] {
      IntoAfter(env, l, bbs[0], arms[0].body, merge, users, active);
      if BuildInto(env, l, bbs[0], arms[0].body, merge).Some? {
        var l1 := BuildInto(env, l, bbs[0], arms[0].body, merge).value;
        BuildIntoFill(env, l, bbs[0], arms[0].body, merge);
        IntoKeepsLoops(env, l, bbs[0], arms[0].body, merge, users, active);
        forall i | 0 <= i < |bbs[1..]| ensures bbs[1..][i] in Open(l1.b) {
          assert bbs[0] != bbs[i + 1];
        }
        ArmsAfter(env, l1, arms[1..], bbs[1..], merge, users, active);
      }
    }
  }

  lemma SimpleAfter(env: Env, l: Low, st: Stmt, users: nat, active: set<nat>)
    requires IsSimple(st) && Typed(st) && Scoped(st, users, active) && At(l, users, active)
    ensures Agrees(StateOf(BuildStmt(env, l, st)), When(Tagged(st, env.target), After(env, st, Closed(l.b))))
  {
    match st
    case Let(x, e) => RValueAfter(env, l.b, e); RValueWf(env, l.b, e);
    case Assign(p, e) => RValueAfter(env, l.b, e); RValueWf(env, l.b, e);
    case ExprS(e) => RValueAfter(env, l.b, e); RValueWf(env, l.b, e);
    case ReturnS(None) => ReturnAfter(l.b, M.Return(None));
    case ReturnS(Some(e)) =>
      OperandAfter(env, l.b, e);
      if BuildOperand(env, l.b, e).Some? {
        BuildOperandSeg(env, l.b, e);
        ReturnAfter(BuildOperand(env, l.b, e).value.0, M.Return(Some(BuildOperand(env, l.b, e).value.1)));
      }
    case _ =>
  }

  lemma RValueWf(env: Env, b: State, e: Expr)
    requires Wf(b)
    ensures BuildRValue(env, b, e).Some? ==>
            Wf(BuildRValue(env, b, e).value.0) && |b.locals| <= |BuildRValue(env, b, e).value.0.locals|
  {
    if BuildRValue(env, b, e).Some? {
      BuildRValueSeg(env, b, e);
    }
  }

  lemma ReturnAfter(b: State, t: M.Terminator)
    requires Wf(b) && t.Return?
    ensures TerminateWith(b, t).Some? <==> !Closed(b)
    ensures !Closed(b) ==> var b1 := TerminateWith(b, t).value;
              SwitchTo(NewBlock(b1), |b1.blocks|).Some? && !Closed(SwitchTo(NewBlock(b1), |b1.blocks|).value)
  {
    if !Closed(b) {
      TerminateKeeps(b, t);
      FreshSwitch(TerminateWith(b, t).value);
    }
  }

  lemma {:induction false} StmtAfter(env: Env, l: Low, st: Stmt, users: nat, active: set<nat>)
    requires Typed(st) && Scoped(st, users, active) && At(l, users, active)
    ensures Agrees(StateOf(BuildStmt(env, l, st)), When(Tagged(st, env.target), After(env, st, Closed(l.b))))
    decreases st, 4
  {
    match st
    case Body(stmts) => StmtsAfter(env, l, stmts, users, active);
    case If(_, _, _) => IfAfter(env, l, st, users, active);
    case While(_, _, _) => WhileAfter(env, l, st, users, active);
    case Match(_, _) => MatchAfter(env, l, st, users, active);
    case _ => SimpleAfter(env, l, st, users, active);
  }

  // ----- conditionals -----

  lemma {:induction false} IfAfter(env: Env, l: Low, st: Stmt, users: nat, active: set<nat>)
    requires st.If? && Typed(st) && Scoped(st, users, active) && At(l, users, active)
    ensures Agrees(StateOf(BuildIf(env, l, st)), When(Tagged(st, env.target), After(env, st, Closed(l.b))))
    decreases st, 3
  {
    SetupAfter(env, l, st.cond, users, active);
    if BuildSetup(env, l, st.cond).Some? {
      var (l1, o) := BuildSetup(env, l, st.cond).value;
      BuildSetupSeg(env, l, st.cond);
      SetupKeepsLoops(env, l, st.cond, users, active);
      if !Closed(l1.b) {
        IfBlocksAfter(env, l, st, l1, o, users, active);
      }
    }
  }

  lemma {:induction false} IfBlocksAfter(env: Env, l: Low, st: Stmt, l1: Low, o: M.Operand, users: nat,
                                         active: set<nat>)
    requires st.If? && Typed(st) && Scoped(st, users, active)
    requires BuildSetup(env, l, st.cond) == Some((l1, o)) && At(l1, users, active) && !Closed(l1.b)
    ensures BuildIf(env, l, st).Some? <==>
              Clear(env, st.thn) && (st.els.Else? ==> Clear(env, st.els.stmts))
    ensures BuildIf(env, l, st).Some? ==> !Closed(BuildIf(env, l, st).value.b)
    decreases st, 2
  {
    if st.els.Else? {
      var b3 := ElseAfter(env, l1, o, st, users, active);
      ElseDecides(env, l, st, l1, o, b3);
    } else {
      var b3 := NoElseAfter(env, l1, o, st.thn, users, active);
      NoElseDecides(env, l, st, l1, o, b3);
    }
  }

  lemma ElseDecides(env: Env, l: Low, st: Stmt, l1: Low, o: M.Operand, b3: State)
    requires st.If? && st.els.Else? && Typed(st) && BuildSetup(env, l, st.cond) == Some((l1, o))
    requires TerminateWith(NewBlocks(l1.b, 3), M.Branch(o, |l1.b.blocks|, |l1.b.blocks| + 2)) == Some(b3)
    requires var r4 := BuildInto(env, l1.(b := b3), |l1.b.blocks| + 2, st.els.stmts, |l1.b.blocks| + 1);
             && (r4.Some? <==> Clear(env, st.els.stmts))
             && (r4.Some? ==> JoinsFrom(env, r4.value, |l1.b.blocks|, st.thn, |l1.b.blocks| + 1, |l1.b.blocks| + 1))
    ensures BuildIf(env, l, st).Some? <==>
              Clear(env, st.thn) && Clear(env, st.els.stmts)
    ensures BuildIf(env, l, st).Some? ==> !Closed(BuildIf(env, l, st).value.b)
  {
    TwoBlocks(l1.b);
  }

  lemma NoElseDecides(env: Env, l: Low, st: Stmt, l1: Low, o: M.Operand, b3: State)
    requires st.If? && st.els.NoElse? && Typed(st) && BuildSetup(env, l, st.cond) == Some((l1, o))
    requires TerminateWith(NewBlocks(l1.b, 2), M.Branch(o, |l1.b.blocks|, |l1.b.blocks| + 1)) == Some(b3)
    requires JoinsFrom(env, l1.(b := b3), |l1.b.blocks|, st.thn, |l1.b.blocks| + 1, |l1.b.blocks| + 1)
    ensures BuildIf(env, l, st).Some? <==> Clear(env, st.thn)
    ensures BuildIf(env, l, st).Some? ==> !Closed(BuildIf(env, l, st).value.b)
  {
    TwoBlocks(l1.b);
  }

  lemma {:induction false} NoElseAfter(env: Env, l1: Low, o: M.Operand, thn: seq<Stmt>, users: nat, active: set<nat>)
    returns (b3: State)
    requires Good(thn, users, active) && At(l1, users, active) && !Closed(l1.b)
    ensures TerminateWith(NewBlocks(l1.b, 2), M.Branch(o, |l1.b.blocks|, |l1.b.blocks| + 1)) == Some(b3)
    ensures JoinsFrom(env, l1.(b := b3), |l1.b.blocks|, thn, |l1.b.blocks| + 1, |l1.b.blocks| + 1)
    decreases thn, 4
  {
    b3 := Forked(l1.b, 2, M.Branch(o, |l1.b.blocks|, |l1.b.blocks| + 1));
    PartAfter(env, l1.(b := b3), |l1.b.blocks|, thn, |l1.b.blocks| + 1, |l1.b.blocks| + 1, users, active);
  }

  lemma {:induction false} ElseAfter(env: Env, l1: Low, o: M.Operand, st: Stmt, users: nat, active: set<nat>)
    returns (b3: State)
    requires st.If? && st.els.Else? && Good(st.thn, users, active) && Good(st.els.stmts, users, active)
    requires At(l1, users, active) && !Closed(l1.b)
    ensures TerminateWith(NewBlocks(l1.b, 3), M.Branch(o, |l1.b.blocks|, |l1.b.blocks| + 2)) == Some(b3)
    ensures var r4 := BuildInto(env, l1.(b := b3), |l1.b.blocks| + 2, st.els.stmts, |l1.b.blocks| + 1);
            && (r4.Some? <==> Clear(env, st.els.stmts))
            && (r4.Some? ==> JoinsFrom(env, r4.value, |l1.b.blocks|, st.thn, |l1.b.blocks| + 1, |l1.b.blocks| + 1))
    decreases st, 1
  {
    var (t, merge, e) := (|l1.b.blocks|, |l1.b.blocks| + 1, |l1.b.blocks| + 2);
    b3 := Forked(l1.b, 3, M.Branch(o, t, e));
    IntoAfter(env, l1.(b := b3), e, st.els.stmts, merge, users, active);
    if BuildInto(env, l1.(b := b3), e, st.els.stmts, merge).Some? {
      var l4 := BuildInto(env, l1.(b := b3), e, st.els.stmts, merge).value;
      BuildIntoFill(env, l1.(b := b3), e, st.els.stmts, merge);
      IntoKeepsLoops(env, l1.(b := b3), e, st.els.stmts, merge, users, active);
      PartAfter(env, l4, t, st.thn, merge, merge, users, active);
    }
  }

  /** A body and the switch to the block after it succeed exactly when the body does. */
  ghost predicate JoinsFrom(env: Env, l: Low, start: nat, stmts: seq<Stmt>, next: nat, merge: nat)
    requires AllTyped(stmts)
  {
    match BuildInto(env, l, start, stmts, next)
    case None => !Clear(env, stmts)
    case Some(l') =>
      Clear(env, stmts) && SwitchTo(l'.b, merge).Some? && !Closed(SwitchTo(l'.b, merge).value)
  }

  lemma Forked(b: State, n: nat, tm: M.Terminator) returns (b': State)
    requires Wf(b) && !Closed(b) && TargetsIn(tm, |b.blocks| + n)
    ensures TerminateWith(NewBlocks(b, n), tm) == Some(b')
    ensures Wf(b') && Grow(b, b') && |b'.blocks| == |b.blocks| + n
    ensures forall i: nat :: |b.blocks| <= i < |b.blocks| + n ==> i in Open(b')
  {
    b' := TerminateWith(NewBlocks(b, n), tm).value;
    ForkKeeps(b, n, tm, b');
  }

  /** The last part of a statement, then the block after it. */
  lemma {:induction false} PartAfter(env: Env, l: Low, start: nat, stmts: seq<Stmt>, next: nat, merge: nat, users: nat,
                                     active: set<nat>)
    requires Good(stmts, users, active) && At(l, users, active) && next < |l.b.blocks|
    requires start in Open(l.b) && merge in Open(l.b) && start != merge
    ensures JoinsFrom(env, l, start, stmts, next, merge)
    decreases stmts, 3
  {
    IntoAfter(env, l, start, stmts, next, users, active);
    if BuildInto(env, l, start, stmts, next).Some? {
      BuildIntoFill(env, l, start, stmts, next);
      assert merge in Open(BuildInto(env, l, start, stmts, next).value.b);
    }
  }

  // ----- loops -----

  lemma {:induction false} WhileAfter(env: Env, l: Low, st: Stmt, users: nat, active: set<nat>)
    requires st.While? && Typed(st) && Scoped(st, users, active) && At(l, users, active)
    ensures Agrees(StateOf(BuildWhile(env, l, st)), When(Tagged(st, env.target), After(env, st, Closed(l.b))))
    decreases st, 3
  {
    if Closed(l.b) {
      TwoBlocks(l.b);
    } else {
      var l2 := LoopEntered(l, st.scope);
      SetupAfter(env, l2, st.cond, users, active + {st.scope});
      if BuildSetup(env, l2, st.cond).Some? && !Closed(BuildSetup(env, l2, st.cond).value.0.b) {
        var (l3, o) := BuildSetup(env, l2, st.cond).value;
        LoopBodyAfter(env, l, st, l2, l3, o, users, active);
      } else {
        LoopFails(env, l, st, l2);
      }
    }
  }

  lemma LoopEntered(l: Low, scope: nat) returns (l2: Low)
    requires LowWf(l) && !Closed(l.b)
    ensures LoopHead(l, scope, l2) && LowWf(l2) && !Closed(l2.b) && l2.b.locals == l.b.locals
    ensures |l2.b.blocks| == |l.b.blocks| + 3
    ensures forall active :: LoopsFor(l, active) ==> LoopsFor(l2, active + {scope})
  {
    var head := |l.b.blocks|;
    var b1 := Forked(l.b, 3, M.Goto(head));
    l2 := Low(SwitchTo(b1, head).value, l.begins[scope := head], l.ends[scope := head + 2]);
    LoopHeadWf(l, scope, l2);
  }

  lemma LoopFails(env: Env, l: Low, st: Stmt, l2: Low)
    requires st.While? && Typed(st) && LoopHead(l, st.scope, l2)
    requires BuildSetup(env, l2, st.cond).Some? ==> Closed(BuildSetup(env, l2, st.cond).value.0.b)
    ensures BuildWhile(env, l, st).None?
  {
    TwoBlocks(l.b);
  }

  lemma LoopDecides(env: Env, l: Low, st: Stmt, l2: Low, l3: Low, o: M.Operand, b4: State)
    requires st.While? && Typed(st) && LoopHead(l, st.scope, l2) && BuildSetup(env, l2, st.cond) == Some((l3, o))
    requires TerminateWith(l3.b, M.Branch(o, |l.b.blocks| + 1, |l.b.blocks| + 2)) == Some(b4)
    requires BodyJoins(env, l3.(b := b4), st, |l.b.blocks|)
    ensures BuildWhile(env, l, st).Some? <==> Clear(env, st.body)
    ensures BuildWhile(env, l, st).Some? ==> !Closed(BuildWhile(env, l, st).value.b)
  {
    TwoBlocks(l.b);
  }

  lemma LoopBranch(env: Env, l: Low, st: Stmt, l2: Low, l3: Low, o: M.Operand) returns (b4: State)
    requires st.While? && Typed(st) && LowWf(l2) && |l2.b.blocks| == |l.b.blocks| + 3
    requires BuildSetup(env, l2, st.cond) == Some((l3, o)) && !Closed(l3.b)
    ensures TerminateWith(l3.b, M.Branch(o, |l.b.blocks| + 1, |l.b.blocks| + 2)) == Some(b4)
  {
    BuildSetupSeg(env, l2, st.cond);
    b4 := TerminateWith(l3.b, M.Branch(o, |l.b.blocks| + 1, |l.b.blocks| + 2)).value;
  }

  /** The loop whose condition leaves its block open. */
  lemma {:induction false} LoopBodyAfter(env: Env, l: Low, st: Stmt, l2: Low, l3: Low, o: M.Operand, users: nat,
                                         active: set<nat>)
    requires st.While? && Typed(st) && Scoped(st, users, active) && At(l, users, active)
    requires LoopHead(l, st.scope, l2) && At(l2, users, active + {st.scope}) && |l2.b.blocks| == |l.b.blocks| + 3
    requires BuildSetup(env, l2, st.cond) == Some((l3, o)) && !Closed(l3.b)
    ensures BuildWhile(env, l, st).Some? <==> Clear(env, st.body)
    ensures BuildWhile(env, l, st).Some? ==> !Closed(BuildWhile(env, l, st).value.b)
    decreases st, 2
  {
    var b4 := LoopBranch(env, l, st, l2, l3, o);
    LoopTested(env, l, st, l2, l3, o, b4, users, active);
    BodyAfter(env, l3.(b := b4), st, |l.b.blocks|, users, active);
    LoopDecides(env, l, st, l2, l3, o, b4);
  }

  /** The body of a loop joins the head of the loop. */
  ghost predicate BodyJoins(env: Env, l4: Low, st: Stmt, head: nat)
    requires Typed(st)
  {
    match st
    case While(_, _, body) => JoinsFrom(env, l4, head + 1, body, head, head + 2)
    case _ => true
  }

  lemma {:induction false} BodyAfter(env: Env, l4: Low, st: Stmt, head: nat, users: nat, active: set<nat>)
    requires st.While? && Typed(st) && Scoped(st, users, active) && At(l4, users, active + {st.scope})
    requires head < |l4.b.blocks| && head + 1 in Open(l4.b) && head + 2 in Open(l4.b)
    ensures BodyJoins(env, l4, st, head)
    decreases st, 1
  {
    PartAfter(env, l4, head + 1, st.body, head, head + 2, users, active + {st.scope});
  }

  lemma LoopTested(env: Env, l: Low, st: Stmt, l2: Low, l3: Low, o: M.Operand, b4: State, users: nat, active: set<nat>)
    requires st.While? && Typed(st) && Scoped(st, users, active) && At(l, users, active)
    requires LoopHead(l, st.scope, l2) && At(l2, users, active + {st.scope})
    requires BuildSetup(env, l2, st.cond) == Some((l3, o))
    requires TerminateWith(l3.b, M.Branch(o, |l.b.blocks| + 1, |l.b.blocks| + 2)) == Some(b4)
    ensures At(l3.(b := b4), users, active + {st.scope})
    ensures |l.b.blocks| < |b4.blocks| && |l.b.blocks| + 1 in Open(b4) && |l.b.blocks| + 2 in Open(b4)
  {
    BuildSetupSeg(env, l2, st.cond);
    SetupKeepsLoops(env, l2, st.cond, users, active + {st.scope});
    LoopTestOpen(l, st.scope, l2, l3, M.Branch(o, |l.b.blocks| + 1, |l.b.blocks| + 2), b4);
  }

  lemma LoopTestOpen(l: Low, scope: nat, l2: Low, l3: Low, tm: M.Terminator, b4: State)
    requires LowWf(l) && LoopHead(l, scope, l2) && Seg(l2.b, l3.b) && TerminateWith(l3.b, tm) == Some(b4)
    requires TargetsIn(tm, |l.b.blocks| + 3)
    ensures Wf(b4) && Grow(l3.b, b4)
    ensures |l.b.blocks| < |b4.blocks| && |l.b.blocks| + 1 in Open(b4) && |l.b.blocks| + 2 in Open(b4)
  {
    LoopHeadWf(l, scope, l2);
    TerminateKeeps(l3.b, tm);
    LoopOpen(l.b, l2.b, l3.b, b4, |l.b.blocks|);
  }

  lemma LoopOpen(b: State, b2: State, b3: State, b4: State, head: nat)
    requires head == |b.blocks| && |b2.blocks| == head + 3 && b2.current == head
    requires Open(b2) == (Open(b) - {b.current}) + Fresh(b, 3)
    requires Seg(b2, b3) && Open(b4) == Open(b3) - {b3.current}
    ensures head + 1 in Open(b4) && head + 2 in Open(b4)
  {
    assert head + 1 in Open(b2) - {head} && head + 2 in Open(b2) - {head};
    assert Open(b3) - {b3.current} == Open(b2) - {head};
  }

  // ----- matches -----

  lemma {:induction false} MatchAfter(env: Env, l: Low, st: Stmt, users: nat, active: set<nat>)
    requires st.Match? && Typed(st) && Scoped(st, users, active) && At(l, users, active)
    ensures Agrees(StateOf(BuildMatch(env, l, st)), When(Tagged(st, env.target), After(env, st, Closed(l.b))))
    decreases st, 3
  {
    SetupAfter(env, l, st.scrut, users, active);
    if BuildSetup(env, l, st.scrut).Some? {
      var (l1, o) := BuildSetup(env, l, st.scrut).value;
      BuildSetupSeg(env, l, st.scrut);
      SetupKeepsLoops(env, l, st.scrut, users, active);
      ScrutineeMoved(env, l, st.scrut, l1, o);
      SpillAfter(l1.b, o);
      if SpillOperand(l1.b, o).Some? {
        var (b2, place) := SpillOperand(l1.b, o).value;
        SpillOperandSeg(l1.b, o);
        MatchBlocksAfter(env, st, l1, b2, place, users, active);
      }
    }
  }

  lemma SpillAfter(b: State, o: M.Operand)
    requires Wf(b)
    ensures SpillOperand(b, o).Some? <==> o.Move? || !Closed(b)
    ensures SpillOperand(b, o).Some? ==> Closed(SpillOperand(b, o).value.0) == Closed(b)
  {
  }

  lemma ScrutineeMoved(env: Env, l: Low, s: Setup, l1: Low, o: M.Operand)
    requires AllTyped(s.stmts) && BuildSetup(env, l, s) == Some((l1, o)) && LowWf(l)
    ensures Closed(l1.b) ==> (o.Move? <==> Inspected(env, s.expr))
  {
    var l0 := BuildStmts(env, l, s.stmts).value;
    BuildStmtsSeg(env, l, s.stmts);
    OperandAfter(env, l0.b, s.expr);
  }

  /** A tree as it comes from a match; it is Fail exactly for a match without arms. */
  ghost predicate TreeGood(tree: DT.Tree, local: nat, branches: nat, users: nat) {
    match tree
    case Fail => branches == 0
    case _ => branches != 0 && TreeOk(tree, local, branches) && TreeNamed(tree, users)
  }

  lemma MatchTreeGood(st: Stmt, place: Place, users: nat, active: set<nat>)
    requires st.Match? && Typed(st) && Scoped(st, users, active)
             && place.ty == TypeOf(st.scrut.expr)
    ensures DT.MatrixOk(MatchMatrix(place, st.arms))
    ensures TreeGood(Compile(MatchMatrix(place, st.arms)), place.local, |st.arms|, users)
  {
    var m := MatchMatrix(place, st.arms);
    MatchMatrixOk(place, st.arms);
    forall r | 0 <= r < |m.rows| ensures RowNamed(m.rows[r], users) {
      assert ArmScoped(st.arms[r], st.scrut.expr, users);
      BindersBelow(st.arms[r].pat, users);
    }
    CompileNamed(m, users);
    CompileTreeOk(m, place.local, |st.arms|, Nothing);
    CompileFails(m);
  }

  lemma TreeAfter(env: Env, b: State, t: DT.Tree, bbs: seq<nat>, diverge: nat, local: nat, users: nat)
    requires Wf(b) && IdsIn(bbs, |b.blocks|) && diverge < |b.blocks| && users <= |b.locals|
    requires TreeGood(t, local, |bbs|, users)
    ensures Decided(b, |bbs|, TreeTagged(t, env.target), LowerTree(env, b, t, bbs, diverge))
  {
    if !Closed(b) {
      TreeLowered(env, b, t, bbs, diverge, local, users);
    } else if LowerTree(env, b, t, bbs, diverge).Some? {
      ClosedLowersOnlyFail(env, b, t, bbs, diverge);
    }
    if LowerTree(env, b, t, bbs, diverge).Some? {
      MatchTreeFill(env, b, t, bbs, diverge);
    }
  }

  lemma {:induction false} MatchBlocksAfter(env: Env, st: Stmt, l1: Low, b2: State, place: Place, users: nat,
                                            active: set<nat>)
    requires st.Match? && Typed(st) && Scoped(st, users, active)
    requires At(l1, users, active) && Seg(l1.b, b2) && place.ty == TypeOf(st.scrut.expr)
    ensures DT.MatrixOk(MatchMatrix(place, st.arms))
    ensures DecisionAfter(env, st.arms,
                          LowerDecisionTree(env, l1.(b := NewBlock(b2)), Compile(MatchMatrix(place, st.arms)), st.arms,
                                            |b2.blocks|),
                          |b2.blocks|, Closed(b2), TreeTagged(MatchTree(st.arms, place.ty), env.target))
    decreases st, 2
  {
    MatchTreeGood(st, place, users, active);
    TaggedAnywhere(place, st.arms, env.target);
    DecideAfter(env, st, l1, b2, Compile(MatchMatrix(place, st.arms)), place.local, users, active);
  }

  lemma {:induction false} DecideAfter(env: Env, st: Stmt, l1: Low, b2: State, tree: DT.Tree, local: nat, users: nat,
                                       active: set<nat>)
    requires st.Match? && Typed(st) && Scoped(st, users, active)
    requires At(l1, users, active) && Seg(l1.b, b2) && TreeGood(tree, local, |st.arms|, users)
    ensures DecisionAfter(env, st.arms, LowerDecisionTree(env, l1.(b := NewBlock(b2)), tree, st.arms, |b2.blocks|),
                          |b2.blocks|, Closed(b2), TreeTagged(tree, env.target))
    decreases st, 1
  {
    var (n, merge) := (|st.arms|, |b2.blocks|);
    DecideReady(st, l1, b2, users, active);
    RoomMade(b2, n, users);
    var r4 := Tests(env, NewBlocks(b2, n + 2), n, tree, merge);
    TestsAfter(env, NewBlocks(b2, n + 2), n, tree, merge, local, users, r4);
    DecisionSteps(env, st.arms, l1, b2, tree, r4);
    DecideArms(env, st, l1, b2, r4, LowerDecisionTree(env, l1.(b := NewBlock(b2)), tree, st.arms, merge),
               TreeTagged(tree, env.target), users, active);
  }

  lemma DecideReady(st: Stmt, l1: Low, b2: State, users: nat, active: set<nat>)
    requires st.Match? && Typed(st) && At(l1, users, active) && Seg(l1.b, b2)
    ensures BodiesTyped(st.arms) && Wf(b2) && users <= |b2.locals|
  {
  }

  /** The merge block, one block for each branch and the diverging block are allocated. */
  ghost predicate Room(b: State, merge: nat, n: nat, users: nat) {
    match b
    case State(blocks, _, _, locals) => Wf(b) && |blocks| == merge + n + 2 && users <= |locals|
  }

  lemma RoomMade(b2: State, n: nat, users: nat)
    requires Wf(b2) && users <= |b2.locals|
    ensures Room(NewBlocks(b2, n + 2), |b2.blocks|, n, users)
  {
    NewBlocksWf(b2, n + 2);
  }

  /** What the tests of a match lead to, up to the state in which its arms are lowered. */
  ghost predicate TestsGive(env: Env, b: State, n: nat, tree: DT.Tree, merge: nat, r4: Option<State>) {
    var r := LowerTree(env, b, tree, BlockIds(merge + 1, n), merge + 1 + n);
    match r4
    case None => r == None
    case Some(b4) => r == Some(b4)
  }

  lemma Tests(env: Env, b: State, n: nat, tree: DT.Tree, merge: nat) returns (r4: Option<State>)
    ensures TestsGive(env, b, n, tree, merge, r4)
  {
    r4 := LowerTree(env, b, tree, BlockIds(merge + 1, n), merge + 1 + n);
  }

  lemma TestsAfter(env: Env, b: State, n: nat, tree: DT.Tree, merge: nat, local: nat, users: nat, r4: Option<State>)
    requires Room(b, merge, n, users) && TreeGood(tree, local, n, users) && TestsGive(env, b, n, tree, merge, r4)
    ensures Decided(b, n, TreeTagged(tree, env.target), r4)
  {
    TreeAfter(env, b, tree, BlockIds(merge + 1, n), merge + 1 + n, local, users);
  }

  /** The tests were emitted, or not; then the arms. */
  lemma {:induction false} DecideArms(env: Env, st: Stmt, l1: Low, b2: State, r4: Option<State>,
                                      decision: Option<Low>, tagged: bool, users: nat, active: set<nat>)
    requires st.Match? && Typed(st) && Scoped(st, users, active)
    requires At(l1, users, active) && Seg(l1.b, b2) && Decided(NewBlocks(b2, |st.arms| + 2), |st.arms|, tagged, r4)
    requires GoesOn(env, st.arms, l1, |b2.blocks|, r4, decision)
    ensures DecisionAfter(env, st.arms, decision, |b2.blocks|, Closed(b2), tagged)
    decreases st, 0, 1
  {
    if r4.Some? {
      DecidedArmsAfter(env, st, l1, b2, r4.value, users, active);
      JoinedEnds(env, st.arms, l1.(b := r4.value), |b2.blocks|);
    }
  }

  ghost predicate ArmsOk(env: Env, arms: seq<Arm>, l: Low, merge: nat)
    requires BodiesTyped(arms)
  {
    var r5 := BuildArms(env, l, arms, BlockIds(merge + 1, |arms|), merge);
    && (r5.Some? <==> ArmsClear(env, arms))
    && (r5.Some? ==> Ends(r5.value.b, merge + 1 + |arms|, merge))
  }

  ghost predicate Decided(b: State, n: nat, tagged: bool, r: Option<State>) {
    match r
    case None => !tagged || (Closed(b) && n > 0)
    case Some(b') => tagged && (Closed(b) ==> n == 0) && Wf(b') && Fill(b, b', b.current)
  }

  lemma NewBlocksWf(b: State, n: nat)
    requires Wf(b)
    ensures Wf(NewBlocks(b, n)) && |NewBlocks(b, n).blocks| == |b.blocks| + n
  {
    NewBlocksKeep(b, n);
  }

  /** How the lowering of a tree goes on once its tests are in place. */
  ghost function Joined(env: Env, arms: seq<Arm>, l: Low, merge: nat): Option<Low>
    requires BodiesTyped(arms)
  {
    match BuildArms(env, l, arms, BlockIds(merge + 1, |arms|), merge)
    case None => None
    case Some(l5) =>
      match SwitchTo(l5.b, merge + 1 + |arms|)
      case None => None
      case Some(b6) =>
        match TerminateWith(b6, M.Diverge)
        case None => None
        case Some(b7) => match SwitchTo(b7, merge) case None => None case Some(b8) => Some(l5.(b := b8))
  }

  ghost predicate GoesOn(env: Env, arms: seq<Arm>, l1: Low, merge: nat, r4: Option<State>, decision: Option<Low>)
    requires BodiesTyped(arms)
  {
    match r4
    case None => decision == None
    case Some(b4) => decision == Joined(env, arms, l1.(b := b4), merge)
  }

  lemma DecisionSteps(env: Env, arms: seq<Arm>, l1: Low, b2: State, tree: DT.Tree, r4: Option<State>)
    requires BodiesTyped(arms) && TestsGive(env, NewBlocks(b2, |arms| + 2), |arms|, tree, |b2.blocks|, r4)
    ensures GoesOn(env, arms, l1, |b2.blocks|, r4,
                   LowerDecisionTree(env, l1.(b := NewBlock(b2)), tree, arms, |b2.blocks|))
  {
    MatchBlocks(b2, |arms|);
  }

  lemma JoinedEnds(env: Env, arms: seq<Arm>, l: Low, merge: nat)
    requires BodiesTyped(arms) && ArmsOk(env, arms, l, merge)
    ensures Joined(env, arms, l, merge).Some? <==> ArmsClear(env, arms)
    ensures var r := Joined(env, arms, l, merge);
            r.Some? ==> SwitchTo(r.value.b, merge).Some? && !Closed(SwitchTo(r.value.b, merge).value)
  {
  }

  lemma {:induction false} DecidedArmsAfter(env: Env, st: Stmt, l1: Low, b2: State, b4: State, users: nat,
                                            active: set<nat>)
    requires st.Match? && Typed(st) && Scoped(st, users, active)
    requires At(l1, users, active) && Seg(l1.b, b2) && Wf(b4) && Fill(NewBlocks(b2, |st.arms| + 2), b4, b2.current)
    ensures ArmsOk(env, st.arms, l1.(b := b4), |b2.blocks|)
    decreases st, 0, 0
  {
    var (n, merge) := (|st.arms|, |b2.blocks|);
    ArmBlocksOpen(b2, n, b4);
    AtArms(l1, b2, n, b4, users, active);
    AllArmsAfter(env, l1.(b := b4), st.arms, BlockIds(merge + 1, n), merge, n, users, active);
  }

  lemma AtArms(l1: Low, b2: State, n: nat, b4: State, users: nat, active: set<nat>)
    requires At(l1, users, active) && Seg(l1.b, b2) && Wf(b4) && Fill(NewBlocks(b2, n + 2), b4, b2.current)
    requires Grow(b2, NewBlocks(b2, n + 2))
    ensures At(l1.(b := b4), users, active)
  {
    GrowTrans(b2, NewBlocks(b2, n + 2), b4);
    LoopsGrow(l1, b4);
  }

  lemma {:induction false} AllArmsAfter(env: Env, l: Low, arms: seq<Arm>, bbs: seq<nat>, merge: nat, n: nat, users: nat,
                                        active: set<nat>)
    requires forall i {:trigger arms[i]} :: 0 <= i < |arms| ==>
               AllTyped(arms[i].body) && Good(arms[i].body, users, active)
    requires At(l, users, active) && n == |arms| && bbs == BlockIds(merge + 1, n) && Distinct(bbs)
    requires forall i :: merge <= i < merge + n + 2 ==> i in Open(l.b)
    ensures ArmsOk(env, arms, l, merge)
    decreases arms, 2
  {
    assert merge in Open(l.b);
    ArmsAfter(env, l, arms, bbs, merge, users, active);
    if BuildArms(env, l, arms, bbs, merge).Some? {
      BuildArmsFill(env, l, arms, bbs, merge);
      ArmsEnd(l.b, BuildArms(env, l, arms, bbs, merge).value.b, bbs, merge, n);
    }
  }

  /** The diverging block can still be closed and the join entered. */
  ghost predicate Ends(b5: State, diverge: nat, merge: nat) {
    && SwitchTo(b5, diverge).Some? && TerminateWith(SwitchTo(b5, diverge).value, M.Diverge).Some?
    && var b7 := TerminateWith(SwitchTo(b5, diverge).value, M.Diverge).value;
       merge !in b7.finalized
  }

  lemma ArmBlocksOpen(b2: State, n: nat, b4: State)
    requires Wf(b2) && Fill(NewBlocks(b2, n + 2), b4, b2.current)
    ensures forall i :: |b2.blocks| <= i < |b2.blocks| + n + 2 ==> i in Open(b4)
    ensures |b4.blocks| >= |b2.blocks| + n + 2 && Grow(b2, NewBlocks(b2, n + 2))
            && Distinct(BlockIds(|b2.blocks| + 1, n))
  {
    NewBlocksKeep(b2, n + 2);
    forall i | |b2.blocks| <= i < |b2.blocks| + n + 2 ensures i in Open(b4) {
      assert i in Fresh(b2, n + 2);
    }
  }

  lemma ArmsEnd(b4: State, b5: State, bbs: seq<nat>, merge: nat, n: nat)
    requires FillAll(b4, b5, Elements(bbs)) && bbs == BlockIds(merge + 1, n)
    requires merge in Open(b4) && merge + 1 + n in Open(b4)
    ensures Ends(b5, merge + 1 + n, merge)
  {
    assert merge !in Elements(bbs) && merge + 1 + n !in Elements(bbs);
    assert merge in Open(b5) && merge + 1 + n in Open(b5);
  }

  /** The match went through exactly when its tags and its arms allow it; then the join is open. */
  ghost predicate DecisionAfter(env: Env, arms: seq<Arm>, r: Option<Low>, merge: nat, closed: bool, tagged: bool)
    requires BodiesTyped(arms)
  {
    match r
    case None => !(tagged && (closed ==> arms == []) && ArmsClear(env, arms))
    case Some(l') =>
      && tagged && (closed ==> arms == []) && ArmsClear(env, arms)
      && SwitchTo(l'.b, merge).Some? && !Closed(SwitchTo(l'.b, merge).value)
  }

  // ----- tidy bodies -----

  /** Control never reaches the end of the statement because it breaks or continues there. */
  predicate Jumps(st: Stmt) {
    match st
    case Break(_) => true
    case Continue(_) => true
    case Body(stmts) => LastJumps(stmts)
    case _ => false
  }

  predicate LastJumps(stmts: seq<Stmt>) {
    stmts != [] && Jumps(stmts[|stmts| - 1])
  }

  /** Nothing follows a break or a continue in its sequence. */
  predicate Tidy(st: Stmt)
    decreases st, 0
  {
    match st
    case Body(stmts) => AllTidy(stmts)
    case If(cond, thn, els) =>
      AllTidy(cond.stmts) && !LastJumps(cond.stmts) && AllTidy(thn) && (els.Else? ==> AllTidy(els.stmts))
    case While(_, cond, body) => AllTidy(cond.stmts) && !LastJumps(cond.stmts) && AllTidy(body)
    case Match(scrut, arms) =>
      && AllTidy(scrut.stmts) && !LastJumps(scrut.stmts)
      && forall i {:trigger arms[i]} :: 0 <= i < |arms| ==> AllTidy(arms[i].body)
    case _ => true
  }

  predicate AllTidy(stmts: seq<Stmt>)
    decreases stmts, 1
  {
    forall i {:trigger stmts[i]} :: 0 <= i < |stmts| ==> Tidy(stmts[i]) && (i < |stmts| - 1 ==> !Jumps(stmts[i]))
  }

  lemma {:induction false} OpenExpr(e: Expr)
    ensures AfterOperand(e, false) == Some(false) && AfterRValue(e, false) == Some(false)
    decreases e, 0
  {
    if e.Op? || e.CallE? {
      OpenExprs(e.args);
    }
  }

  lemma {:induction false} OpenExprs(es: seq<Expr>)
    ensures AfterExprs(es, false) == Some(false)
    decreases es, 1
  {
    if es != [] {
      OpenExpr(es[0]);
      OpenExprs(es[1..]);
    }
  }

  /** Lowering a tidy body never panics, and closes its last block exactly when the body ends in a jump. */
  lemma {:induction false} TidyAfter(env: Env, st: Stmt)
    requires Tidy(st)
    ensures After(env, st, false) == Some(Jumps(st))
    decreases st, 0
  {
    match st
    case Body(stmts) => AllTidyAfter(env, stmts);
    case If(cond, thn, els) =>
      AllTidyAfter(env, cond.stmts);
      OpenExpr(cond.expr);
      AllTidyAfter(env, thn);
      if els.Else? {
        AllTidyAfter(env, els.stmts);
      }
    case While(_, cond, body) =>
      AllTidyAfter(env, cond.stmts);
      OpenExpr(cond.expr);
      AllTidyAfter(env, body);
    case Match(scrut, arms) =>
      AllTidyAfter(env, scrut.stmts);
      OpenExpr(scrut.expr);
      ArmsTidyAfter(env, arms);
    case Let(_, e) => OpenExpr(e);
    case Assign(_, e) => OpenExpr(e);
    case ExprS(e) => OpenExpr(e);
    case ReturnS(Some(e)) => OpenExpr(e);
    case _ =>
  }

  lemma {:induction false} AllTidyAfter(env: Env, stmts: seq<Stmt>)
    requires AllTidy(stmts)
    ensures AfterAll(env, stmts, false) == Some(LastJumps(stmts))
    decreases stmts, 1
  {
    if stmts != [] {
      assert Tidy(stmts[0]);
      TidyAfter(env, stmts[0]);
      if |stmts| > 1 {
        AllTidyAfter(env, stmts[1..]);
      } else {
        assert stmts[1..] == [];
      }
    }
  }

  lemma {:induction false} ArmsTidyAfter(env: Env, arms: seq<Arm>)
    requires forall i {:trigger arms[i]} :: 0 <= i < |arms| ==> AllTidy(arms[i].body)
    ensures AfterArms(env, arms)
    decreases arms, 1
  {
    if arms != [] {
      AllTidyAfter(env, arms[0].body);
      ArmsTidyAfter(env, arms[1..]);
    }
  }
}
