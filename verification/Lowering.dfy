/** From structured statements to the block graph, as a function of the builder state. */
module Lowering {
  import opened Core
  import opened Layout
  import opened Patterns
  import opened DecisionTree
  import opened MatchCompiler
  import M = Mir
  import opened Thir
  import opened Builder

  /** Which types are copied rather than moved, and the width of a machine word. */
  datatype Env = Env(copies: Ty -> bool, target: IntWidth)

  /** The lowering state: the builder and where each loop begins and ends. */
  datatype Low = Low(b: State, begins: map<nat, nat>, ends: map<nat, nat>)

  function MoveOrCopy(env: Env, p: Place): M.Operand {
    if env.copies(p.ty) then M.Copy(p) else M.Move(p)
  }

  function PlaceOfLocal(b: State, x: nat): Option<Place> {
    if x < |b.locals| then Some(Place(x, [], b.locals[x])) else None
  }

  // ----- expressions -----

  /** The block is closed by the call; what follows goes to the block the call returns to. */
  function BuildCall(b: State, callee: nat, args: seq<M.Operand>, ty: Ty): Option<(State, nat)> {
    var next := |b.blocks|;
    var local := |b.locals|;
    var b1 :- TerminateWith(NewLocal(NewBlock(b), ty), M.Call(callee, args, local, next));
    var b2 :- SwitchTo(b1, next);
    if ty != NeverT then Some((b2, local))
    else
      var b3 :- TerminateWith(b2, M.Diverge);
      var b4 :- SwitchTo(NewBlock(b3), |b3.blocks|);
      Some((b4, local))
  }

  function BuildRValue(env: Env, b: State, e: Expr): (r: Option<(State, M.RValue)>)
    decreases e, 0
  {
    match e
    case Const(v, t) => Some((b, M.UseOf(M.Constant(v, t))))
    case Use(p) => Some((b, M.UseOf(MoveOrCopy(env, p))))
    case Op(op, args, t) =>
      var (b1, ops) :- BuildOperands(env, b, args);
      Some((b1, M.Pure(op, ops, t)))
    case CallE(f, args, t) =>
      var (b1, ops) :- BuildOperands(env, b, args);
      var (b2, local) :- BuildCall(b1, f, ops, t);
      Some((b2, M.UseOf(M.Move(Place(local, [], t)))))
  }

  function BuildOperand(env: Env, b: State, e: Expr): (r: Option<(State, M.Operand)>)
    ensures r.Some? ==> M.OperandTy(r.value.1) == TypeOf(e)
    decreases e, 1
  {
    match e
    case Const(v, t) => Some((b, M.Constant(v, t)))
    case Use(p) => Some((b, MoveOrCopy(env, p)))
    case CallE(f, args, t) =>
      var (b1, ops) :- BuildOperands(env, b, args);
      var (b2, local) :- BuildCall(b1, f, ops, t);
      Some((b2, MoveOrCopy(env, Place(local, [], t))))
    case Op(_, _, t) =>
      var (b1, rv) :- BuildRValue(env, b, e);
      var place := Place(|b1.locals|, [], t);
      var b2 :- Emit(NewLocal(b1, t), M.AssignTo(place, rv));
      Some((b2, M.Move(place)))
  }

  function BuildOperands(env: Env, b: State, es: seq<Expr>): (r: Option<(State, seq<M.Operand>)>)
    decreases es, 2
  {
    if es == [] then Some((b, []))
    else
      var (b1, o) :- BuildOperand(env, b, es[0]);
      var (b2, os) :- BuildOperands(env, b1, es[1..]);
      Some((b2, [o] + os))
  }

  /** A statement expression keeps its effects; a plain read of a whole local emits nothing. */
  function SpillRValue(b: State, rv: M.RValue, ty: Ty): Option<State> {
    if rv.UseOf? && (rv.operand.Constant? || rv.operand.place.projs == []) then Some(b)
    else Emit(NewLocal(b, ty), M.AssignTo(Place(|b.locals|, [], ty), rv))
  }

  /** The place a match inspects: the operand's own place when it is moved, else a copy of it. */
  function SpillOperand(b: State, o: M.Operand): (r: Option<(State, Place)>)
    ensures r.Some? ==> r.value.1.ty == M.OperandTy(o)
  {
    if o.Move? then Some((b, o.place))
    else
      var place := Place(|b.locals|, [], M.OperandTy(o));
      var b1 :- Emit(NewLocal(b, M.OperandTy(o)), M.AssignTo(place, M.UseOf(o)));
      Some((b1, place))
  }

  // ----- decision trees -----

  function Goto(b: State, next: nat): Option<State> {
    TerminateWith(b, M.Goto(next))
  }

  function EmitBindings(env: Env, b: State, bs: seq<Binding>): Option<State>
    decreases |bs|
  {
    if bs == [] then Some(b)
    else
      var dest :- PlaceOfLocal(b, bs[0].local);
      var b1 :- Emit(b, M.AssignTo(dest, M.UseOf(MoveOrCopy(env, bs[0].place))));
      EmitBindings(env, b1, bs[1..])
  }

  /** The integer type of an enum's tag, for the enums whose tag the lowering can read. */
  function TagTy(t: Ty, target: IntWidth): Option<Ty> {
    match LayoutOf(t, target).data
    case Union(_, _, I8) => Some(IntT(Fixed(I8), false))
    case Union(_, _, I32) => Some(IntT(Fixed(I32), true))
    case Union(_, _, I64) => Some(IntT(System, false))
    case _ => None
  }

  predicate IntLike(t: Ty) { t.IntT? || t.BoolT? || t.PtrT? }

  function CaseKey(c: Constructor, onEnum: bool): Option<int> {
    match c
    case VariantC(k) => if onEnum then Some(k) else None
    case IntC(n) => if onEnum then None else Some(M.Key(n))
    case BoolC(_) => None
  }

  function LowerTree(env: Env, b: State, t: Tree, bbs: seq<nat>, diverge: nat): Option<State>
    decreases t, 1
  {
    match t
    case Leaf(branch, bindings) =>
      var b1 :- EmitBindings(env, b, bindings);
      if branch < |bbs| then Goto(b1, bbs[branch]) else None
    case Fail => if Closed(b) then Some(b) else TerminateWith(b, M.Diverge)
    case Switch(place, cases, default) =>
      if place.ty.EnumT? then
        var tagTy :- TagTy(place.ty, env.target);
        var tag := Place(|b.locals|, [], tagTy);
        var b1 :- Emit(NewLocal(b, tagTy), M.AssignTo(tag, M.Discriminant(place, tagTy)));
        LowerSwitch(env, b1, M.Move(tag), t, bbs, diverge)
      else if IntLike(place.ty) then
        LowerSwitch(env, b, M.Move(place), t, bbs, diverge)
      else None
  }

  /** The sub-trees get blocks of their own; the switch is written last, in the block it started in. */
  function LowerSwitch(env: Env, b: State, o: M.Operand, t: Tree, bbs: seq<nat>, diverge: nat): Option<State>
    requires t.Switch?
    decreases t, 0
  {
    var (b1, branches) :- LowerCases(env, b, t.cases, bbs, diverge, t.place.ty.EnumT?);
    match t.default
    case None =>
      var b2 :- SwitchTo(b1, b.current);
      TerminateWith(b2, M.Switch(o, branches, diverge))
    case Some(tree) =>
      var b2 :- SwitchTo(NewBlock(b1), |b1.blocks|);
      var b3 :- LowerTree(env, b2, tree, bbs, diverge);
      var b4 :- SwitchTo(b3, b.current);
      TerminateWith(b4, M.Switch(o, branches, |b1.blocks|))
  }

  function LowerCases(env: Env, b: State, cases: seq<Case>, bbs: seq<nat>, diverge: nat, onEnum: bool)
    : Option<(State, map<int, nat>)>
    decreases cases, 0
  {
    if cases == [] then Some((b, map[]))
    else
      var key :- CaseKey(cases[0].ctor, onEnum);
      var b1 :- SwitchTo(NewBlock(b), |b.blocks|);
      assert cases[0].tree < cases[0];
      var b2 :- LowerTree(env, b1, cases[0].tree, bbs, diverge);
      var (b3, rest) :- LowerCases(env, b2, cases[1..], bbs, diverge, onEnum);
      Some((b3, map[key := |b.blocks|] + rest))
  }

  // ----- statements -----

  /** One row per branch; guards are not supported by the lowering. */
  function MatchMatrix(place: Place, arms: seq<Arm>): Matrix {
    Matrix([place], seq(|arms|, i requires 0 <= i < |arms| => Row([Some(arms[i].pat)], i, [])))
  }

  ghost predicate ArmsTyped(arms: seq<Arm>, t: Ty) {
    TyOk(t) && forall i {:trigger arms[i]} :: 0 <= i < |arms| ==> PatOk(arms[i].pat, t)
  }

  lemma MatchMatrixOk(place: Place, arms: seq<Arm>)
    requires ArmsTyped(arms, place.ty)
    ensures MatrixOk(MatchMatrix(place, arms))
  {
    var m := MatchMatrix(place, arms);
    forall r | 0 <= r < |m.rows| ensures RowOk(m.rows[r], m.cols) {
      assert PatOk(arms[r].pat, place.ty);
    }
  }

  /** The patterns of every match fit the type of its scrutinee. */
  ghost predicate Typed(st: Stmt)
    decreases st, 0
  {
    match st
    case Body(stmts) => AllTyped(stmts)
    case If(cond, thn, els) => AllTyped(cond.stmts) && AllTyped(thn) && (els.Else? ==> AllTyped(els.stmts))
    case While(_, cond, body) => AllTyped(cond.stmts) && AllTyped(body)
    case Match(scrut, arms) =>
      && AllTyped(scrut.stmts) && ArmsTyped(arms, TypeOf(scrut.expr))
      && forall i {:trigger arms[i]} :: 0 <= i < |arms| ==> AllTyped(arms[i].body)
    case _ => true
  }

  ghost predicate AllTyped(stmts: seq<Stmt>)
    decreases stmts, 1
  {
    forall i {:trigger stmts[i]} :: 0 <= i < |stmts| ==> Typed(stmts[i])
  }

  function BuildStmts(env: Env, l: Low, stmts: seq<Stmt>): Option<Low>
    requires AllTyped(stmts)
    decreases stmts, 1
  {
    if stmts == [] then Some(l)
    else
      assert Typed(stmts[0]);
      var l1 :- BuildStmt(env, l, stmts[0]);
      BuildStmts(env, l1, stmts[1..])
  }

  function BuildSetup(env: Env, l: Low, s: Setup): (r: Option<(Low, M.Operand)>)
    requires AllTyped(s.stmts)
    ensures r.Some? ==> M.OperandTy(r.value.1) == TypeOf(s.expr)
    decreases s, 1
  {
    var l1 :- BuildStmts(env, l, s.stmts);
    var (b, o) :- BuildOperand(env, l1.b, s.expr);
    Some((l1.(b := b), o))
  }

  /** Fills a block with statements and joins it to the next one unless it is already closed. */
  function BuildInto(env: Env, l: Low, start: nat, stmts: seq<Stmt>, next: nat): Option<Low>
    requires AllTyped(stmts)
    decreases stmts, 2
  {
    var b :- SwitchTo(l.b, start);
    var l1 :- BuildStmts(env, l.(b := b), stmts);
    if Closed(l1.b) then Some(l1)
    else
      var b1 :- Goto(l1.b, next);
      Some(l1.(b := b1))
  }

  function BuildArms(env: Env, l: Low, arms: seq<Arm>, bbs: seq<nat>, merge: nat): Option<Low>
    requires |bbs| == |arms|
    requires forall i {:trigger arms[i]} :: 0 <= i < |arms| ==> AllTyped(arms[i].body)
    decreases arms, 1
  {
    if arms == [] then Some(l)
    else
      var l1 :- BuildInto(env, l, bbs[0], arms[0].body, merge);
      BuildArms(env, l1, arms[1..], bbs[1..], merge)
  }

  function NewBlocks(b: State, n: nat): (r: State)
    ensures b.blocks <= r.blocks && |r.blocks| == |b.blocks| + n
    ensures forall i :: |b.blocks| <= i < |r.blocks| ==> r.blocks[i] == EMPTY_BLOCK
    ensures r.current == b.current && r.finalized == b.finalized && r.locals == b.locals
  {
    if n == 0 then b else NewBlock(NewBlocks(b, n - 1))
  }

  function BlockIds(from: nat, n: nat): (r: seq<nat>)
    ensures |r| == n && forall i :: 0 <= i < n ==> r[i] == from + i
  {
    seq(n, i => from + i)
  }

  function BuildIf(env: Env, l: Low, st: Stmt): Option<Low>
    requires st.If? && Typed(st)
    decreases st, 1
  {
    var (l1, o) :- BuildSetup(env, l, st.cond);
    var thenBB := |l1.b.blocks|;
    var mergeBB := thenBB + 1;
    var b2 := NewBlock(NewBlock(l1.b));
    match st.els
    case NoElse =>
      var b3 :- TerminateWith(b2, M.Branch(o, thenBB, mergeBB));
      var l5 :- BuildInto(env, l1.(b := b3), thenBB, st.thn, mergeBB);
      var b6 :- SwitchTo(l5.b, mergeBB);
      Some(l5.(b := b6))
    case Else(stmts) =>
      var elseBB := thenBB + 2;
      var b3 :- TerminateWith(NewBlock(b2), M.Branch(o, thenBB, elseBB));
      var l4 :- BuildInto(env, l1.(b := b3), elseBB, stmts, mergeBB);
      var l5 :- BuildInto(env, l4, thenBB, st.thn, mergeBB);
      var b6 :- SwitchTo(l5.b, mergeBB);
      Some(l5.(b := b6))
  }

  function BuildWhile(env: Env, l: Low, st: Stmt): Option<Low>
    requires st.While? && Typed(st)
    decreases st, 1
  {
    var condBB := |l.b.blocks|;
    var bodyBB := condBB + 1;
    var mergeBB := condBB + 2;
    var b1 :- Goto(NewBlock(NewBlock(NewBlock(l.b))), condBB);
    var b2 :- SwitchTo(b1, condBB);
    var (l3, o) :- BuildSetup(env, Low(b2, l.begins[st.scope := condBB], l.ends[st.scope := mergeBB]), st.cond);
    var b4 :- TerminateWith(l3.b, M.Branch(o, bodyBB, mergeBB));
    var l5 :- BuildInto(env, l3.(b := b4), bodyBB, st.body, condBB);
    var b6 :- SwitchTo(l5.b, mergeBB);
    Some(l5.(b := b6))
  }

  /** The blocks of the branches, the tests that lead to them, then their bodies. */
  function LowerDecisionTree(env: Env, l: Low, tree: Tree, arms: seq<Arm>, merge: nat): Option<Low>
    requires forall i {:trigger arms[i]} :: 0 <= i < |arms| ==> AllTyped(arms[i].body)
    decreases arms, 2
  {
    var bbs := BlockIds(|l.b.blocks|, |arms|);
    var divergeBB := |l.b.blocks| + |arms|;
    var b1 := NewBlock(NewBlocks(l.b, |arms|));
    var b2 :- LowerTree(env, b1, tree, bbs, divergeBB);
    var l3 :- BuildArms(env, l.(b := b2), arms, bbs, merge);
    var b4 :- SwitchTo(l3.b, divergeBB);
    var b5 :- TerminateWith(b4, M.Diverge);
    var b6 :- SwitchTo(b5, merge);
    Some(l3.(b := b6))
  }

  function BuildMatch(env: Env, l: Low, st: Stmt): Option<Low>
    requires st.Match? && Typed(st)
    decreases st, 1
  {
    var (l1, o) :- BuildSetup(env, l, st.scrut);
    var (b2, place) :- SpillOperand(l1.b, o);
    var mergeBB := |b2.blocks|;
    MatchMatrixOk(place, st.arms);
    var tree := Compile(MatchMatrix(place, st.arms));
    var l3 :- LowerDecisionTree(env, l1.(b := NewBlock(b2)), tree, st.arms, mergeBB);
    var b4 :- SwitchTo(l3.b, mergeBB);
    Some(l3.(b := b4))
  }

  function BuildStmt(env: Env, l: Low, st: Stmt): Option<Low>
    requires Typed(st)
    decreases st, 4
  {
    match st
    case Body(stmts) => BuildStmts(env, l, stmts)
    case If(_, _, _) => BuildIf(env, l, st)
    case While(_, _, _) => BuildWhile(env, l, st)
    case Match(_, _) => BuildMatch(env, l, st)
    case Let(x, init) =>
      var dest :- PlaceOfLocal(l.b, x);
      var (b1, rv) :- BuildRValue(env, l.b, init);
      var b2 :- Emit(b1, M.AssignTo(dest, rv));
      Some(l.(b := b2))
    case Assign(place, rhs) =>
      var (b1, rv) :- BuildRValue(env, l.b, rhs);
      var b2 :- Emit(b1, M.AssignTo(place, rv));
      Some(l.(b := b2))
    case ReturnS(None) =>
      var b1 :- TerminateWith(l.b, M.Return(None));
      var b2 :- SwitchTo(NewBlock(b1), |b1.blocks|);
      Some(l.(b := b2))
    case ReturnS(Some(e)) =>
      var (b1, o) :- BuildOperand(env, l.b, e);
      var b2 :- TerminateWith(b1, M.Return(Some(o)));
      var b3 :- SwitchTo(NewBlock(b2), |b2.blocks|);
      Some(l.(b := b3))
    case Break(scope) =>
      if scope !in l.ends then None
      else
        var b1 :- Goto(l.b, l.ends[scope]);
        Some(l.(b := b1))
    case Continue(scope) =>
      if scope !in l.begins then None
      else
        var b1 :- Goto(l.b, l.begins[scope]);
        Some(l.(b := b1))
    case ExprS(e) =>
      var (b1, rv) :- BuildRValue(env, l.b, e);
      var b2 :- SpillRValue(b1, rv, TypeOf(e));
      Some(l.(b := b2))
    case ErrorS => Some(l)
  }

  // ----- functions -----

  /** A function body: its locals in order, whether it returns a value, its statements. */
  datatype Function = Function(locals: seq<Ty>, isVoid: bool, root: seq<Stmt>)

  function LowerFunction(env: Env, f: Function): Option<M.Graph>
    requires AllTyped(f.root)
  {
    var l :- BuildStmts(env, Low(State([EMPTY_BLOCK], 0, {}, f.locals), map[], map[]), f.root);
    if Closed(l.b) then Finalize(l.b)
    else
      var b1 :- TerminateWith(l.b, if f.isVoid then M.Return(None) else M.Diverge);
      Finalize(b1)
  }
}
