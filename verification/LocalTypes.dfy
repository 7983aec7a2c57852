/** The locals and statements that the lowering makes are well typed when the source is. */
module LocalTypes {
  import opened Core
  import opened Patterns
  import DT = DecisionTree
  import MC = MatchCompiler
  import M = Mir
  import opened Thir
  import opened Builder
  import opened Lowering
  import opened TreeTypes

  /** The result types of functions, and the types of the locals that the source declares. */
  datatype Decls = Decls(env: Env, results: nat -> Ty, own: seq<Ty>)

  // ----- well-typed sources -----

  ghost predicate ExprTyped(d: Decls, e: Expr)
    decreases e, 0
  {
    match e
    case Const(_, _) => true
    case Use(p) => PlaceTyped(p, d.own)
    case Op(_, args, _) => ExprsTyped(d, args)
    case CallE(f, args, t) => t == d.results(f) && ExprsTyped(d, args)
  }

  ghost predicate ExprsTyped(d: Decls, es: seq<Expr>)
    decreases es, 1
  {
    forall i :: 0 <= i < |es| ==> ExprTyped(d, es[i])
  }

  /** Initialisers, assigned values and binders have the types of their locals and places. */
  ghost predicate SourceTyped(d: Decls, st: Stmt)
    decreases st, 0
  {
    match st
    case Body(stmts) => AllSourceTyped(d, stmts)
    case If(cond, thn, els) =>
      && SetupTyped(d, cond) && AllSourceTyped(d, thn) && (els.Else? ==> AllSourceTyped(d, els.stmts))
    case While(_, cond, body) => SetupTyped(d, cond) && AllSourceTyped(d, body)
    case Let(x, init) => x < |d.own| && d.own[x] == TypeOf(init) && ExprTyped(d, init)
    case Assign(p, rhs) => PlaceTyped(p, d.own) && p.ty == TypeOf(rhs) && ExprTyped(d, rhs)
    case ReturnS(v) => v.Some? ==> ExprTyped(d, v.value)
    case Match(scrut, arms) =>
      && SetupTyped(d, scrut)
      && forall i {:trigger arms[i]} :: 0 <= i < |arms| ==>
           PatOk(arms[i].pat, TypeOf(scrut.expr), BindersIn(d.own)) && AllSourceTyped(d, arms[i].body)
    case ExprS(e) => ExprTyped(d, e)
    case _ => true
  }

  ghost predicate SetupTyped(d: Decls, s: Setup)
    decreases s, 1
  {
    AllSourceTyped(d, s.stmts) && ExprTyped(d, s.expr)
  }

  ghost predicate AllSourceTyped(d: Decls, stmts: seq<Stmt>)
    decreases stmts, 1
  {
    forall i {:trigger stmts[i]} :: 0 <= i < |stmts| ==> SourceTyped(d, stmts[i])
  }

  // ----- well-typed graphs -----

  /**
   * An operand that is read: copied only if its type is copied, and a local of the source is moved
   * only if its type is not.
   */
  ghost predicate ReadTyped(d: Decls, o: M.Operand, locals: seq<Ty>) {
    match o
    case Constant(_, _) => true
    case Copy(p) => PlaceTyped(p, locals) && d.env.copies(p.ty)
    case Move(p) => PlaceTyped(p, locals) && (p.local < |d.own| ==> !d.env.copies(p.ty))
  }

  ghost predicate ReadsTyped(d: Decls, os: seq<M.Operand>, locals: seq<Ty>) {
    forall i :: 0 <= i < |os| ==> ReadTyped(d, os[i], locals)
  }

  ghost predicate RValueTyped(d: Decls, rv: M.RValue, locals: seq<Ty>) {
    match rv
    case UseOf(o) => ReadTyped(d, o, locals)
    case Pure(_, os, _) => ReadsTyped(d, os, locals)
    case Discriminant(p, t) => PlaceTyped(p, locals) && p.ty.EnumT? && TagTy(p.ty, d.env.target) == Some(t)
  }

  /** What is assigned has the type of the place it is assigned to. */
  ghost predicate StmtTyped(d: Decls, st: M.MirStmt, locals: seq<Ty>) {
    PlaceTyped(st.dest, locals) && RValueTyped(d, st.rvalue, locals) && st.dest.ty == M.RValueTy(st.rvalue)
  }

  /** A call stores its result in a temporary of the result type; a switch inspects an integer. */
  ghost predicate TerminatorTyped(d: Decls, t: M.Terminator, locals: seq<Ty>) {
    match t
    case Call(f, args, dest, _) =>
      ReadsTyped(d, args, locals) && |d.own| <= dest < |locals| && locals[dest] == d.results(f)
    case Return(Some(o)) => ReadTyped(d, o, locals)
    case Branch(cond, _, _) => ReadTyped(d, cond, locals)
    case Switch(o, _, _) => o.Move? && PlaceTyped(o.place, locals) && IntLike(o.place.ty)
    case _ => true
  }

  ghost predicate BlockTyped(d: Decls, b: M.Block, locals: seq<Ty>) {
    && (forall i :: 0 <= i < |b.stmts| ==> StmtTyped(d, b.stmts[i], locals))
    && TerminatorTyped(d, b.terminator, locals)
  }

  ghost predicate BlocksTyped(d: Decls, blocks: seq<M.Block>, locals: seq<Ty>) {
    forall i :: 0 <= i < |blocks| ==> BlockTyped(d, blocks[i], locals)
  }

  /** The source's locals come first, with their declared types, and every block is well typed. */
  ghost predicate StateTyped(d: Decls, b: State) {
    match b
    case State(blocks, _, _, locals) => d.own <= locals && BlocksTyped(d, blocks, locals)
  }

  /** Lowering goes from a well-typed state to another, and only adds locals. */
  ghost predicate Onward(d: Decls, b: State, b': State) {
    match b'
    case State(_, _, _, locals) => StateTyped(d, b') && b.locals <= locals
  }

  lemma OnwardTrans(d: Decls, b: State, b1: State, b2: State)
    requires Onward(d, b, b1) && Onward(d, b1, b2)
    ensures Onward(d, b, b2)
  {
  }

  // ----- more locals -----

  lemma PlaceGrows(p: Place, locals: seq<Ty>, more: seq<Ty>)
    requires PlaceTyped(p, locals) && locals <= more
    ensures PlaceTyped(p, more)
  {
    assert more[p.local] == locals[p.local];
  }

  lemma ReadGrows(d: Decls, o: M.Operand, locals: seq<Ty>, more: seq<Ty>)
    requires ReadTyped(d, o, locals) && locals <= more
    ensures ReadTyped(d, o, more)
  {
    if !o.Constant? {
      PlaceGrows(o.place, locals, more);
    }
  }

  lemma ReadsGrow(d: Decls, os: seq<M.Operand>, locals: seq<Ty>, more: seq<Ty>)
    requires ReadsTyped(d, os, locals) && locals <= more
    ensures ReadsTyped(d, os, more)
  {
    forall i | 0 <= i < |os| ensures ReadTyped(d, os[i], more) {
      ReadGrows(d, os[i], locals, more);
    }
  }

  lemma RValueGrows(d: Decls, rv: M.RValue, locals: seq<Ty>, more: seq<Ty>)
    requires RValueTyped(d, rv, locals) && locals <= more
    ensures RValueTyped(d, rv, more)
  {
    match rv
    case UseOf(o) => ReadGrows(d, o, locals, more);
    case Pure(_, os, _) => ReadsGrow(d, os, locals, more);
    case Discriminant(p, _) => PlaceGrows(p, locals, more);
  }

  lemma TerminatorGrows(d: Decls, t: M.Terminator, locals: seq<Ty>, more: seq<Ty>)
    requires TerminatorTyped(d, t, locals) && locals <= more
    ensures TerminatorTyped(d, t, more)
  {
    match t
    case Call(_, args, _, _) => ReadsGrow(d, args, locals, more);
    case Return(Some(o)) => ReadGrows(d, o, locals, more);
    case Branch(cond, _, _) => ReadGrows(d, cond, locals, more);
    case Switch(o, _, _) => PlaceGrows(o.place, locals, more);
    case _ =>
  }

  lemma BlockGrows(d: Decls, b: M.Block, locals: seq<Ty>, more: seq<Ty>)
    requires BlockTyped(d, b, locals) && locals <= more
    ensures BlockTyped(d, b, more)
  {
    forall i | 0 <= i < |b.stmts| ensures StmtTyped(d, b.stmts[i], more) {
      PlaceGrows(b.stmts[i].dest, locals, more);
      RValueGrows(d, b.stmts[i].rvalue, locals, more);
    }
    TerminatorGrows(d, b.terminator, locals, more);
  }

  // ----- the builder -----

  lemma NewLocalTyped(d: Decls, b: State, ty: Ty)
    requires StateTyped(d, b)
    ensures Onward(d, b, NewLocal(b, ty)) && PlaceTyped(Place(|b.locals|, [], ty), NewLocal(b, ty).locals)
    ensures |d.own| <= |b.locals|
  {
    var more := b.locals + [ty];
    forall i | 0 <= i < |b.blocks| ensures BlockTyped(d, b.blocks[i], more) {
      BlockGrows(d, b.blocks[i], b.locals, more);
    }
  }

  lemma NewBlockTyped(d: Decls, b: State)
    requires StateTyped(d, b)
    ensures Onward(d, b, NewBlock(b))
  {
  }

  lemma EmitTyped(d: Decls, b: State, st: M.MirStmt)
    requires StateTyped(d, b) && Emit(b, st).Some? && StmtTyped(d, st, b.locals)
    ensures Onward(d, b, Emit(b, st).value) && Emit(b, st).value.locals == b.locals
  {
    var here := b.blocks[b.current];
    var b' := Emit(b, st).value;
    assert BlockTyped(d, here.(stmts := here.stmts + [st]), b.locals);
    assert forall i :: 0 <= i < |b.blocks| && i != b.current ==> b'.blocks[i] == b.blocks[i];
  }

  lemma TerminateTyped(d: Decls, b: State, t: M.Terminator)
    requires StateTyped(d, b) && TerminateWith(b, t).Some? && TerminatorTyped(d, t, b.locals)
    ensures Onward(d, b, TerminateWith(b, t).value) && TerminateWith(b, t).value.locals == b.locals
  {
    var here := b.blocks[b.current];
    var b' := TerminateWith(b, t).value;
    assert BlockTyped(d, here.(terminator := t), b.locals);
    assert forall i :: 0 <= i < |b.blocks| && i != b.current ==> b'.blocks[i] == b.blocks[i];
  }

  lemma SwitchToTyped(d: Decls, b: State, block: nat)
    requires StateTyped(d, b) && SwitchTo(b, block).Some?
    ensures Onward(d, b, SwitchTo(b, block).value) && SwitchTo(b, block).value.locals == b.locals
  {
  }

  lemma {:induction false} NewBlocksTyped(d: Decls, b: State, n: nat)
    requires StateTyped(d, b)
    ensures Onward(d, b, NewBlocks(b, n))
  {
    if n > 0 {
      NewBlocksTyped(d, b, n - 1);
      NewBlockTyped(d, NewBlocks(b, n - 1));
    }
  }

  // ----- expressions -----

  lemma MoveOrCopyTyped(d: Decls, p: Place, locals: seq<Ty>)
    requires PlaceTyped(p, locals)
    ensures ReadTyped(d, MoveOrCopy(d.env, p), locals)
  {
  }

  /** The local for the result of a call. */
  ghost predicate TemporaryOf(d: Decls, local: nat, ty: Ty, locals: seq<Ty>) {
    |d.own| <= local < |locals| && locals[local] == ty
  }

  lemma TemporaryRead(d: Decls, local: nat, ty: Ty, locals: seq<Ty>)
    requires TemporaryOf(d, local, ty, locals)
    ensures PlaceTyped(Place(local, [], ty), locals) && ReadTyped(d, M.Move(Place(local, [], ty)), locals)
    ensures ReadTyped(d, MoveOrCopy(d.env, Place(local, [], ty)), locals)
  {
  }

  lemma CallTyped(d: Decls, b: State, f: nat, args: seq<M.Operand>)
    requires StateTyped(d, b) && ReadsTyped(d, args, b.locals) && BuildCall(b, f, args, d.results(f)).Some?
    ensures var (b', local) := BuildCall(b, f, args, d.results(f)).value;
            Onward(d, b, b') && TemporaryOf(d, local, d.results(f), b'.locals)
  {
    var (next, local, ty) := (|b.blocks|, |b.locals|, d.results(f));
    NewBlockTyped(d, b);
    NewLocalTyped(d, NewBlock(b), ty);
    var b0 := NewLocal(NewBlock(b), ty);
    ReadsGrow(d, args, b.locals, b0.locals);
    TerminateTyped(d, b0, M.Call(f, args, local, next));
    var b1 := TerminateWith(b0, M.Call(f, args, local, next)).value;
    SwitchToTyped(d, b1, next);
    if ty == NeverT {
      var b2 := SwitchTo(b1, next).value;
      TerminateTyped(d, b2, M.Diverge);
      NewBlockTyped(d, TerminateWith(b2, M.Diverge).value);
    }
  }

  ghost predicate GivesRValue(d: Decls, b: State, e: Expr, r: Option<(State, M.RValue)>) {
    match r
    case None => true
    case Some((b', rv)) => Onward(d, b, b') && RValueTyped(d, rv, b'.locals) && M.RValueTy(rv) == TypeOf(e)
  }

  ghost predicate GivesOperand(d: Decls, b: State, e: Expr, r: Option<(State, M.Operand)>) {
    match r
    case None => true
    case Some((b', o)) => Onward(d, b, b') && ReadTyped(d, o, b'.locals) && M.OperandTy(o) == TypeOf(e)
  }

  ghost predicate GivesOperands(d: Decls, b: State, r: Option<(State, seq<M.Operand>)>) {
    match r
    case None => true
    case Some((b', os)) => Onward(d, b, b') && ReadsTyped(d, os, b'.locals)
  }

  lemma OnwardRefl(d: Decls, b: State)
    requires StateTyped(d, b)
    ensures Onward(d, b, b)
  {
  }

  lemma {:induction false} RValueBuilt(d: Decls, b: State, e: Expr)
    requires StateTyped(d, b) && ExprTyped(d, e)
    ensures GivesRValue(d, b, e, BuildRValue(d.env, b, e))
    decreases e, 0
  {
    OnwardRefl(d, b);
    match e
    case Const(_, _) =>
    case Use(p) =>
      PlaceGrows(p, d.own, b.locals);
      MoveOrCopyTyped(d, p, b.locals);
    case Op(_, args, _) => OperandsBuilt(d, b, args);
    case CallE(f, args, t) =>
      OperandsBuilt(d, b, args);
      if BuildRValue(d.env, b, e).Some? {
        var (b1, ops) := BuildOperands(d.env, b, args).value;
        CallTyped(d, b1, f, ops);
        var (b2, local) := BuildCall(b1, f, ops, t).value;
        OnwardTrans(d, b, b1, b2);
        TemporaryRead(d, local, t, b2.locals);
      }
  }

  lemma {:induction false} OperandBuilt(d: Decls, b: State, e: Expr)
    requires StateTyped(d, b) && ExprTyped(d, e)
    ensures GivesOperand(d, b, e, BuildOperand(d.env, b, e))
    decreases e, 1
  {
    OnwardRefl(d, b);
    match e
    case Const(_, _) =>
    case Use(p) =>
      PlaceGrows(p, d.own, b.locals);
      MoveOrCopyTyped(d, p, b.locals);
    case Op(_, _, t) =>
      RValueBuilt(d, b, e);
      if BuildOperand(d.env, b, e).Some? {
        var (b1, rv) := BuildRValue(d.env, b, e).value;
        TemporaryAssigned(d, b1, rv);
        OnwardTrans(d, b, b1, Emit(NewLocal(b1, t), M.AssignTo(Place(|b1.locals|, [], t), rv)).value);
      }
    case CallE(f, args, t) =>
      OperandsBuilt(d, b, args);
      if BuildOperand(d.env, b, e).Some? {
        var (b1, ops) := BuildOperands(d.env, b, args).value;
        CallTyped(d, b1, f, ops);
        var (b2, local) := BuildCall(b1, f, ops, t).value;
        OnwardTrans(d, b, b1, b2);
        TemporaryRead(d, local, t, b2.locals);
      }
  }

  /** A value is stored in a new local of its type. */
  lemma TemporaryAssigned(d: Decls, b: State, rv: M.RValue)
    requires StateTyped(d, b) && RValueTyped(d, rv, b.locals)
    requires Emit(NewLocal(b, M.RValueTy(rv)), M.AssignTo(Place(|b.locals|, [], M.RValueTy(rv)), rv)).Some?
    ensures var b' := Emit(NewLocal(b, M.RValueTy(rv)), M.AssignTo(Place(|b.locals|, [], M.RValueTy(rv)), rv)).value;
            Onward(d, b, b') && TemporaryOf(d, |b.locals|, M.RValueTy(rv), b'.locals)
            && PlaceTyped(Place(|b.locals|, [], M.RValueTy(rv)), b'.locals)
            && ReadTyped(d, M.Move(Place(|b.locals|, [], M.RValueTy(rv))), b'.locals)
  {
    var ty := M.RValueTy(rv);
    NewLocalTyped(d, b, ty);
    var b1 := NewLocal(b, ty);
    RValueGrows(d, rv, b.locals, b1.locals);
    EmitTyped(d, b1, M.AssignTo(Place(|b.locals|, [], ty), rv));
    TemporaryRead(d, |b.locals|, ty, b1.locals);
    OnwardTrans(d, b, b1, Emit(b1, M.AssignTo(Place(|b.locals|, [], ty), rv)).value);
  }

  lemma {:induction false} OperandsBuilt(d: Decls, b: State, es: seq<Expr>)
    requires StateTyped(d, b) && ExprsTyped(d, es)
    ensures GivesOperands(d, b, BuildOperands(d.env, b, es))
    decreases es, 2
  {
    OnwardRefl(d, b);
    if es != [] {
      OperandBuilt(d, b, es[0]);
      if BuildOperand(d.env, b, es[0]).Some? {
        var (b1, o) := BuildOperand(d.env, b, es[0]).value;
        OperandsBuilt(d, b1, es[1..]);
        if BuildOperands(d.env, b1, es[1..]).Some? {
          var (b2, os) := BuildOperands(d.env, b1, es[1..]).value;
          OnwardTrans(d, b, b1, b2);
          ReadGrows(d, o, b1.locals, b2.locals);
        }
      }
    }
  }

  lemma RValueSpilled(d: Decls, b: State, rv: M.RValue)
    requires StateTyped(d, b) && RValueTyped(d, rv, b.locals) && SpillRValue(b, rv, M.RValueTy(rv)).Some?
    ensures Onward(d, b, SpillRValue(b, rv, M.RValueTy(rv)).value)
  {
    OnwardRefl(d, b);
    if !(rv.UseOf? && (rv.operand.Constant? || rv.operand.place.projs == [])) {
      TemporaryAssigned(d, b, rv);
    }
  }

  lemma OperandSpilled(d: Decls, b: State, o: M.Operand)
    requires StateTyped(d, b) && ReadTyped(d, o, b.locals) && SpillOperand(b, o).Some?
    ensures var (b', place) := SpillOperand(b, o).value; Onward(d, b, b') && PlaceTyped(place, b'.locals)
  {
    OnwardRefl(d, b);
    if !o.Move? {
      TemporaryAssigned(d, b, M.UseOf(o));
    }
  }

  // ----- decision trees -----

  lemma {:induction false} BindingsEmitted(d: Decls, b: State, bs: seq<DT.Binding>, base: seq<Ty>)
    requires StateTyped(d, b) && base <= b.locals && BindingsTyped(bs, d.own, base)
    ensures EmitBindings(d.env, b, bs).Some? ==> Onward(d, b, EmitBindings(d.env, b, bs).value)
    decreases |bs|
  {
    OnwardRefl(d, b);
    if bs != [] && EmitBindings(d.env, b, bs).Some? {
      var dest := PlaceOfLocal(b, bs[0].local).value;
      var st := M.AssignTo(dest, M.UseOf(MoveOrCopy(d.env, bs[0].place)));
      assert BindingTyped(bs[0], d.own, base);
      PlaceGrows(bs[0].place, base, b.locals);
      MoveOrCopyTyped(d, bs[0].place, b.locals);
      EmitTyped(d, b, st);
      BindingsEmitted(d, Emit(b, st).value, bs[1..], base);
      OnwardTrans(d, b, Emit(b, st).value, EmitBindings(d.env, b, bs).value);
    }
  }

  lemma TagIsInt(t: Ty, target: IntWidth)
    requires TagTy(t, target).Some?
    ensures TagTy(t, target).value.IntT?
  {
  }

  ghost predicate TreeReady(d: Decls, b: State, t: DT.Tree, base: seq<Ty>) {
    StateTyped(d, b) && base <= b.locals && TreeTyped(t, d.own, base)
  }

  /** A result, if there is one, goes on from the state. */
  ghost predicate GoesOnward(d: Decls, b: State, r: Option<State>) {
    match r
    case None => true
    case Some(b') => Onward(d, b, b')
  }

  lemma {:induction false} TreeEmitted(d: Decls, b: State, t: DT.Tree, bbs: seq<nat>, diverge: nat, base: seq<Ty>)
    requires TreeReady(d, b, t, base)
    ensures GoesOnward(d, b, LowerTree(d.env, b, t, bbs, diverge))
    decreases t, 1
  {
    if LowerTree(d.env, b, t, bbs, diverge).Some? {
      match t
      case Leaf(branch, bs) =>
        BindingsEmitted(d, b, bs, base);
        TerminateTyped(d, EmitBindings(d.env, b, bs).value, M.Goto(bbs[branch]));
      case Fail =>
        OnwardRefl(d, b);
        if !Closed(b) {
          TerminateTyped(d, b, M.Diverge);
        }
      case Switch(place, _, _) =>
        PlaceGrows(place, base, b.locals);
        if place.ty.EnumT? {
          var tagTy := TagTy(place.ty, d.env.target).value;
          var b1 := TagRead(d, b, place);
          TagIsInt(place.ty, d.env.target);
          SwitchEmitted(d, b1, M.Move(Place(|b.locals|, [], tagTy)), t, bbs, diverge, base);
          OnwardTrans(d, b, b1, LowerTree(d.env, b, t, bbs, diverge).value);
        } else {
          SwitchEmitted(d, b, M.Move(place), t, bbs, diverge, base);
        }
    }
  }

  /** The tag is read into a new integer. */
  lemma TagRead(d: Decls, b: State, place: Place) returns (b1: State)
    requires StateTyped(d, b) && PlaceTyped(place, b.locals) && place.ty.EnumT?
    requires TagTy(place.ty, d.env.target).Some?
    requires var tagTy := TagTy(place.ty, d.env.target).value;
             Emit(NewLocal(b, tagTy), M.AssignTo(Place(|b.locals|, [], tagTy), M.Discriminant(place, tagTy))).Some?
    ensures var tagTy := TagTy(place.ty, d.env.target).value;
            var tag := Place(|b.locals|, [], tagTy);
            && Emit(NewLocal(b, tagTy), M.AssignTo(tag, M.Discriminant(place, tagTy))) == Some(b1)
            && Onward(d, b, b1) && PlaceTyped(tag, b1.locals)
  {
    var tagTy := TagTy(place.ty, d.env.target).value;
    TemporaryAssigned(d, b, M.Discriminant(place, tagTy));
    b1 := Emit(NewLocal(b, tagTy), M.AssignTo(Place(|b.locals|, [], tagTy), M.Discriminant(place, tagTy))).value;
  }

  ghost predicate Inspects(o: M.Operand, locals: seq<Ty>) {
    o.Move? && PlaceTyped(o.place, locals) && IntLike(o.place.ty)
  }

  lemma {:induction false} SwitchEmitted(d: Decls, b: State, o: M.Operand, t: DT.Tree, bbs: seq<nat>, diverge: nat,
                                         base: seq<Ty>)
    requires t.Switch? && TreeReady(d, b, t, base) && Inspects(o, b.locals)
    ensures GoesOnward(d, b, LowerSwitch(d.env, b, o, t, bbs, diverge))
    decreases t, 0
  {
    var onEnum := t.place.ty.EnumT?;
    CasesEmitted(d, b, t.cases, bbs, diverge, onEnum, base);
    if LowerSwitch(d.env, b, o, t, bbs, diverge).Some? {
      var (b1, branches) := LowerCases(d.env, b, t.cases, bbs, diverge, onEnum).value;
      match t.default
      case None => SwitchClosed(d, b, b1, o, M.Switch(o, branches, diverge));
      case Some(tree) =>
        NewBlockTyped(d, b1);
        SwitchToTyped(d, NewBlock(b1), |b1.blocks|);
        var b2 := SwitchTo(NewBlock(b1), |b1.blocks|).value;
        TreeEmitted(d, b2, tree, bbs, diverge, base);
        var b3 := LowerTree(d.env, b2, tree, bbs, diverge).value;
        OnwardTrans(d, b, b1, b3);
        SwitchClosed(d, b, b3, o, M.Switch(o, branches, |b1.blocks|));
    }
  }

  /** Back in the block it started in, the switch is written. */
  lemma SwitchClosed(d: Decls, b: State, b1: State, o: M.Operand, t: M.Terminator)
    requires Onward(d, b, b1) && Inspects(o, b.locals) && t.Switch? && t.discriminant == o
    requires SwitchTo(b1, b.current).Some? && TerminateWith(SwitchTo(b1, b.current).value, t).Some?
    ensures Onward(d, b, TerminateWith(SwitchTo(b1, b.current).value, t).value)
  {
    SwitchToTyped(d, b1, b.current);
    PlaceGrows(o.place, b.locals, b1.locals);
    TerminateTyped(d, SwitchTo(b1, b.current).value, t);
  }

  lemma {:induction false} CasesEmitted(d: Decls, b: State, cases: seq<DT.Case>, bbs: seq<nat>, diverge: nat,
                                        onEnum: bool, base: seq<Ty>)
    requires StateTyped(d, b) && base <= b.locals
    requires forall i :: 0 <= i < |cases| ==> TreeTyped(cases[i].tree, d.own, base)
    ensures LowerCases(d.env, b, cases, bbs, diverge, onEnum).Some? ==>
              Onward(d, b, LowerCases(d.env, b, cases, bbs, diverge, onEnum).value.0)
    decreases cases, 0
  {
    OnwardRefl(d, b);
    if cases != [] && LowerCases(d.env, b, cases, bbs, diverge, onEnum).Some? {
      NewBlockTyped(d, b);
      SwitchToTyped(d, NewBlock(b), |b.blocks|);
      var b1 := SwitchTo(NewBlock(b), |b.blocks|).value;
      assert cases[0].tree < cases[0];
      TreeEmitted(d, b1, cases[0].tree, bbs, diverge, base);
      var b2 := LowerTree(d.env, b1, cases[0].tree, bbs, diverge).value;
      OnwardTrans(d, b, b1, b2);
      CasesEmitted(d, b2, cases[1..], bbs, diverge, onEnum, base);
      OnwardTrans(d, b, b2, LowerCases(d.env, b2, cases[1..], bbs, diverge, onEnum).value.0);
    }
  }

  // ----- statements -----

  ghost predicate LowOnward(d: Decls, b: State, r: Option<Low>) {
    match r
    case None => true
    case Some(l) => Onward(d, b, l.b)
  }

  lemma {:induction false} StmtsBuilt(d: Decls, l: Low, stmts: seq<Stmt>)
    requires AllTyped(stmts) && AllSourceTyped(d, stmts) && StateTyped(d, l.b)
    ensures LowOnward(d, l.b, BuildStmts(d.env, l, stmts))
    decreases stmts, 1
  {
    OnwardRefl(d, l.b);
    if stmts != [] {
      assert Typed(stmts[0]) && SourceTyped(d, stmts[0]);
      StmtBuilt(d, l, stmts[0]);
      if BuildStmt(d.env, l, stmts[0]).Some? {
        var l1 := BuildStmt(d.env, l, stmts[0]).value;
        StmtsBuilt(d, l1, stmts[1..]);
        if BuildStmts(d.env, l1, stmts[1..]).Some? {
          OnwardTrans(d, l.b, l1.b, BuildStmts(d.env, l1, stmts[1..]).value.b);
        }
      }
    }
  }

  ghost predicate SetupGives(d: Decls, b: State, r: Option<(Low, M.Operand)>) {
    match r
    case None => true
    case Some((l', o)) => Onward(d, b, l'.b) && ReadTyped(d, o, l'.b.locals)
  }

  lemma {:induction false} SetupBuilt(d: Decls, l: Low, s: Setup)
    requires AllTyped(s.stmts) && SetupTyped(d, s) && StateTyped(d, l.b)
    ensures SetupGives(d, l.b, BuildSetup(d.env, l, s))
    decreases s, 1
  {
    StmtsBuilt(d, l, s.stmts);
    if BuildStmts(d.env, l, s.stmts).Some? {
      var l1 := BuildStmts(d.env, l, s.stmts).value;
      OperandBuilt(d, l1.b, s.expr);
      if BuildOperand(d.env, l1.b, s.expr).Some? {
        OnwardTrans(d, l.b, l1.b, BuildOperand(d.env, l1.b, s.expr).value.0);
      }
    }
  }

  lemma {:induction false} IntoBuilt(d: Decls, l: Low, start: nat, stmts: seq<Stmt>, next: nat)
    requires AllTyped(stmts) && AllSourceTyped(d, stmts) && StateTyped(d, l.b)
    ensures LowOnward(d, l.b, BuildInto(d.env, l, start, stmts, next))
    decreases stmts, 2
  {
    if BuildInto(d.env, l, start, stmts, next).Some? {
      SwitchToTyped(d, l.b, start);
      var b := SwitchTo(l.b, start).value;
      StmtsBuilt(d, l.(b := b), stmts);
      var l1 := BuildStmts(d.env, l.(b := b), stmts).value;
      OnwardTrans(d, l.b, b, l1.b);
      if !Closed(l1.b) {
        TerminateTyped(d, l1.b, M.Goto(next));
        OnwardTrans(d, l.b, l1.b, Goto(l1.b, next).value);
      }
    }
  }

  lemma {:induction false} ArmsBuilt(d: Decls, l: Low, arms: seq<Arm>, bbs: seq<nat>, merge: nat)
    requires |bbs| == |arms| && StateTyped(d, l.b)
    requires forall i {:trigger arms[i]} :: 0 <= i < |arms| ==>
               AllTyped(arms[i].body) && AllSourceTyped(d, arms[i].body)
    ensures LowOnward(d, l.b, BuildArms(d.env, l, arms, bbs, merge))
    decreases arms, 1
  {
    OnwardRefl(d, l.b);
    if arms != [] {
      IntoBuilt(d, l, bbs[0], arms[0].body, merge);
      if BuildInto(d.env, l, bbs[0], arms[0].body, merge).Some? {
        var l1 := BuildInto(d.env, l, bbs[0], arms[0].body, merge).value;
        ArmsBuilt(d, l1, arms[1..], bbs[1..], merge);
        if BuildArms(d.env, l1, arms[1..], bbs[1..], merge).Some? {
          OnwardTrans(d, l.b, l1.b, BuildArms(d.env, l1, arms[1..], bbs[1..], merge).value.b);
        }
      }
    }
  }

  /** The condition of an `if` or `while` ends the current block. */
  lemma BranchTyped(d: Decls, b: State, n: nat, cond: M.Operand, thn: nat, els: nat)
    requires StateTyped(d, b) && ReadTyped(d, cond, b.locals)
    requires TerminateWith(NewBlocks(b, n), M.Branch(cond, thn, els)).Some?
    ensures Onward(d, b, TerminateWith(NewBlocks(b, n), M.Branch(cond, thn, els)).value)
  {
    NewBlocksTyped(d, b, n);
    TerminateTyped(d, NewBlocks(b, n), M.Branch(cond, thn, els));
    OnwardTrans(d, b, NewBlocks(b, n), TerminateWith(NewBlocks(b, n), M.Branch(cond, thn, els)).value);
  }

  lemma FewBlocks(b: State)
    ensures NewBlocks(b, 0) == b && NewBlocks(b, 2) == NewBlock(NewBlock(b))
    ensures NewBlocks(b, 3) == NewBlock(NewBlock(NewBlock(b)))
  {
    assert NewBlocks(b, 1) == NewBlock(b);
  }

  lemma {:induction false} IfBuilt(d: Decls, l: Low, st: Stmt)
    requires st.If? && Typed(st) && SourceTyped(d, st) && StateTyped(d, l.b)
    ensures LowOnward(d, l.b, BuildIf(d.env, l, st))
    decreases st, 1
  {
    if BuildIf(d.env, l, st).Some? {
      SetupBuilt(d, l, st.cond);
      var (l1, o) := BuildSetup(d.env, l, st.cond).value;
      var thenBB := |l1.b.blocks|;
      var mergeBB := thenBB + 1;
      FewBlocks(l1.b);
      match st.els
      case NoElse =>
        BranchTyped(d, l1.b, 2, o, thenBB, mergeBB);
        var b3 := TerminateWith(NewBlocks(l1.b, 2), M.Branch(o, thenBB, mergeBB)).value;
        IntoBuilt(d, l1.(b := b3), thenBB, st.thn, mergeBB);
        var l5 := BuildInto(d.env, l1.(b := b3), thenBB, st.thn, mergeBB).value;
        SwitchToTyped(d, l5.b, mergeBB);
      case Else(stmts) => ElseBuilt(d, l1, o, st);
    }
  }

  lemma {:induction false} ElseBuilt(d: Decls, l1: Low, o: M.Operand, st: Stmt)
    requires st.If? && st.els.Else? && Typed(st) && SourceTyped(d, st)
    requires StateTyped(d, l1.b) && ReadTyped(d, o, l1.b.locals)
    requires var thenBB := |l1.b.blocks|;
             TerminateWith(NewBlocks(l1.b, 3), M.Branch(o, thenBB, thenBB + 2)).Some?
    ensures var thenBB := |l1.b.blocks|;
            var b3 := TerminateWith(NewBlocks(l1.b, 3), M.Branch(o, thenBB, thenBB + 2)).value;
            var r4 := BuildInto(d.env, l1.(b := b3), thenBB + 2, st.els.stmts, thenBB + 1);
            && (r4.Some? ==> LowOnward(d, l1.b, BuildInto(d.env, r4.value, thenBB, st.thn, thenBB + 1)))
    decreases st, 0
  {
    var thenBB := |l1.b.blocks|;
    BranchTyped(d, l1.b, 3, o, thenBB, thenBB + 2);
    var b3 := TerminateWith(NewBlocks(l1.b, 3), M.Branch(o, thenBB, thenBB + 2)).value;
    IntoBuilt(d, l1.(b := b3), thenBB + 2, st.els.stmts, thenBB + 1);
    var r4 := BuildInto(d.env, l1.(b := b3), thenBB + 2, st.els.stmts, thenBB + 1);
    if r4.Some? {
      OnwardTrans(d, l1.b, b3, r4.value.b);
      IntoBuilt(d, r4.value, thenBB, st.thn, thenBB + 1);
    }
  }

  lemma {:induction false} WhileBuilt(d: Decls, l: Low, st: Stmt)
    requires st.While? && Typed(st) && SourceTyped(d, st) && StateTyped(d, l.b)
    ensures LowOnward(d, l.b, BuildWhile(d.env, l, st))
    decreases st, 1
  {
    if BuildWhile(d.env, l, st).Some? {
      var head := |l.b.blocks|;
      var b2 := LoopHeadTyped(d, l.b);
      var l2 := Low(b2, l.begins[st.scope := head], l.ends[st.scope := head + 2]);
      SetupBuilt(d, l2, st.cond);
      var (l3, o) := BuildSetup(d.env, l2, st.cond).value;
      OnwardTrans(d, l.b, b2, l3.b);
      LoopBuilt(d, l3, o, st, head);
    }
  }

  /** The body of a loop, from the end of its condition. */
  lemma {:induction false} LoopBuilt(d: Decls, l3: Low, o: M.Operand, st: Stmt, head: nat)
    requires st.While? && Typed(st) && SourceTyped(d, st) && StateTyped(d, l3.b) && ReadTyped(d, o, l3.b.locals)
    requires TerminateWith(l3.b, M.Branch(o, head + 1, head + 2)).Some?
    ensures var b4 := TerminateWith(l3.b, M.Branch(o, head + 1, head + 2)).value;
            var r5 := BuildInto(d.env, l3.(b := b4), head + 1, st.body, head);
            r5.Some? ==> GoesOnward(d, l3.b, SwitchTo(r5.value.b, head + 2))
    decreases st, 0
  {
    FewBlocks(l3.b);
    BranchTyped(d, l3.b, 0, o, head + 1, head + 2);
    var b4 := TerminateWith(l3.b, M.Branch(o, head + 1, head + 2)).value;
    IntoBuilt(d, l3.(b := b4), head + 1, st.body, head);
    var r5 := BuildInto(d.env, l3.(b := b4), head + 1, st.body, head);
    if r5.Some? && SwitchTo(r5.value.b, head + 2).Some? {
      OnwardTrans(d, l3.b, b4, r5.value.b);
      SwitchToTyped(d, r5.value.b, head + 2);
    }
  }

  lemma LoopHeadTyped(d: Decls, b: State) returns (b2: State)
    requires StateTyped(d, b)
    requires Goto(NewBlock(NewBlock(NewBlock(b))), |b.blocks|).Some?
    requires SwitchTo(Goto(NewBlock(NewBlock(NewBlock(b))), |b.blocks|).value, |b.blocks|).Some?
    ensures SwitchTo(Goto(NewBlock(NewBlock(NewBlock(b))), |b.blocks|).value, |b.blocks|) == Some(b2)
    ensures Onward(d, b, b2)
  {
    FewBlocks(b);
    NewBlocksTyped(d, b, 3);
    TerminateTyped(d, NewBlocks(b, 3), M.Goto(|b.blocks|));
    var b1 := Goto(NewBlocks(b, 3), |b.blocks|).value;
    SwitchToTyped(d, b1, |b.blocks|);
    b2 := SwitchTo(b1, |b.blocks|).value;
  }

  lemma {:induction false} DecisionBuilt(d: Decls, l: Low, tree: DT.Tree, arms: seq<Arm>, merge: nat)
    requires StateTyped(d, l.b) && TreeTyped(tree, d.own, l.b.locals)
    requires forall i {:trigger arms[i]} :: 0 <= i < |arms| ==>
               AllTyped(arms[i].body) && AllSourceTyped(d, arms[i].body)
    ensures LowOnward(d, l.b, LowerDecisionTree(d.env, l, tree, arms, merge))
    decreases arms, 3
  {
    var (bbs, divergeBB) := (BlockIds(|l.b.blocks|, |arms|), |l.b.blocks| + |arms|);
    var tests := LowerTree(d.env, NewBlock(NewBlocks(l.b, |arms|)), tree, bbs, divergeBB);
    TestsBuilt(d, l.b, tree, |arms|);
    if tests.Some? {
      BodiesBuilt(d, l.(b := tests.value), arms, bbs, divergeBB, merge);
      LowOnwardTrans(d, l.b, tests.value,
                     AfterArms(BuildArms(d.env, l.(b := tests.value), arms, bbs, merge), divergeBB, merge));
    }
  }

  lemma LowOnwardTrans(d: Decls, b: State, b1: State, r: Option<Low>)
    requires Onward(d, b, b1) && LowOnward(d, b1, r)
    ensures LowOnward(d, b, r)
  {
  }

  /** The block for no match is closed and the merge block entered. */
  ghost function AfterArms(r: Option<Low>, divergeBB: nat, merge: nat): Option<Low> {
    var l :- r;
    var b1 :- SwitchTo(l.b, divergeBB);
    var b2 :- TerminateWith(b1, M.Diverge);
    var b3 :- SwitchTo(b2, merge);
    Some(l.(b := b3))
  }

  /** The bodies of the branches, and what stands where nothing matches. */
  lemma {:induction false} BodiesBuilt(d: Decls, l2: Low, arms: seq<Arm>, bbs: seq<nat>, divergeBB: nat, merge: nat)
    requires |bbs| == |arms| && StateTyped(d, l2.b)
    requires forall i {:trigger arms[i]} :: 0 <= i < |arms| ==>
               AllTyped(arms[i].body) && AllSourceTyped(d, arms[i].body)
    ensures LowOnward(d, l2.b, AfterArms(BuildArms(d.env, l2, arms, bbs, merge), divergeBB, merge))
    decreases arms, 2
  {
    ArmsBuilt(d, l2, arms, bbs, merge);
    TreeEnded(d, l2.b, BuildArms(d.env, l2, arms, bbs, merge), divergeBB, merge);
  }

  /** The blocks of the branches and the tests that lead to them. */
  lemma TestsBuilt(d: Decls, b: State, tree: DT.Tree, n: nat)
    requires StateTyped(d, b) && TreeTyped(tree, d.own, b.locals)
    ensures GoesOnward(d, b, LowerTree(d.env, NewBlock(NewBlocks(b, n)), tree, BlockIds(|b.blocks|, n), |b.blocks| + n))
  {
    var b1 := NewBlock(NewBlocks(b, n));
    NewBlocksTyped(d, b, n);
    NewBlockTyped(d, NewBlocks(b, n));
    TreeEmitted(d, b1, tree, BlockIds(|b.blocks|, n), |b.blocks| + n, b.locals);
    var r := LowerTree(d.env, b1, tree, BlockIds(|b.blocks|, n), |b.blocks| + n);
    if r.Some? {
      OnwardTrans(d, b, b1, r.value);
    }
  }

  lemma TreeEnded(d: Decls, b: State, r: Option<Low>, divergeBB: nat, merge: nat)
    requires LowOnward(d, b, r)
    ensures LowOnward(d, b, AfterArms(r, divergeBB, merge))
  {
    if AfterArms(r, divergeBB, merge).Some? {
      var b0 := r.value.b;
      SwitchToTyped(d, b0, divergeBB);
      TerminateTyped(d, SwitchTo(b0, divergeBB).value, M.Diverge);
    }
  }

  lemma MatchTreeTyped(d: Decls, place: Place, arms: seq<Arm>, locals: seq<Ty>)
    requires ArmsTyped(arms, place.ty) && PlaceTyped(place, locals)
    requires forall i {:trigger arms[i]} :: 0 <= i < |arms| ==> PatOk(arms[i].pat, place.ty, BindersIn(d.own))
    ensures DT.MatrixOk(MatchMatrix(place, arms))
    ensures TreeTyped(MC.Compile(MatchMatrix(place, arms)), d.own, locals)
  {
    var m := MatchMatrix(place, arms);
    MatchMatrixOk(place, arms);
    forall r | 0 <= r < |m.rows| ensures DT.RowOk(m.rows[r], m.cols, BindersIn(d.own)) {
      assert PatOk(arms[r].pat, place.ty, BindersIn(d.own));
    }
    CompileTyped(m, d.own, locals);
  }

  lemma {:induction false} MatchBuilt(d: Decls, l: Low, st: Stmt)
    requires st.Match? && Typed(st) && SourceTyped(d, st) && StateTyped(d, l.b)
    ensures LowOnward(d, l.b, BuildMatch(d.env, l, st))
    decreases st, 1
  {
    if BuildMatch(d.env, l, st).Some? {
      SetupBuilt(d, l, st.scrut);
      var (l1, o) := BuildSetup(d.env, l, st.scrut).value;
      OperandSpilled(d, l1.b, o);
      var (b2, place) := SpillOperand(l1.b, o).value;
      MatchTreeTyped(d, place, st.arms, b2.locals);
      var tree := MC.Compile(MatchMatrix(place, st.arms));
      NewBlockTyped(d, b2);
      DecisionBuilt(d, l1.(b := NewBlock(b2)), tree, st.arms, |b2.blocks|);
      var l3 := LowerDecisionTree(d.env, l1.(b := NewBlock(b2)), tree, st.arms, |b2.blocks|).value;
      OnwardTrans(d, l.b, l1.b, b2);
      OnwardTrans(d, l.b, b2, l3.b);
      SwitchToTyped(d, l3.b, |b2.blocks|);
    }
  }

  /** A value is assigned to a place of its own type. */
  lemma StoreBuilt(d: Decls, b: State, dest: Place, e: Expr)
    requires StateTyped(d, b) && PlaceTyped(dest, b.locals) && dest.ty == TypeOf(e) && ExprTyped(d, e)
    ensures BuildRValue(d.env, b, e).Some? ==>
              var (b1, rv) := BuildRValue(d.env, b, e).value; GoesOnward(d, b, Emit(b1, M.AssignTo(dest, rv)))
  {
    RValueBuilt(d, b, e);
    if BuildRValue(d.env, b, e).Some? {
      var (b1, rv) := BuildRValue(d.env, b, e).value;
      PlaceGrows(dest, b.locals, b1.locals);
      if Emit(b1, M.AssignTo(dest, rv)).Some? {
        EmitTyped(d, b1, M.AssignTo(dest, rv));
      }
    }
  }

  /** A return ends the current block, and what follows goes to a dead one. */
  lemma ReturnTyped(d: Decls, b: State, value: Option<M.Operand>)
    requires StateTyped(d, b) && (value.Some? ==> ReadTyped(d, value.value, b.locals))
    requires TerminateWith(b, M.Return(value)).Some?
    ensures var b1 := TerminateWith(b, M.Return(value)).value;
            GoesOnward(d, b, SwitchTo(NewBlock(b1), |b1.blocks|))
  {
    TerminateTyped(d, b, M.Return(value));
    NewBlockTyped(d, TerminateWith(b, M.Return(value)).value);
  }

  lemma GotoTyped(d: Decls, b: State, next: nat)
    requires StateTyped(d, b)
    ensures GoesOnward(d, b, Goto(b, next))
  {
    if Goto(b, next).Some? {
      TerminateTyped(d, b, M.Goto(next));
    }
  }

  lemma {:induction false} SimpleBuilt(d: Decls, l: Low, st: Stmt)
    requires Typed(st) && SourceTyped(d, st) && StateTyped(d, l.b)
    requires !st.Body? && !st.If? && !st.While? && !st.Match?
    ensures LowOnward(d, l.b, BuildStmt(d.env, l, st))
    decreases st, 2
  {
    OnwardRefl(d, l.b);
    match st
    case Let(x, init) => StoreBuilt(d, l.b, Place(x, [], l.b.locals[x]), init);
    case Assign(place, rhs) =>
      PlaceGrows(place, d.own, l.b.locals);
      StoreBuilt(d, l.b, place, rhs);
    case ReturnS(None) =>
      if BuildStmt(d.env, l, st).Some? {
        ReturnTyped(d, l.b, None);
      }
    case ReturnS(Some(e)) =>
      OperandBuilt(d, l.b, e);
      if BuildStmt(d.env, l, st).Some? {
        var (b1, o) := BuildOperand(d.env, l.b, e).value;
        ReturnTyped(d, b1, Some(o));
      }
    case Break(scope) =>
      if scope in l.ends {
        GotoTyped(d, l.b, l.ends[scope]);
      }
    case Continue(scope) =>
      if scope in l.begins {
        GotoTyped(d, l.b, l.begins[scope]);
      }
    case ExprS(e) =>
      RValueBuilt(d, l.b, e);
      if BuildStmt(d.env, l, st).Some? {
        var (b1, rv) := BuildRValue(d.env, l.b, e).value;
        RValueSpilled(d, b1, rv);
      }
    case ErrorS =>
  }

  lemma {:induction false} StmtBuilt(d: Decls, l: Low, st: Stmt)
    requires Typed(st) && SourceTyped(d, st) && StateTyped(d, l.b)
    ensures LowOnward(d, l.b, BuildStmt(d.env, l, st))
    decreases st, 4
  {
    match st
    case Body(stmts) => StmtsBuilt(d, l, stmts);
    case If(_, _, _) => IfBuilt(d, l, st);
    case While(_, _, _) => WhileBuilt(d, l, st);
    case Match(_, _) => MatchBuilt(d, l, st);
    case _ => SimpleBuilt(d, l, st);
  }

  // ----- functions -----

  /**
   * The graph of a well-typed function is well typed: its first locals are the function's own,
   * every place, operand and assignment agrees with the declared types of the locals, and the
   * result of a call is stored in a local of the callee's result type.
   */
  lemma LoweringTyped(env: Env, results: nat -> Ty, f: Function)
    requires AllTyped(f.root) && AllSourceTyped(Decls(env, results, f.locals), f.root)
    requires LowerFunction(env, f).Some?
    ensures var g := LowerFunction(env, f).value;
            f.locals <= g.locals && BlocksTyped(Decls(env, results, f.locals), g.blocks, g.locals)
  {
    var d := Decls(env, results, f.locals);
    var start := Low(State([EMPTY_BLOCK], 0, {}, f.locals), map[], map[]);
    assert StateTyped(d, start.b);
    StmtsBuilt(d, start, f.root);
    var l := BuildStmts(env, start, f.root).value;
    if !Closed(l.b) {
      TerminateTyped(d, l.b, if f.isVoid then M.Return(None) else M.Diverge);
    }
  }
}
