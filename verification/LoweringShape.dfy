/** The block protocol: what each step of the lowering may touch, and which blocks it leaves open. */
module LoweringShape {
  import opened Core
  import opened DecisionTree
  import opened MatchCompiler
  import M = Mir
  import opened Thir
  import opened Builder
  import opened Lowering

  // ----- well-formed builder states -----

  ghost predicate TargetsIn(t: M.Terminator, n: nat) {
    match t
    case Goto(next) => next < n
    case Branch(_, thn, els) => thn < n && els < n
    case Switch(_, branches, default) => default < n && forall k :: k in branches ==> branches[k] < n
    case Call(_, _, _, next) => next < n
    case _ => true
  }

  /** Finalized blocks are allocated and jump to allocated blocks. */
  ghost predicate Wf(b: State) {
    && b.current < |b.blocks|
    && (forall i :: i in b.finalized ==> i < |b.blocks| && TargetsIn(b.blocks[i].terminator, |b.blocks|))
  }

  ghost function Open(b: State): set<nat> {
    set i: nat | i < |b.blocks| && i !in b.finalized
  }

  lemma OpenSpec(b: State, i: nat)
    ensures i in Open(b) <==> i < |b.blocks| && i !in b.finalized
  {
  }

  /** Finalized blocks never change again and open blocks only get longer. */
  ghost predicate Grow(b: State, b': State) {
    && |b.blocks| <= |b'.blocks|
    && b.finalized <= b'.finalized
    && b.locals <= b'.locals
    && forall i :: 0 <= i < |b.blocks| ==>
         && b.blocks[i].stmts <= b'.blocks[i].stmts
         && (i in b.finalized ==> b'.blocks[i] == b.blocks[i])
  }

  lemma GrowTrans(a: State, b: State, c: State)
    requires Grow(a, b) && Grow(b, c)
    ensures Grow(a, c)
  {
  }

  ghost predicate Untouched(b: State, b': State, but: nat) {
    |b.blocks| <= |b'.blocks| && forall i :: 0 <= i < |b.blocks| && i != but ==> b'.blocks[i] == b.blocks[i]
  }

  /**
   * Straight lowering from the current block: no other existing block is touched
   * and, apart from the block it ends in, exactly the other open blocks stay open.
   */
  ghost predicate Seg(b: State, b': State) {
    && Wf(b) && Wf(b') && Grow(b, b')
    && Untouched(b, b', b.current)
    && (b'.current == b.current || b'.current >= |b.blocks|)
    && Open(b') - {b'.current} == Open(b) - {b.current}
  }

  /** Lowering that closes block s and every block it makes. */
  ghost predicate Fill(b: State, b': State, s: nat) {
    && Wf(b) && Wf(b') && Grow(b, b')
    && Untouched(b, b', s)
    && Open(b') == Open(b) - {s}
  }

  lemma SegRefl(b: State)
    requires Wf(b)
    ensures Seg(b, b)
  {
  }

  lemma SegTrans(a: State, b: State, c: State)
    requires Seg(a, b) && Seg(b, c)
    ensures Seg(a, c)
  {
    GrowTrans(a, b, c);
    OpenSpec(b, a.current);
    forall i | 0 <= i < |a.blocks| && i != a.current ensures c.blocks[i] == a.blocks[i] {
      assert i != b.current;
    }
  }

  lemma TargetsGrow(t: M.Terminator, n: nat, k: nat)
    requires TargetsIn(t, n) && n <= k
    ensures TargetsIn(t, k)
  {
  }

  // ----- the primitive operations -----

  lemma EmitSeg(b: State, s: M.MirStmt)
    requires Wf(b) && Emit(b, s).Some?
    ensures Seg(b, Emit(b, s).value) && !Closed(Emit(b, s).value)
  {
    var b' := Emit(b, s).value;
    assert Open(b') == Open(b);
  }

  lemma NewLocalSeg(b: State, ty: Ty)
    requires Wf(b)
    ensures Seg(b, NewLocal(b, ty)) && (Closed(NewLocal(b, ty)) <==> Closed(b))
  {
    assert Open(NewLocal(b, ty)) == Open(b);
  }

  lemma NewBlockKeeps(b: State)
    requires Wf(b)
    ensures Wf(NewBlock(b)) && Grow(b, NewBlock(b)) && Untouched(b, NewBlock(b), |b.blocks|)
    ensures Open(NewBlock(b)) == Open(b) + {|b.blocks|}
  {
    var b' := NewBlock(b);
    forall i | i in b'.finalized ensures TargetsIn(b'.blocks[i].terminator, |b'.blocks|) {
      TargetsGrow(b.blocks[i].terminator, |b.blocks|, |b'.blocks|);
    }
  }

  lemma TerminateKeeps(b: State, t: M.Terminator)
    requires Wf(b) && TerminateWith(b, t).Some? && TargetsIn(t, |b.blocks|)
    ensures var b' := TerminateWith(b, t).value;
            Wf(b') && Grow(b, b') && Untouched(b, b', b.current) && Open(b') == Open(b) - {b.current}
  {
  }

  lemma SwitchKeeps(b: State, block: nat)
    requires Wf(b) && block < |b.blocks| && SwitchTo(b, block).Some?
    ensures var b' := SwitchTo(b, block).value;
            Wf(b') && Grow(b, b') && Open(b') == Open(b) && !Closed(b') && b'.blocks == b.blocks
  {
  }

  /** Close the current block and go on in a fresh one. */
  lemma FreshSeg(b: State, t: M.Terminator, b1: State, b2: State)
    requires Wf(b) && TerminateWith(NewBlock(b), t) == Some(b1) && SwitchTo(b1, |b.blocks|) == Some(b2)
    requires TargetsIn(t, |b.blocks| + 1)
    ensures Seg(b, b2) && !Closed(b2) && b2.current == |b.blocks|
    ensures b2.blocks[|b.blocks|] == EMPTY_BLOCK
  {
    NewBlockKeeps(b);
    TerminateKeeps(NewBlock(b), t);
    SwitchKeeps(b1, |b.blocks|);
    GrowTrans(b, NewBlock(b), b1);
    GrowTrans(b, b1, b2);
  }

  // ----- expressions -----

  lemma BuildCallSeg(b: State, callee: nat, args: seq<M.Operand>, ty: Ty)
    requires Wf(b) && BuildCall(b, callee, args, ty).Some?
    ensures Seg(b, BuildCall(b, callee, args, ty).value.0) && !Closed(BuildCall(b, callee, args, ty).value.0)
  {
    var (next, local) := (|b.blocks|, |b.locals|);
    var b0 := NewLocal(b, ty);
    NewLocalSeg(b, ty);
    assert NewLocal(NewBlock(b), ty) == NewBlock(b0);
    var b1 := TerminateWith(NewBlock(b0), M.Call(callee, args, local, next)).value;
    var b2 := SwitchTo(b1, next).value;
    FreshSeg(b0, M.Call(callee, args, local, next), b1, b2);
    SegTrans(b, b0, b2);
    if ty == NeverT {
      var b3 := TerminateWith(b2, M.Diverge).value;
      var b4 := SwitchTo(NewBlock(b3), |b3.blocks|).value;
      var b3' := TerminateWith(NewBlock(b2), M.Diverge).value;
      assert NewBlock(b3) == b3';
      FreshSeg(b2, M.Diverge, b3', b4);
      SegTrans(b, b2, b4);
    }
  }

  lemma {:induction false} BuildRValueSeg(env: Env, b: State, e: Expr)
    requires Wf(b) && BuildRValue(env, b, e).Some?
    ensures var b' := BuildRValue(env, b, e).value.0; Seg(b, b') && (Closed(b') ==> Closed(b))
    decreases e, 0
  {
    SegRefl(b);
    match e
    case Op(_, args, _) => BuildOperandsSeg(env, b, args);
    case CallE(f, args, t) =>
      BuildOperandsSeg(env, b, args);
      var (b1, ops) := BuildOperands(env, b, args).value;
      BuildCallSeg(b1, f, ops, t);
      SegTrans(b, b1, BuildCall(b1, f, ops, t).value.0);
    case _ =>
  }

  lemma {:induction false} BuildOperandSeg(env: Env, b: State, e: Expr)
    requires Wf(b) && BuildOperand(env, b, e).Some?
    ensures var b' := BuildOperand(env, b, e).value.0; Seg(b, b') && (Closed(b') ==> Closed(b))
    decreases e, 1
  {
    SegRefl(b);
    match e
    case CallE(f, args, t) =>
      BuildOperandsSeg(env, b, args);
      var (b1, ops) := BuildOperands(env, b, args).value;
      BuildCallSeg(b1, f, ops, t);
      SegTrans(b, b1, BuildCall(b1, f, ops, t).value.0);
    case Op(_, _, t) =>
      BuildRValueSeg(env, b, e);
      var (b1, rv) := BuildRValue(env, b, e).value;
      NewLocalSeg(b1, t);
      EmitSeg(NewLocal(b1, t), M.AssignTo(Place(|b1.locals|, [], t), rv));
      SegTrans(b, b1, NewLocal(b1, t));
      SegTrans(b, NewLocal(b1, t), BuildOperand(env, b, e).value.0);
    case _ =>
  }

  lemma {:induction false} BuildOperandsSeg(env: Env, b: State, es: seq<Expr>)
    requires Wf(b) && BuildOperands(env, b, es).Some?
    ensures var b' := BuildOperands(env, b, es).value.0; Seg(b, b') && (Closed(b') ==> Closed(b))
    decreases es, 2
  {
    SegRefl(b);
    if es != [] {
      BuildOperandSeg(env, b, es[0]);
      var (b1, o) := BuildOperand(env, b, es[0]).value;
      BuildOperandsSeg(env, b1, es[1..]);
      SegTrans(b, b1, BuildOperands(env, b1, es[1..]).value.0);
    }
  }

  lemma SpillRValueSeg(b: State, rv: M.RValue, ty: Ty)
    requires Wf(b) && SpillRValue(b, rv, ty).Some?
    ensures Seg(b, SpillRValue(b, rv, ty).value) && (Closed(SpillRValue(b, rv, ty).value) ==> Closed(b))
  {
    SegRefl(b);
    NewLocalSeg(b, ty);
    if !(rv.UseOf? && (rv.operand.Constant? || rv.operand.place.projs == [])) {
      EmitSeg(NewLocal(b, ty), M.AssignTo(Place(|b.locals|, [], ty), rv));
      SegTrans(b, NewLocal(b, ty), SpillRValue(b, rv, ty).value);
    }
  }

  lemma SpillOperandSeg(b: State, o: M.Operand)
    requires Wf(b) && SpillOperand(b, o).Some?
    ensures Seg(b, SpillOperand(b, o).value.0) && (Closed(SpillOperand(b, o).value.0) ==> Closed(b))
  {
    SegRefl(b);
    NewLocalSeg(b, M.OperandTy(o));
    if !o.Move? {
      EmitSeg(NewLocal(b, M.OperandTy(o)), M.AssignTo(Place(|b.locals|, [], M.OperandTy(o)), M.UseOf(o)));
      SegTrans(b, NewLocal(b, M.OperandTy(o)), SpillOperand(b, o).value.0);
    }
  }

  // ----- decision trees -----

  lemma {:induction false} EmitBindingsSeg(env: Env, b: State, bs: seq<Binding>)
    requires Wf(b) && EmitBindings(env, b, bs).Some?
    ensures Seg(b, EmitBindings(env, b, bs).value) && EmitBindings(env, b, bs).value.current == b.current
    ensures Closed(EmitBindings(env, b, bs).value) ==> Closed(b)
    decreases |bs|
  {
    SegRefl(b);
    if bs != [] {
      var dest := PlaceOfLocal(b, bs[0].local).value;
      var s := M.AssignTo(dest, M.UseOf(MoveOrCopy(env, bs[0].place)));
      EmitSeg(b, s);
      EmitBindingsSeg(env, Emit(b, s).value, bs[1..]);
      SegTrans(b, Emit(b, s).value, EmitBindings(env, b, bs).value);
    }
  }

  /** Every block made was closed and nothing that existed was touched. */
  ghost predicate Keep(b: State, b': State) {
    && Wf(b) && Wf(b') && Grow(b, b')
    && b.blocks <= b'.blocks
    && Open(b') == Open(b)
  }

  lemma KeepTrans(a: State, b: State, c: State)
    requires Keep(a, b) && Keep(b, c)
    ensures Keep(a, c)
  {
    GrowTrans(a, b, c);
  }

  /** A sub-tree lowered into a block of its own. */
  lemma SubTreeKeep(b: State, b1: State, b2: State)
    requires Wf(b) && SwitchTo(NewBlock(b), |b.blocks|) == Some(b1) && Fill(b1, b2, |b.blocks|)
    ensures Keep(b, b2)
  {
    NewBlockKeeps(b);
    SwitchKeeps(NewBlock(b), |b.blocks|);
    GrowTrans(b, NewBlock(b), b1);
    GrowTrans(b, b1, b2);
    forall i | 0 <= i < |b.blocks| ensures b2.blocks[i] == b.blocks[i] {
      assert b1.blocks[i] == b.blocks[i];
    }
  }

  lemma FreshSwitch(b: State)
    requires Wf(b)
    ensures SwitchTo(NewBlock(b), |b.blocks|).Some?
    ensures var b1 := SwitchTo(NewBlock(b), |b.blocks|).value;
            Wf(b1) && !Closed(b1) && b1.current == |b.blocks| && b1.blocks == b.blocks + [EMPTY_BLOCK]
              && b1.locals == b.locals
  {
    NewBlockKeeps(b);
    SwitchKeeps(NewBlock(b), |b.blocks|);
  }

  ghost predicate IdsIn(ids: seq<nat>, n: nat) {
    forall i :: 0 <= i < |ids| ==> ids[i] < n
  }

  lemma {:induction false} LowerTreeFill(env: Env, b: State, t: Tree, bbs: seq<nat>, diverge: nat)
    requires Wf(b) && !Closed(b) && IdsIn(bbs, |b.blocks|) && diverge < |b.blocks|
    requires LowerTree(env, b, t, bbs, diverge).Some?
    ensures Fill(b, LowerTree(env, b, t, bbs, diverge).value, b.current)
    decreases t, 1
  {
    var b' := LowerTree(env, b, t, bbs, diverge).value;
    match t
    case Leaf(branch, bindings) =>
      EmitBindingsSeg(env, b, bindings);
      var b1 := EmitBindings(env, b, bindings).value;
      TerminateKeeps(b1, M.Goto(bbs[branch]));
      GrowTrans(b, b1, b');
    case Fail => TerminateKeeps(b, M.Diverge);
    case Switch(place, _, _) =>
      if place.ty.EnumT? {
        var tagTy := TagTy(place.ty, env.target).value;
        var tag := Place(|b.locals|, [], tagTy);
        NewLocalSeg(b, tagTy);
        EmitSeg(NewLocal(b, tagTy), M.AssignTo(tag, M.Discriminant(place, tagTy)));
        var b1 := Emit(NewLocal(b, tagTy), M.AssignTo(tag, M.Discriminant(place, tagTy))).value;
        SegTrans(b, NewLocal(b, tagTy), b1);
        LowerSwitchFill(env, b1, M.Move(tag), t, bbs, diverge);
        GrowTrans(b, b1, b');
      } else {
        LowerSwitchFill(env, b, M.Move(place), t, bbs, diverge);
      }
  }

  lemma CloseSwitch(b: State, b1: State, t: M.Terminator, b2: State, b3: State)
    requires Keep(b, b1) && !Closed(b) && TargetsIn(t, |b1.blocks|)
    requires SwitchTo(b1, b.current) == Some(b2) && TerminateWith(b2, t) == Some(b3)
    ensures Fill(b, b3, b.current)
  {
    SwitchKeeps(b1, b.current);
    TerminateKeeps(b2, t);
    GrowTrans(b, b1, b2);
    GrowTrans(b, b2, b3);
  }

  lemma {:induction false} LowerSwitchFill(env: Env, b: State, o: M.Operand, t: Tree, bbs: seq<nat>, diverge: nat)
    requires t.Switch? && Wf(b) && !Closed(b) && IdsIn(bbs, |b.blocks|) && diverge < |b.blocks|
    requires LowerSwitch(env, b, o, t, bbs, diverge).Some?
    ensures Fill(b, LowerSwitch(env, b, o, t, bbs, diverge).value, b.current)
    decreases t, 0
  {
    LowerCasesKeep(env, b, t.cases, bbs, diverge, t.place.ty.EnumT?);
    var (b1, branches) := LowerCases(env, b, t.cases, bbs, diverge, t.place.ty.EnumT?).value;
    match t.default
    case None =>
      var b2 := SwitchTo(b1, b.current).value;
      CloseSwitch(b, b1, M.Switch(o, branches, diverge), b2, LowerSwitch(env, b, o, t, bbs, diverge).value);
    case Some(tree) =>
      FreshSwitch(b1);
      var b2 := SwitchTo(NewBlock(b1), |b1.blocks|).value;
      LowerTreeFill(env, b2, tree, bbs, diverge);
      var b3 := LowerTree(env, b2, tree, bbs, diverge).value;
      SubTreeKeep(b1, b2, b3);
      KeepTrans(b, b1, b3);
      var b4 := SwitchTo(b3, b.current).value;
      CloseSwitch(b, b3, M.Switch(o, branches, |b1.blocks|), b4, LowerSwitch(env, b, o, t, bbs, diverge).value);
  }

  lemma {:induction false} LowerCasesKeep(env: Env, b: State, cases: seq<Case>, bbs: seq<nat>, diverge: nat,
                                          onEnum: bool)
    requires Wf(b) && IdsIn(bbs, |b.blocks|) && diverge < |b.blocks|
    requires LowerCases(env, b, cases, bbs, diverge, onEnum).Some?
    ensures var (b', branches) := LowerCases(env, b, cases, bbs, diverge, onEnum).value;
            Keep(b, b') && forall k :: k in branches ==> |b.blocks| <= branches[k] < |b'.blocks|
    decreases cases, 0
  {
    if cases != [] {
      FreshSwitch(b);
      var b1 := SwitchTo(NewBlock(b), |b.blocks|).value;
      assert cases[0].tree < cases[0];
      LowerTreeFill(env, b1, cases[0].tree, bbs, diverge);
      var b2 := LowerTree(env, b1, cases[0].tree, bbs, diverge).value;
      SubTreeKeep(b, b1, b2);
      LowerCasesKeep(env, b2, cases[1..], bbs, diverge, onEnum);
      KeepTrans(b, b2, LowerCases(env, b2, cases[1..], bbs, diverge, onEnum).value.0);
    }
  }

  // ----- statements -----

  ghost predicate LoopsIn(l: Low, n: nat) {
    && (forall k :: k in l.begins ==> l.begins[k] < n)
    && (forall k :: k in l.ends ==> l.ends[k] < n)
  }

  ghost predicate LowWf(l: Low) {
    Wf(l.b) && LoopsIn(l, |l.b.blocks|)
  }

  lemma {:induction false} BuildStmtsSeg(env: Env, l: Low, stmts: seq<Stmt>)
    requires AllTyped(stmts) && LowWf(l) && BuildStmts(env, l, stmts).Some?
    ensures var l' := BuildStmts(env, l, stmts).value; LowWf(l') && Seg(l.b, l'.b)
    decreases stmts, 1
  {
    SegRefl(l.b);
    if stmts != [] {
      assert Typed(stmts[0]);
      BuildStmtSeg(env, l, stmts[0]);
      var l1 := BuildStmt(env, l, stmts[0]).value;
      BuildStmtsSeg(env, l1, stmts[1..]);
      SegTrans(l.b, l1.b, BuildStmts(env, l1, stmts[1..]).value.b);
    }
  }

  lemma {:induction false} BuildSetupSeg(env: Env, l: Low, s: Setup)
    requires AllTyped(s.stmts) && LowWf(l) && BuildSetup(env, l, s).Some?
    ensures var l' := BuildSetup(env, l, s).value.0; LowWf(l') && Seg(l.b, l'.b)
    decreases s, 1
  {
    BuildStmtsSeg(env, l, s.stmts);
    var l1 := BuildStmts(env, l, s.stmts).value;
    BuildOperandSeg(env, l1.b, s.expr);
    SegTrans(l.b, l1.b, BuildOperand(env, l1.b, s.expr).value.0);
  }

  lemma {:induction false} BuildIntoFill(env: Env, l: Low, start: nat, stmts: seq<Stmt>, next: nat)
    requires AllTyped(stmts) && LowWf(l) && start < |l.b.blocks| && next < |l.b.blocks|
    requires BuildInto(env, l, start, stmts, next).Some?
    ensures var l' := BuildInto(env, l, start, stmts, next).value; LowWf(l') && Fill(l.b, l'.b, start)
    decreases stmts, 2
  {
    var b := SwitchTo(l.b, start).value;
    SwitchKeeps(l.b, start);
    BuildStmtsSeg(env, l.(b := b), stmts);
    var l1 := BuildStmts(env, l.(b := b), stmts).value;
    GrowTrans(l.b, b, l1.b);
    if !Closed(l1.b) {
      TerminateKeeps(l1.b, M.Goto(next));
      GrowTrans(l.b, l1.b, Goto(l1.b, next).value);
    }
  }

  ghost function Elements(s: seq<nat>): set<nat> {
    set i | 0 <= i < |s| :: s[i]
  }

  ghost predicate FillAll(b: State, b': State, ids: set<nat>) {
    match b'
    case State(blocks, _, _, _) =>
      && Wf(b) && Wf(b') && Grow(b, b')
      && (forall i :: 0 <= i < |b.blocks| && i !in ids ==> blocks[i] == b.blocks[i])
      && Open(b') == Open(b) - ids
  }

  lemma {:induction false} BuildArmsFill(env: Env, l: Low, arms: seq<Arm>, bbs: seq<nat>, merge: nat)
    requires |bbs| == |arms| && LowWf(l) && IdsIn(bbs, |l.b.blocks|) && merge < |l.b.blocks|
    requires forall i {:trigger arms[i]} :: 0 <= i < |arms| ==> AllTyped(arms[i].body)
    requires BuildArms(env, l, arms, bbs, merge).Some?
    ensures var l' := BuildArms(env, l, arms, bbs, merge).value; LowWf(l') && FillAll(l.b, l'.b, Elements(bbs))
    decreases arms, 1
  {
    if arms != [] {
      BuildIntoFill(env, l, bbs[0], arms[0].body, merge);
      var l1 := BuildInto(env, l, bbs[0], arms[0].body, merge).value;
      BuildArmsFill(env, l1, arms[1..], bbs[1..], merge);
      var l' := BuildArms(env, l1, arms[1..], bbs[1..], merge).value;
      FillCons(l.b, l1.b, l'.b, bbs);
    }
  }

  lemma FillCons(b: State, b1: State, b2: State, bbs: seq<nat>)
    requires bbs != [] && Fill(b, b1, bbs[0]) && FillAll(b1, b2, Elements(bbs[1..]))
    ensures FillAll(b, b2, Elements(bbs))
  {
    GrowTrans(b, b1, b2);
    assert bbs == [bbs[0]] + bbs[1..];
    forall x | x in Elements(bbs) ensures x in {bbs[0]} + Elements(bbs[1..]) {
      var i :| 0 <= i < |bbs| && bbs[i] == x;
      if i > 0 { assert bbs[1..][i - 1] == x; }
    }
    forall x | x in Elements(bbs[1..]) ensures x in Elements(bbs) {
      var i :| 0 <= i < |bbs[1..]| && bbs[1..][i] == x;
      assert bbs[i + 1] == x;
    }
    assert Elements(bbs) == {bbs[0]} + Elements(bbs[1..]);
  }

  /** The shape that if, while and match share: new blocks, the last of them current at the end. */
  lemma JoinSeg(b: State, b1: State, b': State, merge: nat)
    requires Seg(b, b1) && Wf(b') && Grow(b1, b') && Untouched(b1, b', b1.current)
    requires merge >= |b1.blocks| && b'.current == merge
    requires Open(b') == (Open(b1) - {b1.current}) + {merge}
    ensures Seg(b, b')
  {
    GrowTrans(b, b1, b');
    OpenSpec(b, b.current);
    OpenSpec(b1, b.current);
    forall i | 0 <= i < |b.blocks| && i != b.current ensures b'.blocks[i] == b.blocks[i] {
      assert i != b1.current;
    }
    assert merge !in Open(b1);
  }

  ghost function Ids(lo: nat, n: nat): (r: set<nat>)
    ensures forall i: nat :: i in r <==> lo <= i < lo + n
  {
    if n == 0 then {} else Ids(lo, n - 1) + {lo + n - 1}
  }

  ghost function Fresh(b: State, n: nat): set<nat> {
    Ids(|b.blocks|, n)
  }

  lemma {:induction false} NewBlocksKeep(b: State, n: nat)
    requires Wf(b)
    ensures Wf(NewBlocks(b, n)) && Grow(b, NewBlocks(b, n))
    ensures Open(NewBlocks(b, n)) == Open(b) + Fresh(b, n)
  {
    if n > 0 {
      NewBlocksKeep(b, n - 1);
      NewBlockKeeps(NewBlocks(b, n - 1));
      GrowTrans(b, NewBlocks(b, n - 1), NewBlocks(b, n));
    }
  }

  /** Allocate n blocks, then close the current one with a jump into them. */
  lemma ForkKeeps(b: State, n: nat, t: M.Terminator, b': State)
    requires Wf(b) && TerminateWith(NewBlocks(b, n), t) == Some(b') && TargetsIn(t, |b.blocks| + n)
    ensures Wf(b') && Grow(b, b') && Untouched(b, b', b.current) && |b'.blocks| == |b.blocks| + n
    ensures Open(b') == (Open(b) - {b.current}) + Fresh(b, n)
    ensures forall i :: |b.blocks| <= i < |b'.blocks| ==> b'.blocks[i] == EMPTY_BLOCK
    ensures b'.blocks[b.current].stmts == b.blocks[b.current].stmts && b'.locals == b.locals
  {
    NewBlocksKeep(b, n);
    TerminateKeeps(NewBlocks(b, n), t);
    GrowTrans(b, NewBlocks(b, n), b');
  }

  lemma TwoBlocks(b: State)
    ensures NewBlock(NewBlock(b)) == NewBlocks(b, 2)
    ensures NewBlock(NewBlock(NewBlock(b))) == NewBlocks(b, 3)
  {
  }

  lemma JoinAt(b: State, b': State, merge: nat)
    requires Wf(b) && merge in Open(b) && SwitchTo(b, merge) == Some(b')
    ensures Wf(b') && Grow(b, b') && Open(b') == Open(b) && b'.blocks == b.blocks && b'.current == merge
  {
    SwitchKeeps(b, merge);
  }

  /** The states a conditional goes through. */
  ghost predicate IfSteps(env: Env, st: Stmt, l1: Low, o: M.Operand, b3: State, l4: Low, l5: Low, b6: State)
    requires st.If? && Typed(st)
  {
    var (t, merge, e) := (|l1.b.blocks|, |l1.b.blocks| + 1, |l1.b.blocks| + 2);
    && (if st.els.Else? then
          && TerminateWith(NewBlocks(l1.b, 3), M.Branch(o, t, e)) == Some(b3)
          && BuildInto(env, l1.(b := b3), e, st.els.stmts, merge) == Some(l4)
        else
          && TerminateWith(NewBlocks(l1.b, 2), M.Branch(o, t, merge)) == Some(b3)
          && l4 == l1.(b := b3))
    && BuildInto(env, l4, t, st.thn, merge) == Some(l5)
    && SwitchTo(l5.b, merge) == Some(b6)
  }

  lemma BuildIfSteps(env: Env, l: Low, st: Stmt)
    returns (l1: Low, o: M.Operand, b3: State, l4: Low, l5: Low, b6: State)
    requires st.If? && Typed(st) && BuildIf(env, l, st).Some?
    ensures BuildSetup(env, l, st.cond) == Some((l1, o))
    ensures IfSteps(env, st, l1, o, b3, l4, l5, b6)
    ensures BuildIf(env, l, st) == Some(l5.(b := b6))
  {
    var r := BuildSetup(env, l, st.cond).value;
    l1, o := r.0, r.1;
    TwoBlocks(l1.b);
    var (t, merge, e) := (|l1.b.blocks|, |l1.b.blocks| + 1, |l1.b.blocks| + 2);
    if st.els.Else? {
      b3 := TerminateWith(NewBlocks(l1.b, 3), M.Branch(o, t, e)).value;
      l4 := BuildInto(env, l1.(b := b3), e, st.els.stmts, merge).value;
    } else {
      b3 := TerminateWith(NewBlocks(l1.b, 2), M.Branch(o, t, merge)).value;
      l4 := l1.(b := b3);
    }
    l5 := BuildInto(env, l4, t, st.thn, merge).value;
    b6 := SwitchTo(l5.b, merge).value;
  }

  lemma {:induction false} BuildIfSeg(env: Env, l: Low, st: Stmt)
    requires st.If? && Typed(st) && LowWf(l) && BuildIf(env, l, st).Some?
    ensures var l' := BuildIf(env, l, st).value; LowWf(l') && Seg(l.b, l'.b)
    decreases st, 1
  {
    var l1, o, b3, l4, l5, b6 := BuildIfSteps(env, l, st);
    BuildSetupSeg(env, l, st.cond);
    IfFills(env, st, l1, o, b3, l4, l5, b6);
    IfJoined(l, st.els.Else?, l1, b3, l4, l5, b6);
  }

  /** What the arms of a conditional filled. */
  ghost predicate IfFilled(l1: Low, b3: State, l4: Low, l5: Low, b6: State, withElse: bool) {
    match l1
    case Low(b1, _, _) =>
      && Grow(b1, b3) && Untouched(b1, b3, b1.current) && |b3.blocks| == |b1.blocks| + (if withElse then 3 else 2)
      && Open(b3) == (Open(b1) - {b1.current}) + Fresh(b1, if withElse then 3 else 2)
      && (if withElse then Fill(b3, l4.b, |b1.blocks| + 2) else l4.b == b3)
      && LowWf(l5) && Fill(l4.b, l5.b, |b1.blocks|) && SwitchTo(l5.b, |b1.blocks| + 1) == Some(b6)
  }

  lemma {:induction false} IfFills(env: Env, st: Stmt, l1: Low, o: M.Operand, b3: State, l4: Low, l5: Low, b6: State)
    requires st.If? && Typed(st) && LowWf(l1) && IfSteps(env, st, l1, o, b3, l4, l5, b6)
    ensures IfFilled(l1, b3, l4, l5, b6, st.els.Else?)
    decreases st, 0
  {
    var (t, merge) := (|l1.b.blocks|, |l1.b.blocks| + 1);
    IfForked(env, st, l1, o, b3, l4, l5, b6);
    if st.els.Else? {
      BuildIntoFill(env, l1.(b := b3), merge + 1, st.els.stmts, merge);
    }
    BuildIntoFill(env, l4, t, st.thn, merge);
  }

  /** After the branch: the arms and the join are open and empty. */
  lemma IfForked(env: Env, st: Stmt, l1: Low, o: M.Operand, b3: State, l4: Low, l5: Low, b6: State)
    requires st.If? && Typed(st) && LowWf(l1) && IfSteps(env, st, l1, o, b3, l4, l5, b6)
    ensures LowWf(l1.(b := b3)) && Grow(l1.b, b3) && Untouched(l1.b, b3, l1.b.current)
    ensures |b3.blocks| == |l1.b.blocks| + (if st.els.Else? then 3 else 2)
    ensures Open(b3) == (Open(l1.b) - {l1.b.current}) + Fresh(l1.b, if st.els.Else? then 3 else 2)
    ensures forall i :: |l1.b.blocks| <= i < |b3.blocks| ==> b3.blocks[i] == EMPTY_BLOCK
    ensures b3.blocks[l1.b.current].stmts == l1.b.blocks[l1.b.current].stmts && b3.locals == l1.b.locals
  {
    var (t, merge, e) := (|l1.b.blocks|, |l1.b.blocks| + 1, |l1.b.blocks| + 2);
    if st.els.Else? {
      ForkKeeps(l1.b, 3, M.Branch(o, t, e), b3);
    } else {
      ForkKeeps(l1.b, 2, M.Branch(o, t, merge), b3);
    }
  }

  lemma IfOpen(b1: State, b3: State, b4: State, b5: State, withElse: bool)
    requires Wf(b1) && Untouched(b1, b3, b1.current) && |b3.blocks| == |b1.blocks| + (if withElse then 3 else 2)
    requires Open(b3) == (Open(b1) - {b1.current}) + Fresh(b1, if withElse then 3 else 2)
    requires if withElse then Fill(b3, b4, |b1.blocks| + 2) else b4 == b3
    requires Fill(b4, b5, |b1.blocks|)
    ensures Open(b5) == (Open(b1) - {b1.current}) + {|b1.blocks| + 1}
    ensures Untouched(b1, b5, b1.current)
  {
    var t := |b1.blocks|;
    assert Fresh(b1, 3) == {t, t + 1, t + 2} && Fresh(b1, 2) == {t, t + 1};
    assert Open(b4) == (Open(b1) - {b1.current}) + {t, t + 1};
    forall i | 0 <= i < |b1.blocks| && i != b1.current ensures b5.blocks[i] == b1.blocks[i] {
      assert b4.blocks[i] == b3.blocks[i];
    }
  }

  lemma IfJoined(l: Low, withElse: bool, l1: Low, b3: State, l4: Low, l5: Low, b6: State)
    requires LowWf(l1) && Seg(l.b, l1.b) && IfFilled(l1, b3, l4, l5, b6, withElse)
    ensures LowWf(l5.(b := b6)) && Seg(l.b, b6)
  {
    IfOpen(l1.b, b3, l4.b, l5.b, withElse);
    var merge := |l1.b.blocks| + 1;
    JoinAt(l5.b, b6, merge);
    GrowTrans(l1.b, b3, l4.b);
    GrowTrans(l1.b, l4.b, l5.b);
    GrowTrans(l1.b, l5.b, b6);
    JoinSeg(l.b, l1.b, b6, merge);
  }

  /** The state in which a loop's condition is lowered. */
  ghost predicate LoopHead(l: Low, scope: nat, l2: Low) {
    var head := |l.b.blocks|;
    && Goto(NewBlocks(l.b, 3), head).Some?
    && SwitchTo(Goto(NewBlocks(l.b, 3), head).value, head) == Some(l2.b)
    && l2.begins == l.begins[scope := head] && l2.ends == l.ends[scope := head + 2]
  }

  lemma LoopHeadWf(l: Low, scope: nat, l2: Low)
    requires LowWf(l) && LoopHead(l, scope, l2)
    ensures LowWf(l2) && Grow(l.b, l2.b) && Untouched(l.b, l2.b, l.b.current) && !Closed(l2.b)
    ensures |l2.b.blocks| == |l.b.blocks| + 3 && l2.b.current == |l.b.blocks| && l2.b.locals == l.b.locals
    ensures Open(l2.b) == (Open(l.b) - {l.b.current}) + Fresh(l.b, 3)
    ensures forall i :: |l.b.blocks| <= i < |l2.b.blocks| ==> l2.b.blocks[i] == EMPTY_BLOCK
    ensures l2.b.blocks[l.b.current].stmts == l.b.blocks[l.b.current].stmts
  {
    var head := |l.b.blocks|;
    var b1 := Goto(NewBlocks(l.b, 3), head).value;
    ForkKeeps(l.b, 3, M.Goto(head), b1);
    SwitchKeeps(b1, head);
    GrowTrans(l.b, b1, l2.b);
  }

  /** The states a loop goes through. */
  ghost predicate WhileSteps(env: Env, l: Low, st: Stmt, l2: Low, l3: Low, o: M.Operand, b4: State, l5: Low, b6: State)
    requires st.While? && Typed(st)
  {
    var head := |l.b.blocks|;
    && LoopHead(l, st.scope, l2)
    && BuildSetup(env, l2, st.cond) == Some((l3, o))
    && TerminateWith(l3.b, M.Branch(o, head + 1, head + 2)) == Some(b4)
    && BuildInto(env, l3.(b := b4), head + 1, st.body, head) == Some(l5)
    && SwitchTo(l5.b, head + 2) == Some(b6)
  }

  lemma BuildWhileSteps(env: Env, l: Low, st: Stmt)
    returns (l2: Low, l3: Low, o: M.Operand, b4: State, l5: Low, b6: State)
    requires st.While? && Typed(st) && BuildWhile(env, l, st).Some?
    ensures WhileSteps(env, l, st, l2, l3, o, b4, l5, b6)
    ensures BuildWhile(env, l, st) == Some(l5.(b := b6))
  {
    TwoBlocks(l.b);
    var head := |l.b.blocks|;
    var b1 := Goto(NewBlocks(l.b, 3), head).value;
    l2 := Low(SwitchTo(b1, head).value, l.begins[st.scope := head], l.ends[st.scope := head + 2]);
    var r := BuildSetup(env, l2, st.cond).value;
    l3, o := r.0, r.1;
    b4 := TerminateWith(l3.b, M.Branch(o, head + 1, head + 2)).value;
    l5 := BuildInto(env, l3.(b := b4), head + 1, st.body, head).value;
    b6 := SwitchTo(l5.b, head + 2).value;
  }

  lemma {:induction false} BuildWhileSeg(env: Env, l: Low, st: Stmt)
    requires st.While? && Typed(st) && LowWf(l) && BuildWhile(env, l, st).Some?
    ensures var l' := BuildWhile(env, l, st).value; LowWf(l') && Seg(l.b, l'.b)
    decreases st, 1
  {
    var l2, l3, o, b4, l5, b6 := BuildWhileSteps(env, l, st);
    LoopHeadWf(l, st.scope, l2);
    LoopFilled(env, l, st, l2, l3, o, b4, l5);
    WhileJoined(l, st.scope, l2, l3, b4, l5, b6);
  }

  /** The test and the body of a loop. */
  lemma {:induction false} LoopFilled(env: Env, l: Low, st: Stmt, l2: Low, l3: Low, o: M.Operand, b4: State, l5: Low)
    requires st.While? && Typed(st) && LowWf(l2) && |l2.b.blocks| == |l.b.blocks| + 3
    requires BuildSetup(env, l2, st.cond) == Some((l3, o))
    requires TerminateWith(l3.b, M.Branch(o, |l.b.blocks| + 1, |l.b.blocks| + 2)) == Some(b4)
    requires BuildInto(env, l3.(b := b4), |l.b.blocks| + 1, st.body, |l.b.blocks|) == Some(l5)
    ensures Seg(l2.b, l3.b) && Grow(l3.b, b4) && Wf(b4)
    ensures Untouched(l3.b, b4, l3.b.current) && Open(b4) == Open(l3.b) - {l3.b.current}
    ensures LowWf(l5) && Fill(b4, l5.b, |l.b.blocks| + 1)
    decreases st, 0, 1
  {
    LoopTested(env, l, st, l2, l3, o, b4);
    BuildIntoFill(env, l3.(b := b4), |l.b.blocks| + 1, st.body, |l.b.blocks|);
  }

  /** The test of a loop, up to the branch that ends it. */
  lemma {:induction false} LoopTested(env: Env, l: Low, st: Stmt, l2: Low, l3: Low, o: M.Operand, b4: State)
    requires st.While? && Typed(st) && LowWf(l2) && |l2.b.blocks| == |l.b.blocks| + 3
    requires BuildSetup(env, l2, st.cond) == Some((l3, o))
    requires TerminateWith(l3.b, M.Branch(o, |l.b.blocks| + 1, |l.b.blocks| + 2)) == Some(b4)
    ensures Seg(l2.b, l3.b) && LowWf(l3.(b := b4)) && Grow(l3.b, b4)
    ensures Untouched(l3.b, b4, l3.b.current) && Open(b4) == Open(l3.b) - {l3.b.current}
    decreases st, 0, 0
  {
    BuildSetupSeg(env, l2, st.cond);
    TerminateKeeps(l3.b, M.Branch(o, |l.b.blocks| + 1, |l.b.blocks| + 2));
  }

  lemma WhileJoined(l: Low, scope: nat, l2: Low, l3: Low, b4: State, l5: Low, b6: State)
    requires LowWf(l) && LoopHead(l, scope, l2) && SwitchTo(l5.b, |l.b.blocks| + 2) == Some(b6)
    requires Seg(l2.b, l3.b) && Grow(l3.b, b4) && Wf(b4)
    requires Untouched(l3.b, b4, l3.b.current) && Open(b4) == Open(l3.b) - {l3.b.current}
    requires LowWf(l5) && Fill(b4, l5.b, |l.b.blocks| + 1)
    ensures LowWf(l5.(b := b6)) && Seg(l.b, b6)
  {
    LoopHeadWf(l, scope, l2);
    var head := |l.b.blocks|;
    WhileOpen(l.b, l2.b, l3.b, b4, l5.b, head);
    JoinAt(l5.b, b6, head + 2);
    GrowTrans(l.b, l2.b, l3.b);
    GrowTrans(l.b, l3.b, b4);
    GrowTrans(l.b, b4, l5.b);
    GrowTrans(l.b, l5.b, b6);
    SegRefl(l.b);
    JoinSeg(l.b, l.b, b6, head + 2);
  }

  lemma WhileOpen(b: State, b2: State, b3: State, b4: State, b5: State, head: nat)
    requires Wf(b) && head == |b.blocks| && |b2.blocks| == head + 3 && b2.current == head
    requires Untouched(b, b2, b.current) && Open(b2) == (Open(b) - {b.current}) + Fresh(b, 3)
    requires Seg(b2, b3) && Wf(b4) && Untouched(b3, b4, b3.current) && Open(b4) == Open(b3) - {b3.current}
    requires Fill(b4, b5, head + 1)
    ensures Open(b5) == (Open(b) - {b.current}) + {head + 2}
    ensures Untouched(b, b5, b.current)
  {
    assert Fresh(b, 3) == {head, head + 1, head + 2};
    assert Open(b4) == Open(b2) - {head} by {
      assert Open(b3) - {b3.current} == Open(b2) - {head};
    }
    forall i | 0 <= i < |b.blocks| && i != b.current ensures b5.blocks[i] == b.blocks[i] {
      assert i != b3.current && i != head;
    }
  }

  /** The blocks of a match are allocated and its tests emitted. */
  ghost predicate TestsEmitted(env: Env, tree: Tree, b2: State, n: nat, b4: State) {
    var merge := |b2.blocks|;
    match LowerTree(env, NewBlocks(b2, n + 2), tree, BlockIds(merge + 1, n), merge + 1 + n)
    case None => false
    case Some(b) => b == b4
  }

  /** The states a match goes through, from the spilled scrutinee on. */
  ghost predicate MatchSteps(env: Env, st: Stmt, tree: Tree, l1: Low, b2: State, b4: State, l5: Low, b7: State,
                             b8: State)
    requires st.Match? && Typed(st)
  {
    var (merge, n) := (|b2.blocks|, |st.arms|);
    && TestsEmitted(env, tree, b2, n, b4)
    && BuildArms(env, l1.(b := b4), st.arms, BlockIds(merge + 1, n), merge) == Some(l5)
    && MatchEnded(l5.b, n, merge, b7, b8)
  }

  /** The diverging block is closed and the join entered. */
  ghost predicate MatchEnded(b5: State, n: nat, merge: nat, b7: State, b8: State) {
    match SwitchTo(b5, merge + 1 + n)
    case None => false
    case Some(b6) => TerminateWith(b6, M.Diverge) == Some(b7) && SwitchTo(b7, merge) == Some(b8)
  }

  lemma LowerDecisionTreeSteps(env: Env, l1: Low, b2: State, tree: Tree, st: Stmt)
    returns (b4: State, l5: Low, b7: State, b8: State)
    requires st.Match? && Typed(st)
    requires LowerDecisionTree(env, l1.(b := NewBlock(b2)), tree, st.arms, |b2.blocks|).Some?
    ensures MatchSteps(env, st, tree, l1, b2, b4, l5, b7, b8)
    ensures LowerDecisionTree(env, l1.(b := NewBlock(b2)), tree, st.arms, |b2.blocks|) == Some(l5.(b := b8))
  {
    var (merge, n) := (|b2.blocks|, |st.arms|);
    MatchBlocks(b2, n);
    b4 := LowerTree(env, NewBlocks(b2, n + 2), tree, BlockIds(merge + 1, n), merge + 1 + n).value;
    l5 := BuildArms(env, l1.(b := b4), st.arms, BlockIds(merge + 1, n), merge).value;
    b7 := TerminateWith(SwitchTo(l5.b, merge + 1 + n).value, M.Diverge).value;
    b8 := SwitchTo(b7, merge).value;
  }

  lemma BuildMatchSteps(env: Env, l: Low, st: Stmt)
    returns (l1: Low, o: M.Operand, b2: State, place: Place, tree: Tree, b4: State, l5: Low, b7: State, b8: State)
    requires st.Match? && Typed(st) && BuildMatch(env, l, st).Some?
    ensures BuildSetup(env, l, st.scrut) == Some((l1, o)) && SpillOperand(l1.b, o) == Some((b2, place))
    ensures ArmsTyped(st.arms, place.ty) && MatrixOk(MatchMatrix(place, st.arms))
    ensures tree == Compile(MatchMatrix(place, st.arms))
    ensures MatchSteps(env, st, tree, l1, b2, b4, l5, b7, b8)
    ensures BuildMatch(env, l, st) == Some(l5.(b := b8))
  {
    var r := BuildSetup(env, l, st.scrut).value;
    l1, o := r.0, r.1;
    var r2 := SpillOperand(l1.b, o).value;
    b2, place := r2.0, r2.1;
    MatchMatrixOk(place, st.arms);
    tree := Compile(MatchMatrix(place, st.arms));
    b4, l5, b7, b8 := LowerDecisionTreeSteps(env, l1, b2, tree, st);
  }

  lemma {:induction false} BuildMatchSeg(env: Env, l: Low, st: Stmt)
    requires st.Match? && Typed(st) && LowWf(l) && BuildMatch(env, l, st).Some?
    ensures var l' := BuildMatch(env, l, st).value; LowWf(l') && Seg(l.b, l'.b)
    decreases st, 1
  {
    var l1, o, b2, place, tree, b4, l5, b7, b8 := BuildMatchSteps(env, l, st);
    BuildSetupSeg(env, l, st.scrut);
    SpillOperandSeg(l1.b, o);
    SegTrans(l.b, l1.b, b2);
    MatchStepsSeg(env, l, st, tree, l1, b2, b4, l5, b7, b8);
  }

  lemma {:induction false} MatchStepsSeg(env: Env, l: Low, st: Stmt, tree: Tree, l1: Low, b2: State, b4: State, l5: Low,
                                         b7: State, b8: State)
    requires st.Match? && Typed(st) && MatchSteps(env, st, tree, l1, b2, b4, l5, b7, b8)
    requires LowWf(l1) && Seg(l1.b, b2) && Seg(l.b, b2)
    ensures LowWf(l5.(b := b8)) && Seg(l.b, b8)
    decreases st, 0, 2
  {
    MatchFills(env, st, tree, l1, b2, b4, l5, b7, b8);
    MatchJoined(l, |st.arms|, b2, b4, l5, b7, b8);
  }

  /** The blocks of a match: what its tests and its arms filled, and the way to the join. */
  ghost predicate MatchFilled(b2: State, n: nat, b4: State, b5: State, b7: State, b8: State) {
    match SwitchTo(b5, |b2.blocks| + 1 + n)
    case None => false
    case Some(b6) =>
      && Fill(NewBlocks(b2, n + 2), b4, b2.current) && |b4.blocks| >= |b2.blocks| + n + 2
      && FillAll(b4, b5, Elements(BlockIds(|b2.blocks| + 1, n)))
      && TerminateWith(b6, M.Diverge) == Some(b7)
      && SwitchTo(b7, |b2.blocks|) == Some(b8)
  }

  lemma {:induction false} MatchFills(env: Env, st: Stmt, tree: Tree, l1: Low, b2: State, b4: State, l5: Low, b7: State,
                                      b8: State)
    requires st.Match? && Typed(st) && LowWf(l1) && Seg(l1.b, b2)
    requires MatchSteps(env, st, tree, l1, b2, b4, l5, b7, b8)
    ensures LowWf(l1.(b := b4)) && LowWf(l5) && MatchFilled(b2, |st.arms|, b4, l5.b, b7, b8)
    decreases st, 0, 1
  {
    MatchTreeDone(env, b2, |st.arms|, tree, b4);
    MatchArmsFilled(env, st, l1, b2, b4, l5);
    AllFilled(b2, |st.arms|, b4, l5.b, b7, b8);
  }

  lemma AllFilled(b2: State, n: nat, b4: State, b5: State, b7: State, b8: State)
    requires TreeFilled(b2, n, b4) && FillAll(b4, b5, Elements(BlockIds(|b2.blocks| + 1, n)))
    requires MatchEnded(b5, n, |b2.blocks|, b7, b8)
    ensures MatchFilled(b2, n, b4, b5, b7, b8)
  {
  }

  ghost predicate TreeFilled(b2: State, n: nat, b4: State) {
    match b4
    case State(blocks, _, _, _) =>
      Wf(b4) && Fill(NewBlocks(b2, n + 2), b4, b2.current) && |blocks| >= |b2.blocks| + n + 2
  }

  lemma MatchTreeDone(env: Env, b2: State, n: nat, tree: Tree, b4: State)
    requires Wf(b2)
    requires LowerTree(env, NewBlocks(b2, n + 2), tree, BlockIds(|b2.blocks| + 1, n), |b2.blocks| + 1 + n) == Some(b4)
    ensures TreeFilled(b2, n, b4)
  {
    MatchTreeFilled(env, b2, n, tree, b4);
  }

  lemma {:induction false} MatchArmsFilled(env: Env, st: Stmt, l1: Low, b2: State, b4: State, l5: Low)
    requires st.Match? && Typed(st) && LowWf(l1) && Wf(b4) && |l1.b.blocks| <= |b4.blocks|
             && |b2.blocks| + |st.arms| + 2 <= |b4.blocks|
    requires BuildArms(env, l1.(b := b4), st.arms, BlockIds(|b2.blocks| + 1, |st.arms|), |b2.blocks|) == Some(l5)
    ensures LowWf(l1.(b := b4)) && LowWf(l5) && FillAll(b4, l5.b, Elements(BlockIds(|b2.blocks| + 1, |st.arms|)))
    decreases st, 0, 0
  {
    LoopsGrow(l1, b4);
    BuildArmsFill(env, l1.(b := b4), st.arms, BlockIds(|b2.blocks| + 1, |st.arms|), |b2.blocks|);
  }

  lemma LoopsGrow(l: Low, b: State)
    requires LowWf(l) && Wf(b) && |l.b.blocks| <= |b.blocks|
    ensures LowWf(l.(b := b))
  {
  }

  lemma MatchTreeFilled(env: Env, b2: State, n: nat, tree: Tree, b4: State)
    requires Wf(b2)
    requires LowerTree(env, NewBlocks(b2, n + 2), tree, BlockIds(|b2.blocks| + 1, n), |b2.blocks| + 1 + n) == Some(b4)
    ensures Fill(NewBlocks(b2, n + 2), b4, b2.current) && |b4.blocks| >= |b2.blocks| + n + 2
  {
    NewBlocksKeep(b2, n + 2);
    MatchTreeFill(env, NewBlocks(b2, n + 2), tree, BlockIds(|b2.blocks| + 1, n), |b2.blocks| + 1 + n);
  }

  /** Closing the diverging block and going to the join. */
  lemma MatchTail(b5: State, diverge: nat, merge: nat, b7: State, b8: State)
    requires Wf(b5) && diverge < |b5.blocks| && merge in Open(b5) && merge != diverge
    requires SwitchTo(b5, diverge).Some? && TerminateWith(SwitchTo(b5, diverge).value, M.Diverge) == Some(b7)
    requires SwitchTo(b7, merge) == Some(b8)
    ensures Wf(b8) && Grow(b5, b8) && Untouched(b5, b8, diverge) && b8.current == merge
    ensures Open(b8) == Open(b5) - {diverge} && |b8.blocks| == |b5.blocks|
    ensures b8.blocks[diverge].stmts == b5.blocks[diverge].stmts && b8.blocks[diverge].terminator == M.Diverge
  {
    var b6 := SwitchTo(b5, diverge).value;
    SwitchKeeps(b5, diverge);
    TerminateKeeps(b6, M.Diverge);
    GrowTrans(b5, b6, b7);
    JoinAt(b7, b8, merge);
    GrowTrans(b5, b7, b8);
  }

  lemma MatchJoined(l: Low, n: nat, b2: State, b4: State, l5: Low, b7: State, b8: State)
    requires Seg(l.b, b2) && LowWf(l5) && MatchFilled(b2, n, b4, l5.b, b7, b8)
    ensures LowWf(l5.(b := b8)) && Seg(l.b, b8)
  {
    MatchSides(b2, n, b4, l5.b);
    MatchTail(l5.b, |b2.blocks| + 1 + n, |b2.blocks|, b7, b8);
    MatchRejoins(l.b, b2, n, l5.b, b8);
  }

  /** After the arms: the join and the diverging block are what is left open. */
  lemma MatchSides(b2: State, n: nat, b4: State, b5: State)
    requires Wf(b2) && Fill(NewBlocks(b2, n + 2), b4, b2.current)
             && FillAll(b4, b5, Elements(BlockIds(|b2.blocks| + 1, n)))
    ensures Open(b5) == (Open(b2) - {b2.current}) + {|b2.blocks|, |b2.blocks| + 1 + n}
    ensures Untouched(b2, b5, b2.current) && Grow(b2, b5) && Wf(b5) && |b2.blocks| + 1 + n < |b5.blocks|
  {
    var b3 := NewBlocks(b2, n + 2);
    NewBlocksKeep(b2, n + 2);
    MatchOpen(b2, n, b3, b4, b5, BlockIds(|b2.blocks| + 1, n));
    GrowTrans(b2, b3, b4);
    GrowTrans(b2, b4, b5);
  }

  lemma MatchRejoins(b: State, b2: State, n: nat, b5: State, b8: State)
    requires Seg(b, b2) && Wf(b8) && Grow(b2, b5) && Grow(b5, b8) && Untouched(b2, b5, b2.current)
    requires Open(b5) == (Open(b2) - {b2.current}) + {|b2.blocks|, |b2.blocks| + 1 + n}
    requires Untouched(b5, b8, |b2.blocks| + 1 + n) && b8.current == |b2.blocks|
    requires Open(b8) == Open(b5) - {|b2.blocks| + 1 + n}
    ensures Seg(b, b8)
  {
    GrowTrans(b2, b5, b8);
    OpenSpec(b2, |b2.blocks| + 1 + n);
    JoinSeg(b, b2, b8, |b2.blocks|);
  }

  lemma MatchBlocks(b: State, n: nat)
    ensures NewBlock(NewBlocks(NewBlock(b), n)) == NewBlocks(b, n + 2)
  {
    assert NewBlock(NewBlocks(NewBlock(b), n)).blocks == NewBlocks(b, n + 2).blocks;
  }

  lemma ClosedLowersOnlyFail(env: Env, b: State, t: Tree, bbs: seq<nat>, diverge: nat)
    requires Wf(b) && Closed(b) && IdsIn(bbs, |b.blocks|) && diverge < |b.blocks|
    requires LowerTree(env, b, t, bbs, diverge).Some?
    ensures t.Fail?
  {
    if t.Switch? && !t.place.ty.EnumT? {
      LowerCasesKeep(env, b, t.cases, bbs, diverge, false);
      var (b1, branches) := LowerCases(env, b, t.cases, bbs, diverge, false).value;
      if t.default.Some? {
        FreshSwitch(b1);
        var b2 := SwitchTo(NewBlock(b1), |b1.blocks|).value;
        LowerTreeFill(env, b2, t.default.value, bbs, diverge);
      }
    }
  }

  /** A match in a dead, already closed position is impossible unless its tree is Fail. */
  lemma MatchTreeFill(env: Env, b: State, t: Tree, bbs: seq<nat>, diverge: nat)
    requires Wf(b) && IdsIn(bbs, |b.blocks|) && diverge < |b.blocks|
    requires LowerTree(env, b, t, bbs, diverge).Some?
    ensures Fill(b, LowerTree(env, b, t, bbs, diverge).value, b.current)
  {
    if !Closed(b) {
      LowerTreeFill(env, b, t, bbs, diverge);
    } else {
      ClosedLowersOnlyFail(env, b, t, bbs, diverge);
    }
  }

  lemma MatchOpen(b: State, n: nat, b3: State, b4: State, b5: State, bbs: seq<nat>)
    requires Wf(b) && b3 == NewBlocks(b, n + 2) && Open(b3) == Open(b) + Fresh(b, n + 2)
    requires Fill(b3, b4, b3.current) && FillAll(b4, b5, Elements(bbs)) && bbs == BlockIds(|b.blocks| + 1, n)
    ensures Open(b5) == (Open(b) - {b.current}) + {|b.blocks|, |b.blocks| + 1 + n}
    ensures Untouched(b, b5, b.current)
  {
    var merge := |b.blocks|;
    forall i ensures i in Elements(bbs) <==> merge + 1 <= i < merge + 1 + n {
      if merge + 1 <= i < merge + 1 + n {
        assert bbs[i - merge - 1] == i;
      }
    }
    forall i | 0 <= i < |b.blocks| && i != b.current ensures b5.blocks[i] == b.blocks[i] {
      assert b3.blocks[i] == b.blocks[i];
    }
  }

  lemma {:induction false} BuildStmtSeg(env: Env, l: Low, st: Stmt)
    requires Typed(st) && LowWf(l) && BuildStmt(env, l, st).Some?
    ensures var l' := BuildStmt(env, l, st).value; LowWf(l') && Seg(l.b, l'.b)
    decreases st, 4
  {
    match st
    case Body(stmts) => BuildStmtsSeg(env, l, stmts);
    case If(_, _, _) => BuildIfSeg(env, l, st);
    case While(_, _, _) => BuildWhileSeg(env, l, st);
    case Match(_, _) => BuildMatchSeg(env, l, st);
    case _ => BuildSimpleSeg(env, l, st);
  }

  lemma BuildSimpleSeg(env: Env, l: Low, st: Stmt)
    requires !st.Body? && !st.If? && !st.While? && !st.Match?
    requires Typed(st) && LowWf(l) && BuildStmt(env, l, st).Some?
    ensures var l' := BuildStmt(env, l, st).value; LowWf(l') && Seg(l.b, l'.b)
  {
    match st
    case Let(x, init) => StoreSeg(env, l.b, init, PlaceOfLocal(l.b, x).value, BuildStmt(env, l, st).value.b);
    case Assign(place, rhs) => StoreSeg(env, l.b, rhs, place, BuildStmt(env, l, st).value.b);
    case ReturnS(None) => ReturnSeg(l.b, M.Return(None), BuildStmt(env, l, st).value.b);
    case ReturnS(Some(e)) => ReturnExprSeg(env, l.b, e, BuildStmt(env, l, st).value.b);
    case Break(scope) => JumpSeg(l.b, l.ends[scope]);
    case Continue(scope) => JumpSeg(l.b, l.begins[scope]);
    case ExprS(e) => ExprStmtSeg(env, l.b, e, BuildStmt(env, l, st).value.b);
    case ErrorS => SegRefl(l.b);
  }

  lemma StoreSeg(env: Env, b: State, e: Expr, dest: Place, b': State)
    requires Wf(b) && BuildRValue(env, b, e).Some?
    requires Emit(BuildRValue(env, b, e).value.0, M.AssignTo(dest, BuildRValue(env, b, e).value.1)) == Some(b')
    ensures Seg(b, b') && !Closed(b')
  {
    BuildRValueSeg(env, b, e);
    var (b1, rv) := BuildRValue(env, b, e).value;
    EmitSeg(b1, M.AssignTo(dest, rv));
    SegTrans(b, b1, b');
  }

  lemma ExprStmtSeg(env: Env, b: State, e: Expr, b': State)
    requires Wf(b) && BuildRValue(env, b, e).Some?
    requires SpillRValue(BuildRValue(env, b, e).value.0, BuildRValue(env, b, e).value.1, TypeOf(e)) == Some(b')
    ensures Seg(b, b') && (Closed(b') ==> Closed(b))
  {
    BuildRValueSeg(env, b, e);
    var (b1, rv) := BuildRValue(env, b, e).value;
    SpillRValueSeg(b1, rv, TypeOf(e));
    SegTrans(b, b1, b');
  }

  lemma ReturnExprSeg(env: Env, b: State, e: Expr, b': State)
    requires Wf(b) && BuildOperand(env, b, e).Some?
    requires var (b1, o) := BuildOperand(env, b, e).value;
             TerminateWith(b1, M.Return(Some(o))).Some?
               && SwitchTo(NewBlock(TerminateWith(b1, M.Return(Some(o))).value), |b1.blocks|) == Some(b')
    ensures Seg(b, b') && !Closed(b')
  {
    BuildOperandSeg(env, b, e);
    var (b1, o) := BuildOperand(env, b, e).value;
    ReturnSeg(b1, M.Return(Some(o)), b');
    SegTrans(b, b1, b');
  }

  lemma JumpSeg(b: State, target: nat)
    requires Wf(b) && target < |b.blocks| && Goto(b, target).Some?
    ensures Seg(b, Goto(b, target).value) && Closed(Goto(b, target).value)
  {
    TerminateKeeps(b, M.Goto(target));
  }

  lemma ReturnSeg(b: State, t: M.Terminator, b2: State)
    requires Wf(b) && t.Return? && TerminateWith(b, t).Some?
    requires SwitchTo(NewBlock(TerminateWith(b, t).value), |b.blocks|) == Some(b2)
    ensures Seg(b, b2) && !Closed(b2)
  {
    var b1 := TerminateWith(NewBlock(b), t).value;
    assert NewBlock(TerminateWith(b, t).value) == b1;
    FreshSeg(b, t, b1, b2);
  }

  // ----- whole functions -----

  /**
   * Whenever the lowering of a function does not panic on a closed block, every
   * block it allocated is terminated, finalize succeeds, and every jump of every
   * block leads to an allocated block.
   */
  lemma EveryBlockClosed(env: Env, f: Function)
    requires AllTyped(f.root)
    requires BuildStmts(env, Low(State([EMPTY_BLOCK], 0, {}, f.locals), map[], map[]), f.root).Some?
    ensures LowerFunction(env, f).Some?
    ensures var g := LowerFunction(env, f).value.blocks;
            g != [] && forall i :: 0 <= i < |g| ==> TargetsIn(g[i].terminator, |g|)
  {
    var l := Low(State([EMPTY_BLOCK], 0, {}, f.locals), map[], map[]);
    assert Open(l.b) == {0};
    BuildStmtsSeg(env, l, f.root);
    var l' := BuildStmts(env, l, f.root).value;
    var b := if Closed(l'.b) then l'.b else TerminateWith(l'.b, if f.isVoid then M.Return(None) else M.Diverge).value;
    if !Closed(l'.b) {
      TerminateKeeps(l'.b, if f.isVoid then M.Return(None) else M.Diverge);
    }
    assert Open(l'.b) - {l'.b.current} == {};
    OpenSpec(l'.b, l'.b.current);
    AllFinalized(b);
  }

  lemma AllFinalized(b: State)
    requires Wf(b) && Open(b) == {}
    ensures Finalize(b) == Some(M.Graph(b.blocks, b.locals))
    ensures forall i :: 0 <= i < |b.blocks| ==> TargetsIn(b.blocks[i].terminator, |b.blocks|)
  {
    forall i: nat | i < |b.blocks| ensures i in b.finalized {
      OpenSpec(b, i);
    }
    CountIds(b.finalized, |b.blocks|);
  }

  /** Finalize goes through if and only if no allocated block is open. */
  lemma FinalizeExact(b: State)
    requires Wf(b)
    ensures Finalize(b).Some? <==> Open(b) == {}
    ensures Finalize(b).Some? ==> Finalize(b).value == M.Graph(b.blocks, b.locals)
  {
    if Open(b) == {} {
      AllFinalized(b);
    } else {
      var i: nat :| i in Open(b);
      CountBelow(b.finalized, |b.blocks|, i);
    }
  }

  /** Fewer than n numbers are below n if one of them is missing. */
  lemma {:induction false} CountBelow(s: set<nat>, n: nat, missing: nat)
    requires missing < n && missing !in s && forall i: nat :: i in s ==> i < n
    ensures |s| < n
  {
    var last := n - 1;
    if last == missing {
      CountAtMost(s, last);
    } else {
      CountBelow(s - {last}, last, missing);
      assert last in s ==> |s - {last}| == |s| - 1;
      assert last !in s ==> s - {last} == s;
    }
  }

  lemma {:induction false} CountAtMost(s: set<nat>, n: nat)
    requires forall i: nat :: i in s ==> i < n
    ensures |s| <= n
  {
    if n == 0 {
      assert s == {};
    } else {
      CountAtMost(s - {n - 1}, n - 1);
      assert n - 1 in s ==> |s - {n - 1}| == |s| - 1;
      assert n - 1 !in s ==> s - {n - 1} == s;
    }
  }

  lemma {:induction false} CountIds(s: set<nat>, n: nat)
    requires forall i: nat :: i in s <==> i < n
    ensures |s| == n
  {
    if n > 0 {
      CountIds(s - {n - 1}, n - 1);
    }
  }
}
