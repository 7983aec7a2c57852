/** Running the blocks of a match, given how the bodies of its arms run. */
module MatchSim {
  import opened Core
  import opened Patterns
  import opened MatchCompiler
  import opened MatchCompilerSteps
  import DT = DecisionTree
  import M = Mir
  import opened Thir
  import opened Builder
  import opened Lowering
  import opened LoweringShape
  import opened LoweringSim
  import opened TreeSim
  import opened Scoping
  import opened StmtSim
  import opened LoopSim

  lemma SimSpillOperand(w: World, b: State, o: M.Operand, b2: State, place: Place, v: Value, t: M.Store)
    returns (n: nat, t2: M.Store)
    requires Wf(b) && SpillOperand(b, o) == Some((b2, place)) && Fits(b2, w.g)
    requires OperandBelow(o, |b.locals|) && M.EvalOperand(t, o) == Some(v)
    ensures b2.current < |b2.blocks| && M.Run(w.g, w.m, Pos(b, t), n) == Pos(b2, t2)
    ensures Same(t, t2, |b.locals|) && M.ReadPlace(t2, place) == Some(v) && place.local < |b2.locals|
  {
    if o.Move? {
      n, t2 := 0, t;
    } else {
      var st := M.AssignTo(place, M.UseOf(o));
      var b1 := NewLocal(b, M.OperandTy(o));
      NewLocalSeg(b, M.OperandTy(o));
      EmitSeg(b1, st);
      t2 := t[|b.locals| := v];
      StepEmit(w, b1, st, b2, t, t2);
      assert Pos(b1, t) == Pos(b, t);
      ReadLocal(t2, |b.locals|, place.ty);
      n := 1;
    }
  }

  /** The state after a match. */
  ghost predicate MatchEnd(merge: nat, b8: State) {
    b8.current == merge && merge < |b8.blocks| && b8.blocks[merge] == EMPTY_BLOCK && !Closed(b8)
  }

  ghost function MatchOutcome(w: World, st: Stmt, v: Value, s: M.Store, fuel: nat): Outcome
    requires st.Match?
  {
    var i := Select(st.arms, v);
    if i == |st.arms| then Outcome(Diverges, s)
    else ExecAll(w.m, st.arms[i].body, BindAll(Binds(st.arms[i].pat, v), s), fuel)
  }

  lemma MatchGoesOn(w: World, l: Low, st: Stmt, l': Low, start: M.Config, n: nat, c: M.Config, j: nat, c2: M.Config,
                    v: Value, s: M.Store, active: set<nat>, fuel: nat)
    requires st.Match? && M.Run(w.g, w.m, start, n) == c && M.Run(w.g, w.m, c, j) == c2
    requires var r := ExecAll(w.m, st.scrut.stmts, s, fuel);
             Reaches(w, r, st.scrut.expr) && EvalExpr(w.m, r.store, st.scrut.expr).v == v
               && HasType(v, TypeOf(st.scrut.expr))
             && StmtPost(w, MatchOutcome(w, st, v, r.store, fuel), l, l', active, fuel, j, c2)
    ensures M.Run(w.g, w.m, start, n + j) == c2
    ensures StmtPost(w, Exec(w.m, st, s, fuel), l, l', active, fuel, n + j, c2)
  {
    Chain(w, start, n, c, j, c2);
    var out := MatchOutcome(w, st, v, ExecAll(w.m, st.scrut.stmts, s, fuel).store, fuel);
    assert Exec(w.m, st, s, fuel) == out;
    MoreSteps(w, out, l, l', active, fuel, j, n + j, c2);
  }

  lemma MatchStops(w: World, l: Low, st: Stmt, l1: Low, l': Low, o: M.Operand, n: nat, c: M.Config, s: M.Store,
                   active: set<nat>, fuel: nat)
    requires st.Match?
    requires var r := ExecAll(w.m, st.scrut.stmts, s, fuel);
             !(Reaches(w, r, st.scrut.expr) && HasType(EvalExpr(w.m, r.store, st.scrut.expr).v, TypeOf(st.scrut.expr)))
             && SetupPost(w, r, st.scrut.expr, l, l1, o, active, fuel, n, c)
    ensures StmtPost(w, Exec(w.m, st, s, fuel), l, l', active, fuel, n, c)
  {
  }

  /** The arms bind distinct locals, none of them the one that holds the scrutinee. */
  ghost predicate BoundElsewhere(arms: seq<Arm>, local: nat) {
    forall i {:trigger arms[i]} :: 0 <= i < |arms| ==>
      Distinct(BinderLocals(arms[i].pat)) && local !in BinderLocals(arms[i].pat)
  }

  /** The selected branch is entered with the right store, and its scrutinee is still there. */
  lemma BranchEntered(arms: seq<Arm>, v: Value, o: WalkResult, local: nat, s: M.Store, pre: M.Store, users: nat)
    requires o.Matched? && local in pre && ArmAnswers(o, arms, pre[local], v)
    requires BindingsAt(o.bindings, local) && BoundElsewhere(arms, local) && Same(s, pre, users)
    ensures Avoids(o.bindings, local)
    ensures Same(BindAll(Binds(arms[Select(arms, v)].pat, v), s), Assigned(o.bindings, pre), users)
  {
    assert Distinct(BinderLocals(arms[Select(arms, v)].pat)) && local !in BinderLocals(arms[Select(arms, v)].pat);
    BranchStore(arms, v, o.bindings, local, s, pre, users);
  }

  /** What compiling the arms of a match promises about the tree. */
  ghost predicate Decides(tree: DT.Tree, place: Place, arms: seq<Arm>) {
    && TreeOk(tree, place.local, |arms|, LiteralsInRange)
    && forall root {:trigger Walk(tree, root)} ::
         Project(root, place.projs).Some? && HasType(Project(root, place.projs).value, place.ty) ==>
         ArmAnswers(Walk(tree, root), arms, root, Project(root, place.projs).value)
  }

  lemma CompileDecides(place: Place, arms: seq<Arm>)
    requires ArmsTyped(arms, place.ty) && ArmsKept(arms, place.ty)
    ensures DT.MatrixOk(MatchMatrix(place, arms)) && Decides(Compile(MatchMatrix(place, arms)), place, arms)
  {
    KeptAnywhere(place, arms);
    var tree := Compile(MatchMatrix(place, arms));
    CompileTreeOk(MatchMatrix(place, arms), place.local, |arms|, LiteralsInRange);
    forall root | Project(root, place.projs).Some? && HasType(Project(root, place.projs).value, place.ty)
      ensures ArmAnswers(Walk(tree, root), arms, root, Project(root, place.projs).value)
    {
      MatchWalk(place, arms, root, Project(root, place.projs).value);
    }
  }

  ghost predicate TestsReady(w: World, arms: seq<Arm>, place: Place, tree: DT.Tree, b2: State, b4: State, v: Value,
                             s: M.Store, t: M.Store)
  {
    && Wf(b2) && !Closed(b2) && Fits(b4, w.g) && Decides(tree, place, arms) && BoundElsewhere(arms, place.local)
    && LowerTree(w.env, NewBlocks(b2, |arms| + 2), tree, BlockIds(|b2.blocks| + 1, |arms|), |b2.blocks| + 1 + |arms|) ==
       Some(b4)
    && M.ReadPlace(t, place) == Some(v) && HasType(v, place.ty) && place.local < |b2.locals| && w.users <= |b2.locals|
    && Same(s, t, w.users)
  }

  lemma TreeStart(w: World, arms: seq<Arm>, place: Place, tree: DT.Tree, b2: State, b4: State, v: Value, s: M.Store,
                  t: M.Store)
    requires TestsReady(w, arms, place, tree, b2, b4, v, s, t)
    ensures ArmAnswers(Walk(tree, t[place.local]), arms, t[place.local], v)
    ensures TreeReady(w, NewBlocks(b2, |arms| + 2), tree, BlockIds(|b2.blocks| + 1, |arms|), |b2.blocks| + 1 + |arms|,
                      b4, t[place.local], place.local, t)
  {
    var o := Walk(tree, t[place.local]);
    NewBlocksKeep(b2, |arms| + 2);
    if o.Matched? {
      LeafAt(tree, t[place.local], place.local, |arms|);
      BranchEntered(arms, v, o, place.local, s, t, w.users);
    }
  }

  lemma {:induction false} LeafAt(tree: DT.Tree, root: Value, local: nat, branches: nat)
    requires TreeOk(tree, local, branches, LiteralsInRange) && Walk(tree, root).Matched?
    ensures BindingsAt(Walk(tree, root).bindings, local)
    decreases tree
  {
    if tree.Switch? {
      var head := Head(Project(root, tree.place.projs).value).value;
      SubTreeSmaller(tree, head);
      if FindCase(tree.cases, head).Some? {
        var i :| 0 <= i < |tree.cases| && tree.cases[i] == DT.Case(head, FindCase(tree.cases, head).value);
        LeafAt(tree.cases[i].tree, root, local, branches);
      } else {
        LeafAt(tree.default.value, root, local, branches);
      }
    }
  }

  /** The tests of a match: from the end of the scrutinee to the selected branch, its locals assigned. */
  lemma SimTests(w: World, arms: seq<Arm>, place: Place, tree: DT.Tree, b2: State, b4: State, v: Value, s: M.Store,
                 t: M.Store)
    returns (n: nat, c: M.Config)
    requires TestsReady(w, arms, place, tree, b2, b4, v, s, t)
    ensures M.Run(w.g, w.m, Pos(b2, t), n) == c
    ensures TestsPost(w, arms, |b2.blocks| + 1, v, s, c)
  {
    TreeStart(w, arms, place, tree, b2, b4, v, s, t);
    var b3 := NewBlocks(b2, |arms| + 2);
    assert Pos(b3, t) == Pos(b2, t);
    n, c := RunTests(w, arms, place.local, tree, b3, |b2.blocks| + 1, |b2.blocks| + 1 + |arms|, b4, v, s, t);
  }

  lemma RunTests(w: World, arms: seq<Arm>, local: nat, tree: DT.Tree, b3: State, first: nat, diverge: nat, b4: State,
                 v: Value, s: M.Store, t: M.Store)
    returns (n: nat, c: M.Config)
    requires LowerTree(w.env, b3, tree, BlockIds(first, |arms|), diverge) == Some(b4)
    requires local in t && TreeReady(w, b3, tree, BlockIds(first, |arms|), diverge, b4, t[local], local, t)
    requires ArmAnswers(Walk(tree, t[local]), arms, t[local], v)
    requires BoundElsewhere(arms, local) && Same(s, t, w.users) && w.users <= |b3.locals|
    ensures M.Run(w.g, w.m, Pos(b3, t), n) == c
    ensures TestsPost(w, arms, first, v, s, c)
  {
    var pre;
    n, c, pre := SimTree(w, b3, tree, BlockIds(first, |arms|), diverge, b4, t[local], local, t);
    var o := Walk(tree, t[local]);
    if o.Matched? {
      LeafAt(tree, t[local], local, |arms|);
    }
    TestsDone(w, arms, local, o, b3, first, v, s, t, pre, c);
  }

  ghost predicate TestsPost(w: World, arms: seq<Arm>, first: nat, v: Value, s: M.Store, c: M.Config) {
    var i := Select(arms, v);
    if i == |arms| then c == M.Done(M.Diverged, c.store) && Same(s, c.store, w.users)
    else c == M.At(first + i, 0, c.store) && Same(BindAll(Binds(arms[i].pat, v), s), c.store, w.users)
  }

  lemma TestsDone(w: World, arms: seq<Arm>, local: nat, o: WalkResult, b3: State, first: nat, v: Value, s: M.Store,
                  t: M.Store, pre: M.Store, c: M.Config)
    requires TreePost(o, b3, BlockIds(first, |arms|), t, pre, c)
    requires local in t && local < |b3.locals| && w.users <= |b3.locals| && Same(s, t, w.users)
    requires ArmAnswers(o, arms, t[local], v) && BoundElsewhere(arms, local)
    requires o.Matched? ==> BindingsAt(o.bindings, local)
    ensures TestsPost(w, arms, first, v, s, c)
  {
    if o.Matched? {
      SameTrans(s, t, pre, w.users, |b3.locals|);
      BranchEntered(arms, v, o, local, s, pre, w.users);
    } else {
      SameTrans(s, t, c.store, w.users, |b3.locals|);
    }
  }

  ghost function BranchRun(w: World, merge: nat, i: nat, t: M.Store, n: nat): M.Config {
    M.Run(w.g, w.m, M.At(merge + 1 + i, 0, t), n)
  }

  /** The body of branch i, run from its block with the pattern's locals assigned. */
  ghost predicate ArmRuns(w: World, arms: seq<Arm>, l: Low, merge: nat, active: set<nat>, fuel: nat, i: nat, s: M.Store,
                          t: M.Store)
    requires i < |arms|
  {
    exists n: nat ::
      IntoPost(w, ExecAll(w.m, arms[i].body, s, fuel), l, active, fuel, merge, n, BranchRun(w, merge, i, t, n))
  }

  ghost predicate AllArmsRun(w: World, arms: seq<Arm>, l: Low, merge: nat, active: set<nat>, fuel: nat) {
    forall i: nat, s, t {:trigger ArmRuns(w, arms, l, merge, active, fuel, i, s, t)} ::
      i < |arms| && Same(s, t, w.users) ==> ArmRuns(w, arms, l, merge, active, fuel, i, s, t)
  }

  /** From the end of the scrutinee the run reaches the branch that the value selects. */
  ghost predicate DispatchRuns(w: World, arms: seq<Arm>, b1: State, first: nat, v: Value, s: M.Store, t: M.Store) {
    b1.current < |b1.blocks| && exists n: nat :: TestsPost(w, arms, first, v, s, M.Run(w.g, w.m, Pos(b1, t), n))
  }

  ghost predicate Dispatches(w: World, arms: seq<Arm>, b1: State, o: M.Operand, ty: Ty, first: nat) {
    forall v, s, t {:trigger DispatchRuns(w, arms, b1, first, v, s, t)} ::
      M.EvalOperand(t, o) == Some(v) && HasType(v, ty) && Same(s, t, w.users) ==>
      DispatchRuns(w, arms, b1, first, v, s, t)
  }

  /** Spilling the scrutinee, then the tests. */
  lemma SimDispatch(w: World, arms: seq<Arm>, b1: State, o: M.Operand, place: Place, tree: DT.Tree, b2: State,
                    b4: State)
    requires Wf(b1) && Wf(b2) && !Closed(b2) && SpillOperand(b1, o) == Some((b2, place)) && Fits(b2, w.g)
             && Fits(b4, w.g)
    requires TestsEmitted(w.env, tree, b2, |arms|, b4)
    requires Decides(tree, place, arms) && BoundElsewhere(arms, place.local)
    requires OperandBelow(o, |b1.locals|) && w.users <= |b1.locals| <= |b2.locals|
    ensures Dispatches(w, arms, b1, o, place.ty, |b2.blocks| + 1)
  {
    forall v, s, t | M.EvalOperand(t, o) == Some(v) && HasType(v, place.ty) && Same(s, t, w.users)
      ensures DispatchRuns(w, arms, b1, |b2.blocks| + 1, v, s, t)
    {
      var k, t2 := SimSpillOperand(w, b1, o, b2, place, v, t);
      SameTrans(s, t, t2, w.users, |b1.locals|);
      var n, c := SimTests(w, arms, place, tree, b2, b4, v, s, t2);
      Chain(w, Pos(b1, t), k, Pos(b2, t2), n, c);
    }
  }

  /** From the value of the scrutinee on: the tests, then the branch they select. */
  lemma SimMatchRest(w: World, l: Low, st: Stmt, l': Low, b1: State, o: M.Operand, merge: nat, v: Value, s: M.Store,
                     t: M.Store, active: set<nat>, fuel: nat)
    returns (n: nat, c: M.Config)
    requires st.Match? && Dispatches(w, st.arms, b1, o, TypeOf(st.scrut.expr), merge + 1) && MatchEnd(merge, l'.b)
    requires AllArmsRun(w, st.arms, l, merge, active, fuel) && b1.current < |b1.blocks|
    requires M.EvalOperand(t, o) == Some(v) && HasType(v, TypeOf(st.scrut.expr)) && Same(s, t, w.users)
    ensures M.Run(w.g, w.m, Pos(b1, t), n) == c
    ensures StmtPost(w, MatchOutcome(w, st, v, s, fuel), l, l', active, fuel, n, c)
  {
    assert DispatchRuns(w, st.arms, b1, merge + 1, v, s, t);
    n :| TestsPost(w, st.arms, merge + 1, v, s, M.Run(w.g, w.m, Pos(b1, t), n));
    c := M.Run(w.g, w.m, Pos(b1, t), n);
    var j, c2 := SimBranch(w, l, st, l', merge, v, s, c, active, fuel);
    Then(w, MatchOutcome(w, st, v, s, fuel), l, l', active, fuel, Pos(b1, t), n, c, j, c2);
    n, c := n + j, c2;
  }

  lemma SimBranch(w: World, l: Low, st: Stmt, l': Low, merge: nat, v: Value, s: M.Store, c: M.Config, active: set<nat>,
                  fuel: nat)
    returns (j: nat, c2: M.Config)
    requires st.Match? && TestsPost(w, st.arms, merge + 1, v, s, c) && MatchEnd(merge, l'.b)
    requires AllArmsRun(w, st.arms, l, merge, active, fuel)
    ensures M.Run(w.g, w.m, c, j) == c2
    ensures StmtPost(w, MatchOutcome(w, st, v, s, fuel), l, l', active, fuel, j, c2)
  {
    var i := Select(st.arms, v);
    if i < |st.arms| {
      var s1 := BindAll(Binds(st.arms[i].pat, v), s);
      assert ArmRuns(w, st.arms, l, merge, active, fuel, i, s1, c.store);
      j :| IntoPost(w, ExecAll(w.m, st.arms[i].body, s1, fuel), l, active, fuel, merge, j,
                    BranchRun(w, merge, i, c.store, j));
      c2 := M.Run(w.g, w.m, c, j);
    } else {
      j, c2 := 0, c;
    }
  }

  /** From the end of the scrutinee on, whatever came of it. */
  lemma SimMatchFrom(w: World, l: Low, st: Stmt, l': Low, l1: Low, o: M.Operand, merge: nat, start: M.Config, k: nat,
                     c1: M.Config, s: M.Store, active: set<nat>, fuel: nat)
    returns (n: nat, c: M.Config)
    requires st.Match? && AllArmsRun(w, st.arms, l, merge, active, fuel) && MatchEnd(merge, l'.b)
             && M.Run(w.g, w.m, start, k) == c1
    requires SetupPost(w, ExecAll(w.m, st.scrut.stmts, s, fuel), st.scrut.expr, l, l1, o, active, fuel, k, c1)
    requires !Closed(l1.b) && OperandBelow(o, |l1.b.locals|) ==>
             Dispatches(w, st.arms, l1.b, o, TypeOf(st.scrut.expr), merge + 1)
    ensures M.Run(w.g, w.m, start, n) == c
    ensures StmtPost(w, Exec(w.m, st, s, fuel), l, l', active, fuel, n, c)
  {
    var r := ExecAll(w.m, st.scrut.stmts, s, fuel);
    if Reaches(w, r, st.scrut.expr) && HasType(EvalExpr(w.m, r.store, st.scrut.expr).v, TypeOf(st.scrut.expr)) {
      var v := EvalExpr(w.m, r.store, st.scrut.expr).v;
      var j, c2 := SimMatchRest(w, l, st, l', l1.b, o, merge, v, r.store, c1.store, active, fuel);
      MatchGoesOn(w, l, st, l', start, k, c1, j, c2, v, s, active, fuel);
      n, c := k + j, c2;
    } else {
      MatchStops(w, l, st, l1, l', o, k, c1, s, active, fuel);
      n, c := k, c1;
    }
  }
}
