/** Lowering a function preserves its meaning, whether it returns, diverges or loops forever. */
module LoweringCorrect {
  import opened Core
  import opened Patterns
  import M = Mir
  import opened Thir
  import opened Builder
  import opened Lowering
  import opened LoweringShape
  import opened LoweringSim
  import opened Scoping
  import opened StmtSim
  import opened BodySim
  import opened TreeTags
  import Flow

  /** How a call of the function ends, if executing its body with this much fuel tells. */
  ghost function ResultOf(f: Function, out: Outcome): Option<M.Result> {
    match out.exit
    case Ret(v) => Some(M.Returned(v))
    case Diverges => Some(M.Diverged)
    case Normal => Some(if f.isVoid then M.Returned(None) else M.Diverged)
    case _ => None
  }

  ghost predicate FunctionOk(f: Function) {
    AllTyped(f.root) && AllScoped(f.root, |f.locals|, {})
  }

  function StartOf(f: Function): Low {
    Low(State([EMPTY_BLOCK], 0, {}, f.locals), map[], map[])
  }

  // ----- when lowering succeeds -----

  /**
   * For well-scoped functions lowering goes through, with every block closed and finalize
   * succeeding, exactly when the reading of the body finds no write to a closed block and
   * every enum that the tree of a match switches on has a tag the lowering reads.
   */
  lemma LoweringSucceeds(env: Env, f: Function)
    requires FunctionOk(f)
    ensures LowerFunction(env, f).Some? <==>
              Flow.AfterAll(env, f.root, false).Some? && Flow.AllTagged(f.root, env.target)
  {
    Flow.StmtsAfter(env, StartOf(f), f.root, |f.locals|, {});
    if BuildStmts(env, StartOf(f), f.root).Some? {
      EveryBlockClosed(env, f);
    }
  }

  /** When nothing follows a break or a continue in its sequence, the tags alone decide. */
  lemma TidyFunctionsLower(env: Env, f: Function)
    requires FunctionOk(f) && Flow.AllTidy(f.root)
    ensures LowerFunction(env, f).Some? <==> Flow.AllTagged(f.root, env.target)
    ensures LowerFunction(env, f).Some? ==>
              forall i :: 0 <= i < |LowerFunction(env, f).value.blocks| ==>
                TargetsIn(LowerFunction(env, f).value.blocks[i].terminator, |LowerFunction(env, f).value.blocks|)
  {
    Flow.AllTidyAfter(env, f.root);
    LoweringSucceeds(env, f);
    if LowerFunction(env, f).Some? {
      EveryBlockClosed(env, f);
    }
  }

  // ----- a match on an enum without payloads -----

  /** `enum Color { Red, Green }` */
  const COLOR := EnumT([Variant(UnitShape, []), Variant(UnitShape, [])])

  /** `fn f(c: Color) { match c { Red => {}, _ => {} } }` */
  function ColorMatch(): Function {
    Function([COLOR], true,
             [Match(Setup([], Use(Place(0, [], COLOR))), [Arm(CtorPat(0, UnitShape, []), []), Arm(Any, [])])])
  }

  /** Such an enum is its tag, which the lowering of a match does not read. */
  lemma PlainEnumPanics(env: Env)
    ensures FunctionOk(ColorMatch()) && LowerFunction(env, ColorMatch()).None?
  {
    ColorMatchOk();
    ColorUnread(env.target);
    assert !Flow.Tagged(ColorMatch().root[0], env.target);
    LoweringSucceeds(env, ColorMatch());
  }

  lemma ColorMatchOk()
    ensures FunctionOk(ColorMatch()) && ArmsTyped(ColorMatch().root[0].arms, COLOR)
  {
    var st := ColorMatch().root[0];
    assert PatOk(st.arms[0].pat, COLOR) && PatOk(st.arms[1].pat, COLOR);
    assert ArmsTyped(st.arms, COLOR);
    assert Typed(st);
    assert ArmScoped(st.arms[0], st.scrut.expr, 1) && ArmScoped(st.arms[1], st.scrut.expr, 1);
    assert Scoped(st, 1, {});
  }

  lemma ColorUnread(target: IntWidth)
    requires ArmsTyped(ColorMatch().root[0].arms, COLOR)
    ensures !TreeTagged(MatchTree(ColorMatch().root[0].arms, COLOR), target)
  {
    NoPayload(target);
    TagReadable(COLOR.variants, target);
    FirstTestTagged(ColorMatch().root[0].arms, COLOR, target);
  }

  lemma NoPayload(target: IntWidth)
    ensures !HasPayload(COLOR.variants, target)
  {
  }

  // ----- meaning -----

  /** The final builder state of a successful lowering, and how the body's end reaches it. */
  lemma LastBlock(env: Env, f: Function, g: M.Graph) returns (l: Low, b: State)
    requires AllTyped(f.root) && LowerFunction(env, f) == Some(g)
    ensures BuildStmts(env, StartOf(f), f.root) == Some(l) && g == M.Graph(b.blocks, b.locals) && Wf(b)
    ensures LowWf(StartOf(f)) && LowWf(l) && Fits(l.b, g.blocks) && Fits(b, g.blocks)
    ensures if Closed(l.b) then b == l.b else TerminateWith(l.b, LastTerminator(f)) == Some(b)
  {
    l := BuildStmts(env, StartOf(f), f.root).value;
    BuildStmtsSeg(env, StartOf(f), f.root);
    if Closed(l.b) {
      b := l.b;
    } else {
      b := TerminateWith(l.b, LastTerminator(f)).value;
      TerminateKeeps(l.b, LastTerminator(f));
      FitsBack(l.b, b, g.blocks);
    }
  }

  function LastTerminator(f: Function): M.Terminator {
    if f.isVoid then M.Return(None) else M.Diverge
  }

  /** What the graph does when the structured body does `out` within `fuel`. */
  ghost predicate Follows(f: Function, out: Outcome, fuel: nat, n: nat, c: M.Config) {
    match out.exit
    case OutOfFuel => n >= fuel && c.At?
    case Broken => true
    case BreakTo(_) => false
    case ContinueTo(_) => false
    case _ => c.Done? && Some(c.result) == ResultOf(f, out) && Same(out.store, c.store, |f.locals|)
  }

  /**
   * For every input and every amount of fuel: the graph returns the value the body
   * returns, with the same values in all source locals, diverges when it diverges,
   * and is still running after `fuel` steps when the body runs out of fuel.
   */
  lemma LoweringSimulates(env: Env, f: Function, g: M.Graph, m: M.Machine, s: M.Store, fuel: nat)
    returns (n: nat, c: M.Config)
    requires FunctionOk(f) && AllKept(f.root) && LowerFunction(env, f) == Some(g)
    ensures M.Run(g.blocks, m, M.At(0, 0, s), n) == c
    ensures Follows(f, ExecAll(m, f.root, s, fuel), fuel, n, c)
  {
    var w := World(env, g.blocks, m, |f.locals|);
    var l, b := LastBlock(env, f, g);
    n, c := SimStmts(w, StartOf(f), f.root, l, s, s, {}, fuel);
    n, c := LastStep(w, f, ExecAll(m, f.root, s, fuel), l, b, M.At(0, 0, s), n, c, fuel);
  }

  /** A body that falls off its end leaves the function through the last terminator. */
  lemma LastStep(w: World, f: Function, out: Outcome, l: Low, b: State, start: M.Config, n1: nat, c1: M.Config,
                 fuel: nat)
    returns (n: nat, c: M.Config)
    requires M.Run(w.g, w.m, start, n1) == c1 && w.users == |f.locals|
    requires StmtPost(w, out, StartOf(f), l, {}, fuel, n1, c1)
    requires LowWf(l) && Wf(b) && Fits(b, w.g)
    requires if Closed(l.b) then b == l.b else TerminateWith(l.b, LastTerminator(f)) == Some(b)
    ensures M.Run(w.g, w.m, start, n) == c && Follows(f, out, fuel, n, c)
  {
    n, c := n1, c1;
    if out.exit == Normal {
      StepTerminate(w, l.b, LastTerminator(f), b, c.store);
      var c2 := M.Terminate(w.m, c.store, LastTerminator(f));
      Chain(w, start, n, c, 1, c2);
      n, c := n + 1, c2;
    }
  }

  // ----- both directions -----

  ghost predicate SourceEnds(f: Function, m: M.Machine, s: M.Store, r: M.Result) {
    exists fuel: nat :: ResultOf(f, ExecAll(m, f.root, s, fuel)) == Some(r)
  }

  ghost predicate GraphEnds(g: seq<M.Block>, m: M.Machine, s: M.Store, r: M.Result) {
    exists n: nat :: EndsIn(M.Run(g, m, M.At(0, 0, s), n), r)
  }

  predicate EndsIn(c: M.Config, r: M.Result) {
    c.Done? && c.result == r
  }

  /** Execution never reads an uninitialised or ill-typed place. */
  ghost predicate NeverBroken(f: Function, m: M.Machine, s: M.Store) {
    forall fuel: nat :: ExecAll(m, f.root, s, fuel).exit != Broken
  }

  /** The function and its graph end in the same results; in particular one loops forever iff the other does. */
  lemma LoweringPreservesMeaning(env: Env, f: Function, g: M.Graph, m: M.Machine, s: M.Store, r: M.Result)
    requires FunctionOk(f) && AllKept(f.root) && LowerFunction(env, f) == Some(g) && NeverBroken(f, m, s)
    ensures SourceEnds(f, m, s, r) <==> GraphEnds(g.blocks, m, s, r)
  {
    if SourceEnds(f, m, s, r) {
      var fuel: nat :| ResultOf(f, ExecAll(m, f.root, s, fuel)) == Some(r);
      var n, c := LoweringSimulates(env, f, g, m, s, fuel);
      assert EndsIn(M.Run(g.blocks, m, M.At(0, 0, s), n), r);
    }
    if GraphEnds(g.blocks, m, s, r) {
      var k: nat :| EndsIn(M.Run(g.blocks, m, M.At(0, 0, s), k), r);
      var n, c := LoweringSimulates(env, f, g, m, s, k);
      var out := ExecAll(m, f.root, s, k);
      assert out.exit != Broken;
      if out.exit == OutOfFuel {
        M.RunAdd(g.blocks, m, M.At(0, 0, s), k, n - k);
        M.DoneStays(g.blocks, m, M.Run(g.blocks, m, M.At(0, 0, s), k), n - k);
        assert false;
      }
      M.RunDeterministic(g.blocks, m, M.At(0, 0, s), k, n);
      assert ResultOf(f, out) == Some(r);
    }
  }

  /** Where both end, every local the source names holds the same value. */
  lemma LoweringPreservesStores(env: Env, f: Function, g: M.Graph, m: M.Machine, s: M.Store, fuel: nat, n: nat)
    requires FunctionOk(f) && AllKept(f.root) && LowerFunction(env, f) == Some(g)
    requires ResultOf(f, ExecAll(m, f.root, s, fuel)).Some? && M.Run(g.blocks, m, M.At(0, 0, s), n).Done?
    ensures Same(ExecAll(m, f.root, s, fuel).store, M.Run(g.blocks, m, M.At(0, 0, s), n).store, |f.locals|)
  {
    var k, c := LoweringSimulates(env, f, g, m, s, fuel);
    M.RunDeterministic(g.blocks, m, M.At(0, 0, s), k, n);
  }
}
