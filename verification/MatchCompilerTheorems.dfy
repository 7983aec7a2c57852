/** The theorems about match compilation. */
module MatchCompilerTheorems {
  import opened Core
  import opened Patterns
  import opened DecisionTree
  import opened MatchCompiler
  import opened Binders
  import opened MatchCompilerSteps

  // ----- the signature of a column lists each constructor once, in order -----

  lemma {:induction false} InsertIncreasing(s: seq<Constructor>, c: Constructor)
    requires Increasing(s)
    ensures Increasing(InsertCtor(s, c))
  {
    if s != [] && s[0] != c && !Before(c, s[0]) {
      InsertIncreasing(s[1..], c);
      var r := InsertCtor(s[1..], c);
      forall j | 0 <= j < |r| ensures Before(s[0], r[j]) {
        assert r[j] in r;
        if r[j] != c {
          var i :| 0 <= i < |s[1..]| && s[1..][i] == r[j];
          assert s[i + 1] == r[j];
        }
      }
    }
  }

  lemma {:induction false} SignatureIncreasing(rows: seq<Row>, col: nat)
    requires forall r :: 0 <= r < |rows| ==> col < |rows[r].cells|
    ensures Increasing(Signature(rows, col))
  {
    if rows != [] {
      SignatureIncreasing(rows[..|rows| - 1], col);
      match ConstructorOf(rows[|rows| - 1].cells[col])
      case None =>
      case Some(c) => InsertIncreasing(Signature(rows[..|rows| - 1], col), c);
    }
  }

  /** Variants by their index first, then literals by their value. */
  lemma SignatureOrder(rows: seq<Row>, col: nat, i: nat, j: nat)
    requires forall r :: 0 <= r < |rows| ==> col < |rows[r].cells|
    requires i < j < |Signature(rows, col)|
    ensures match (Signature(rows, col)[i], Signature(rows, col)[j])
            case (VariantC(k), VariantC(l)) => k < l
            case (IntC(m), IntC(n)) => m < n
            case (VariantC(_), IntC(_)) => true
            case _ => false
  {
    var sig := Signature(rows, col);
    SignatureIncreasing(rows, col);
    assert Before(sig[i], sig[j]);
    assert sig[i] in sig && sig[j] in sig;
  }

  lemma {:induction false} AtLeastIndex(sig: seq<Constructor>, i: nat)
    requires Increasing(sig) && i < |sig| && forall j :: 0 <= j < |sig| ==> sig[j].VariantC?
    ensures sig[i].idx >= i
  {
    if i > 0 {
      AtLeastIndex(sig, i - 1);
      assert Before(sig[i - 1], sig[i]);
    }
  }

  lemma {:induction false} AtMostIndex(sig: seq<Constructor>, n: nat, i: nat)
    requires Increasing(sig) && i < |sig| == n
    requires forall j :: 0 <= j < |sig| ==> sig[j].VariantC? && sig[j].idx < n
    ensures sig[i].idx <= i
    decreases n - i
  {
    if i + 1 < n {
      AtMostIndex(sig, n, i + 1);
      assert Before(sig[i], sig[i + 1]);
    }
  }

  /** Counting constructors is enough to know that every variant is covered. */
  lemma CountCovers(sig: seq<Constructor>, n: nat, k: nat)
    requires Increasing(sig) && |sig| == n && k < n
    requires forall j :: 0 <= j < |sig| ==> sig[j].VariantC? && sig[j].idx < n
    ensures VariantC(k) in sig
  {
    AtLeastIndex(sig, k);
    AtMostIndex(sig, n, k);
    assert sig[k] == VariantC(k);
  }

  // ----- leaves and cases -----

  lemma HeadTailBind(cells: seq<Cell>, vals: seq<Value>, b: (nat, Value))
    requires |cells| == |vals| > 0
    ensures CellsBind(cells, vals, b) <==> CellBinds(cells[0], vals[0], b) || CellsBind(cells[1..], vals[1..], b)
  {
    assert cells == [cells[0]] + cells[1..] && vals == [vals[0]] + vals[1..];
    CellsBindAppend([cells[0]], cells[1..], [vals[0]], vals[1..], b);
    assert CellsBind([cells[0]], [vals[0]], b) <==> CellBinds([cells[0]][0], [vals[0]][0], b);
  }

  lemma {:induction false} LeafRecords(cells: seq<Cell>, cols: seq<Place>, bindings: seq<Binding>, root: Value,
                                       vals: seq<Value>, b: (nat, Value))
    requires |cells| == |cols| && ColsAt(cols, root, vals) && AllWild(cells)
    ensures Recorded(LeafBindings(cells, cols, bindings), root, b) <==>
            Recorded(bindings, root, b) || CellsBind(cells, vals, b)
  {
    if cells != [] {
      var here := CellBindings(cells[0], cols[0]);
      assert ColsAt(cols[1..], root, vals[1..]);
      LeafRecords(cells[1..], cols[1..], bindings + here, root, vals[1..], b);
      RecordedAppend(bindings, here, root, b);
      CellBindingsRecord(cells[0], cols[0], root, vals[0], b);
      HeadTailBind(cells, vals, b);
    }
  }

  lemma {:induction false} LeafReadable(cells: seq<Cell>, cols: seq<Place>, bindings: seq<Binding>, root: Value)
    requires |cells| == |cols| && Readable(bindings, root)
    requires forall i :: 0 <= i < |cols| ==> Project(root, cols[i].projs).Some?
    ensures Readable(LeafBindings(cells, cols, bindings), root)
  {
    if cells != [] {
      LeafReadable(cells[1..], cols[1..], bindings + CellBindings(cells[0], cols[0]), root);
    }
  }

  /** The first of the cases to be compiled. */
  lemma FirstCase(m: Matrix, col: nat, sig: seq<Constructor>)
    requires SigFits(m, col, sig) && sig != []
    ensures ColumnFits(m, col, sig[0]) && MatrixOk(Specialize(m, col, sig[0])) && SigFits(m, col, sig[1..])
    ensures RowsSize(Specialize(m, col, sig[0]).rows) < RowsSize(m.rows)
    ensures CompileCases(m, col, sig) ==
            [Case(sig[0], Compile(Specialize(m, col, sig[0])))] + CompileCases(m, col, sig[1..])
  {
    assert sig[0] in sig;
    SpecializeShrinks(m, col, sig[0]);
    SpecializeOk(m, col, sig[0]);
  }

  lemma {:induction false} FindCompiledCase(m: Matrix, col: nat, sig: seq<Constructor>, c: Constructor)
    requires SigFits(m, col, sig)
    ensures c !in sig ==> FindCase(CompileCases(m, col, sig), c) == None
    ensures c in sig ==> ColumnFits(m, col, c) && MatrixOk(Specialize(m, col, c))
    ensures c in sig ==> FindCase(CompileCases(m, col, sig), c) == Some(Compile(Specialize(m, col, c)))
  {
    if sig != [] {
      assert sig[0] in sig;
      FindCompiledCase(m, col, sig[1..], c);
      if sig[0] == c {
        SpecializeOk(m, col, c);
      }
    }
  }

  /** The first row refutes something: col is the column the compiler picks. */
  ghost predicate Picks(m: Matrix, col: nat) {
    && MatrixOk(m) && m.rows != [] && !AllWild(m.rows[0].cells)
    && col == FirstRefutable(m.rows[0].cells)
  }

  lemma PicksColumn(m: Matrix, col: nat)
    requires Picks(m, col)
    ensures col < |m.cols| && CellOk(m.rows[0].cells[col], m.cols[col].ty) && !IsWild(m.rows[0].cells[col])
    ensures forall r :: 0 <= r < |m.rows| ==> col < |m.rows[r].cells| && CellShaped(m.rows[r].cells[col])
    ensures SigFits(m, col, Signature(m.rows, col))
  {
    assert RowOk(m.rows[0], m.cols);
    ColumnReady(m, col);
    SignatureFits(m, col);
  }

  // ----- what expansion forgets -----

  lemma TupleStep(m: Matrix, col: nat, root: Value, vals: seq<Value>)
    requires Picks(m, col) && ColsAt(m.cols, root, vals) && col < |m.cols| && Irrefutable(m.cols[col].ty)
    ensures RowsSize(Expand(m, col).rows) < RowsSize(m.rows) && MatrixOk(Expand(m, col))
    ensures ColsAt(Expand(m, col).cols, root, Splice(vals, col, SubValues(vals[col])))
  {
    PicksColumn(m, col);
    ExpandShrinks(m, col);
    ExpandOk(m, col);
    ExpandColsAt(m, col, root, vals);
  }

  lemma CaseStep(m: Matrix, col: nat, c: Constructor, root: Value, vals: seq<Value>)
    requires Picks(m, col) && ColsAt(m.cols, root, vals) && col < |m.cols| && Head(vals[col]) == Some(c)
    requires forall r :: 0 <= r < |m.rows| ==> col < |m.rows[r].cells|
    requires c in Signature(m.rows, col)
    ensures ColumnFits(m, col, c)
    ensures RowsSize(Specialize(m, col, c).rows) < RowsSize(m.rows) && MatrixOk(Specialize(m, col, c))
    ensures ColsAt(Specialize(m, col, c).cols, root, Splice(vals, col, SubValues(vals[col])))
  {
    SignatureFits(m, col);
    SpecializeShrinks(m, col, c);
    SpecializeOk(m, col, c);
    SpecializeColsAt(m, col, root, vals);
  }

  lemma DefaultStep(m: Matrix, col: nat, root: Value, vals: seq<Value>)
    requires Picks(m, col) && ColsAt(m.cols, root, vals) && col < |m.cols|
    ensures RowsSize(Default(m, col).rows) < RowsSize(m.rows) && MatrixOk(Default(m, col))
    ensures ColsAt(Default(m, col).cols, root, Splice(vals, col, []))
  {
    PicksColumn(m, col);
    DefaultShrinks(m, col);
    DefaultOk(m, col);
    SpliceColsAt(m.cols, root, vals, col, [], []);
  }

  /**
   * The bindings of the selected row that never reach the leaf: its whole-value
   * binder sat in a tuple column when that column was expanded.
   */
  ghost predicate Dropped(m: Matrix, root: Value, vals: seq<Value>, b: (nat, Value))
    requires MatrixOk(m) && ColsAt(m.cols, root, vals)
    decreases RowsSize(m.rows)
  {
    if m.rows == [] || AllWild(m.rows[0].cells) then false
    else
      var col := FirstRefutable(m.rows[0].cells);
      PicksColumn(m, col);
      var vals' := Splice(vals, col, SubValues(vals[col]));
      if Irrefutable(m.cols[col].ty) then
        TupleStep(m, col, root, vals);
        DroppedHere(First(m.rows, vals), col, vals, b) || Dropped(Expand(m, col), root, vals', b)
      else
        assert HasType(vals[col], m.cols[col].ty) && Head(vals[col]).Some?;
        var c := Head(vals[col]).value;
        if c in Signature(m.rows, col) then
          CaseStep(m, col, c, root, vals);
          Dropped(Specialize(m, col, c), root, vals', b)
        else
          DefaultStep(m, col, root, vals);
          Dropped(Default(m, col), root, Splice(vals, col, []), b)
  }

  ghost predicate RowsReadable(rows: seq<Row>, root: Value) {
    forall r {:trigger rows[r]} :: 0 <= r < |rows| ==> Readable(rows[r].bindings, root)
  }

  lemma {:induction false} SpecializeReadable(rows: seq<Row>, col: nat, c: Constructor, place: Place, decl: Shape,
                                              arity: nat, root: Value)
    requires forall r :: 0 <= r < |rows| ==> col < |rows[r].cells| && CellShaped(rows[r].cells[col])
    requires RowsReadable(rows, root) && Project(root, place.projs).Some?
    ensures RowsReadable(SpecializeRows(rows, col, c, place, decl, arity), root)
  {
    if rows != [] {
      SpecializeReadable(rows[1..], col, c, place, decl, arity, root);
    }
  }

  lemma {:induction false} DefaultReadable(rows: seq<Row>, col: nat, place: Place, root: Value)
    requires forall r :: 0 <= r < |rows| ==> col < |rows[r].cells|
    requires RowsReadable(rows, root) && Project(root, place.projs).Some?
    ensures RowsReadable(DefaultRows(rows, col, place), root)
  {
    if rows != [] {
      DefaultReadable(rows[1..], col, place, root);
    }
  }

  // ----- the main theorem -----

  ghost predicate Ready(m: Matrix, root: Value, vals: seq<Value>) {
    && MatrixOk(m) && RowsOk(m.rows, m.cols, InOrder)
    && ColsAt(m.cols, root, vals) && RowsReadable(m.rows, root)
  }

  /**
   * What a walk of the compiled tree must answer for a matrix. A row that binds each of
   * its locals once is bound in full except for Dropped, and nothing is bound to a local
   * of Dropped.
   */
  ghost predicate Answers(o: WalkResult, m: Matrix, root: Value, vals: seq<Value>)
    requires MatrixOk(m) && ColsAt(m.cols, root, vals)
  {
    match o
    case Stuck => false
    case NoMatch => First(m.rows, vals).None?
    case Matched(branch, bindings) =>
      && First(m.rows, vals).Some?
      && First(m.rows, vals).value.branch == branch
      && Readable(bindings, root)
      && (forall b :: RowBinds(First(m.rows, vals).value, root, vals, b) <==>
                     Recorded(bindings, root, b) || Dropped(m, root, vals, b))
      && (Linear(First(m.rows, vals).value) ==> DroppedLost(m, root, vals, bindings))
  }

  /** No local that a dropped binder names is bound. */
  ghost predicate DroppedLost(m: Matrix, root: Value, vals: seq<Value>, bindings: seq<Binding>)
    requires MatrixOk(m) && ColsAt(m.cols, root, vals)
  {
    forall b, e :: Dropped(m, root, vals, b) && Recorded(bindings, root, e) ==> e.0 != b.0
  }

  lemma LeafAnswers(m: Matrix, root: Value, vals: seq<Value>)
    requires Ready(m, root, vals) && m.rows != [] && AllWild(m.rows[0].cells)
    ensures Answers(Walk(Compile(m), root), m, root, vals)
  {
    var fst := m.rows[0];
    assert RowOk(fst, m.cols);
    forall b {
      LeafRecords(fst.cells, m.cols, fst.bindings, root, vals, b);
    }
    LeafReadable(fst.cells, m.cols, fst.bindings, root);
    forall i | 0 <= i < |fst.cells| ensures CellMatches(fst.cells[i], vals[i]) {
      assert IsWild(fst.cells[i]);
    }
  }

  // Tuples.

  lemma TupleReady(m: Matrix, root: Value, vals: seq<Value>, col: nat)
    requires Ready(m, root, vals) && Picks(m, col) && col < |m.cols| && Irrefutable(m.cols[col].ty)
    ensures Ready(Expand(m, col), root, Splice(vals, col, SubValues(vals[col])))
    ensures RowsSize(Expand(m, col).rows) < RowsSize(m.rows)
  {
    TupleStep(m, col, root, vals);
    ExpandMeets(m, col, InOrder);
  }

  lemma CompileTuple(m: Matrix, col: nat)
    requires Picks(m, col) && col < |m.cols| && Irrefutable(m.cols[col].ty) && MatrixOk(Expand(m, col))
    ensures Compile(m) == Compile(Expand(m, col))
  {
  }

  lemma DroppedTuple(m: Matrix, root: Value, vals: seq<Value>, col: nat, b: (nat, Value))
    requires MatrixOk(m) && ColsAt(m.cols, root, vals) && Picks(m, col) && col < |m.cols| && Irrefutable(m.cols[col].ty)
    requires MatrixOk(Expand(m, col)) && ColsAt(Expand(m, col).cols, root, Splice(vals, col, SubValues(vals[col])))
    ensures Dropped(m, root, vals, b) <==>
            DroppedHere(First(m.rows, vals), col, vals, b)
              || Dropped(Expand(m, col), root, Splice(vals, col, SubValues(vals[col])), b)
  {
  }

  lemma TupleAnswers(m: Matrix, root: Value, vals: seq<Value>, col: nat)
    requires Ready(m, root, vals) && Picks(m, col) && col < |m.cols| && Irrefutable(m.cols[col].ty)
    requires Ready(Expand(m, col), root, Splice(vals, col, SubValues(vals[col])))
    requires Answers(Walk(Compile(Expand(m, col)), root), Expand(m, col), root, Splice(vals, col, SubValues(vals[col])))
    ensures Answers(Walk(Compile(m), root), m, root, vals)
  {
    PicksColumn(m, col);
    ExpandRowsAgree(m.rows, m.cols, col, root, vals);
    CompileTuple(m, col);
    forall b {
      DroppedTuple(m, root, vals, col, b);
    }
    if First(m.rows, vals).Some? && Linear(First(m.rows, vals).value) {
      TupleLoses(m, root, vals, col, Walk(Compile(m), root).bindings);
    }
  }

  /** What the row still binds after expansion does not mention the binder it lost. */
  lemma HereLost(row: Row, col: nat, root: Value, vals: seq<Value>, vals': seq<Value>, arity: nat, b: (nat, Value),
                 e: (nat, Value))
    requires DroppedHere(Some(row), col, vals, b) && Linear(row)
    requires RowBinds(ExpandRow(row, col, arity), root, vals', e)
    ensures e.0 != b.0
  {
    var r := ExpandRow(row, col, arity);
    ExpandUses(row, col, arity);
    if Recorded(r.bindings, root, e) {
      var i :| 0 <= i < |r.bindings| && Denotes(r.bindings[i], root, e);
      RecordCounted(r.bindings, i);
    } else {
      CellsBoundUsed(r.cells, vals', e);
    }
    assert RowUses(row, b.0) <= 1;
  }

  lemma TupleLoses(m: Matrix, root: Value, vals: seq<Value>, col: nat, bindings: seq<Binding>)
    requires Ready(m, root, vals) && Picks(m, col) && col < |m.cols| && Irrefutable(m.cols[col].ty)
    requires Ready(Expand(m, col), root, Splice(vals, col, SubValues(vals[col])))
    requires First(m.rows, vals).Some? && Linear(First(m.rows, vals).value)
    requires Answers(Matched(First(m.rows, vals).value.branch, bindings), Expand(m, col), root,
                     Splice(vals, col, SubValues(vals[col])))
    ensures DroppedLost(m, root, vals, bindings)
  {
    var vals' := Splice(vals, col, SubValues(vals[col]));
    var row := First(m.rows, vals).value;
    var arity := |FieldTys(m.cols[col].ty)|;
    PicksColumn(m, col);
    ExpandRowsAgree(m.rows, m.cols, col, root, vals);
    ExpandUses(row, col, arity);
    forall b, e | Dropped(m, root, vals, b) && Recorded(bindings, root, e) ensures e.0 != b.0 {
      DroppedTuple(m, root, vals, col, b);
      if DroppedHere(Some(row), col, vals, b) {
        assert RowBinds(ExpandRow(row, col, arity), root, vals', e);
        HereLost(row, col, root, vals, vals', arity, b, e);
      }
    }
  }

  // Switches.

  /** The step kept the selected row: an answer for the smaller matrix is one for m. */
  lemma Transfer(o: WalkResult, m: Matrix, vals: seq<Value>, m': Matrix, vals': seq<Value>, root: Value)
    requires MatrixOk(m) && ColsAt(m.cols, root, vals) && MatrixOk(m') && ColsAt(m'.cols, root, vals')
    requires Agree(First(m.rows, vals), vals, First(m'.rows, vals'), vals', root)
    requires forall b :: Dropped(m, root, vals, b) <==> Dropped(m', root, vals', b)
    requires Answers(o, m', root, vals')
    ensures Answers(o, m, root, vals)
  {
    if o.Matched? && Linear(First(m.rows, vals).value) {
      StillLinear(First(m.rows, vals).value, First(m'.rows, vals').value);
      LostBack(m, vals, m', vals', root, o.bindings);
    }
  }

  lemma StillLinear(row: Row, r: Row)
    requires Linear(row) && NoMoreUses(r, row)
    ensures Linear(r)
  {
  }

  lemma LostBack(m: Matrix, vals: seq<Value>, m': Matrix, vals': seq<Value>, root: Value, bindings: seq<Binding>)
    requires MatrixOk(m) && ColsAt(m.cols, root, vals) && MatrixOk(m') && ColsAt(m'.cols, root, vals')
    requires forall b :: Dropped(m, root, vals, b) <==> Dropped(m', root, vals', b)
    requires DroppedLost(m', root, vals', bindings)
    ensures DroppedLost(m, root, vals, bindings)
  {
  }

  /** A switch without a default covers the constructor of every well-typed value. */
  lemma CompleteCovers(m: Matrix, root: Value, vals: seq<Value>, col: nat)
    requires ColsAt(m.cols, root, vals) && Picks(m, col) && col < |m.cols| && !Irrefutable(m.cols[col].ty)
    requires forall r :: 0 <= r < |m.rows| ==> col < |m.rows[r].cells|
    ensures Head(vals[col]).Some? && CtorFits(Head(vals[col]).value, m.cols[col].ty)
    ensures IsComplete(Signature(m.rows, col), m.cols[col].ty) ==> Head(vals[col]).value in Signature(m.rows, col)
  {
    var t := m.cols[col].ty;
    var sig := Signature(m.rows, col);
    PicksColumn(m, col);
    SignatureIncreasing(m.rows, col);
    if IsComplete(sig, t) {
      forall j | 0 <= j < |sig| ensures sig[j].VariantC? && sig[j].idx < |t.variants| {
        assert sig[j] in sig;
      }
      CountCovers(sig, |sig|, vals[col].variant);
    }
  }

  ghost predicate Tests(m: Matrix, root: Value, vals: seq<Value>, col: nat, c: Constructor) {
    && MatrixOk(m) && ColsAt(m.cols, root, vals) && Picks(m, col) && col < |m.cols| && !Irrefutable(m.cols[col].ty)
    && Head(vals[col]) == Some(c) && CtorFits(c, m.cols[col].ty)
    && forall r :: 0 <= r < |m.rows| ==> col < |m.rows[r].cells|
  }

  lemma CaseReady(m: Matrix, root: Value, vals: seq<Value>, col: nat, c: Constructor)
    requires Tests(m, root, vals, col, c) && c in Signature(m.rows, col) && Ready(m, root, vals)
    ensures Ready(Specialize(m, col, c), root, Splice(vals, col, SubValues(vals[col])))
    ensures RowsSize(Specialize(m, col, c).rows) < RowsSize(m.rows)
  {
    PicksColumn(m, col);
    CaseStep(m, col, c, root, vals);
    SpecializeMeets(m, col, c, InOrder);
    SpecializeReadable(m.rows, col, c, m.cols[col], DeclShape(m.cols[col].ty, c), |CtorPlaces(m.cols[col], c)|, root);
  }

  lemma CompileSwitch(m: Matrix, col: nat)
    requires Picks(m, col) && col < |m.cols| && !Irrefutable(m.cols[col].ty) && SigFits(m, col, Signature(m.rows, col))
    requires forall r :: 0 <= r < |m.rows| ==> col < |m.rows[r].cells|
    requires MatrixOk(Default(m, col))
    ensures Compile(m) == Switch(m.cols[col], CompileCases(m, col, Signature(m.rows, col)),
                                 if IsComplete(Signature(m.rows, col), m.cols[col].ty) then None
                                 else Some(Compile(Default(m, col))))
  {
  }

  lemma PositionsOrdered(sig: seq<Constructor>, i: nat, j: nat)
    requires Increasing(sig) && i < |sig| && j < |sig| && Before(sig[i], sig[j])
    ensures i < j
  {
    assert forall a, b :: 0 <= a < b < |sig| ==> Before(sig[a], sig[b]) && !Before(sig[b], sig[a]);
  }

  lemma {:induction false} VariantAt(sig: seq<Constructor>, n: nat, k: nat) returns (p: nat)
    requires Increasing(sig) && k < n && forall i :: 0 <= i < n ==> VariantC(i) in sig
    ensures k <= p < |sig| && sig[p] == VariantC(k)
  {
    assert VariantC(k) in sig;
    p :| 0 <= p < |sig| && sig[p] == VariantC(k);
    if k > 0 {
      var before := VariantAt(sig, n, k - 1);
      PositionsOrdered(sig, before, p);
    }
  }

  /** Some row has a pattern for variant k in the column. */
  ghost predicate Mentioned(rows: seq<Row>, col: nat, k: nat)
    requires forall r :: 0 <= r < |rows| ==> col < |rows[r].cells|
  {
    exists r :: 0 <= r < |rows| && ConstructorOf(rows[r].cells[col]) == Some(VariantC(k))
  }

  lemma CompleteExact(m: Matrix, col: nat)
    requires Picks(m, col) && col < |m.cols| && !Irrefutable(m.cols[col].ty)
    requires forall r :: 0 <= r < |m.rows| ==> col < |m.rows[r].cells|
    ensures IsComplete(Signature(m.rows, col), m.cols[col].ty) <==>
              m.cols[col].ty.EnumT? && forall k: nat :: k < |m.cols[col].ty.variants| ==> Mentioned(m.rows, col, k)
  {
    var (sig, t) := (Signature(m.rows, col), m.cols[col].ty);
    PicksColumn(m, col);
    SignatureIncreasing(m.rows, col);
    if t.EnumT? {
      var n := |t.variants|;
      forall j | 0 <= j < |sig| ensures sig[j].VariantC? && sig[j].idx < n {
        assert sig[j] in sig;
      }
      if |sig| > 0 {
        AtLeastIndex(sig, |sig| - 1);
      }
      if n > 0 && forall k: nat :: k < n ==> Mentioned(m.rows, col, k) {
        forall k | 0 <= k < n ensures VariantC(k) in sig {
          assert Mentioned(m.rows, col, k);
        }
        var p := VariantAt(sig, n, n - 1);
      }
      if |sig| == n {
        forall k: nat | k < n ensures Mentioned(m.rows, col, k) {
          CountCovers(sig, n, k);
        }
      }
    }
  }

  /**
   * A node that tests a column has no default exactly when the column is of an enum type and every
   * variant is mentioned in it; the cases are the constructors mentioned.
   */
  lemma DefaultExact(m: Matrix, col: nat)
    requires Picks(m, col) && col < |m.cols| && !Irrefutable(m.cols[col].ty)
    ensures forall r :: 0 <= r < |m.rows| ==> col < |m.rows[r].cells|
    ensures var t := Compile(m);
            && t.Switch? && t.place == m.cols[col]
            && (t.default.None? <==>
                m.cols[col].ty.EnumT? && forall k: nat :: k < |m.cols[col].ty.variants| ==> Mentioned(m.rows, col, k))
            && |t.cases| == |Signature(m.rows, col)|
            && forall i :: 0 <= i < |t.cases| ==> t.cases[i].ctor == Signature(m.rows, col)[i]
  {
    PicksColumn(m, col);
    CompleteExact(m, col);
    DefaultOk(m, col);
    CompileSwitch(m, col);
    CaseCtors(m, col, Signature(m.rows, col));
  }

  lemma {:induction false} CaseCtors(m: Matrix, col: nat, sig: seq<Constructor>)
    requires SigFits(m, col, sig)
    ensures |CompileCases(m, col, sig)| == |sig|
    ensures forall i :: 0 <= i < |sig| ==> CompileCases(m, col, sig)[i].ctor == sig[i]
  {
    if sig != [] {
      assert sig[0] in sig;
      CaseCtors(m, col, sig[1..]);
    }
  }

  lemma WalkSwitch(place: Place, cases: seq<Case>, default: Option<Tree>, root: Value, v: Value, c: Constructor)
    requires Project(root, place.projs) == Some(v) && HasType(v, place.ty) && Head(v) == Some(c)
    ensures FindCase(cases, c).Some? ==>
            Walk(Switch(place, cases, default), root) == Walk(FindCase(cases, c).value, root)
    ensures FindCase(cases, c).None? && default.Some? ==>
            Walk(Switch(place, cases, default), root) == Walk(default.value, root)
  {
  }

  lemma WalkCase(m: Matrix, root: Value, vals: seq<Value>, col: nat, c: Constructor)
    requires Tests(m, root, vals, col, c) && c in Signature(m.rows, col) && MatrixOk(Specialize(m, col, c))
    ensures Walk(Compile(m), root) == Walk(Compile(Specialize(m, col, c)), root)
  {
    PicksColumn(m, col);
    FindCompiledCase(m, col, Signature(m.rows, col), c);
    DefaultOk(m, col);
    CompileSwitch(m, col);
    WalkSwitch(m.cols[col], CompileCases(m, col, Signature(m.rows, col)), Compile(m).default, root, vals[col], c);
  }

  lemma DroppedCase(m: Matrix, root: Value, vals: seq<Value>, col: nat, c: Constructor, b: (nat, Value))
    requires Tests(m, root, vals, col, c) && c in Signature(m.rows, col) && MatrixOk(Specialize(m, col, c))
    requires ColsAt(Specialize(m, col, c).cols, root, Splice(vals, col, SubValues(vals[col])))
    ensures Dropped(m, root, vals, b) <==>
            Dropped(Specialize(m, col, c), root, Splice(vals, col, SubValues(vals[col])), b)
  {
  }

  lemma CaseAnswers(m: Matrix, root: Value, vals: seq<Value>, col: nat, c: Constructor)
    requires Tests(m, root, vals, col, c) && c in Signature(m.rows, col)
    requires Ready(Specialize(m, col, c), root, Splice(vals, col, SubValues(vals[col])))
    requires Answers(Walk(Compile(Specialize(m, col, c)), root), Specialize(m, col, c), root,
                     Splice(vals, col, SubValues(vals[col])))
    ensures Answers(Walk(Compile(m), root), m, root, vals)
  {
    SpecializeAgrees(m, col, root, vals);
    WalkCase(m, root, vals, col, c);
    forall b {
      DroppedCase(m, root, vals, col, c, b);
    }
    Transfer(Walk(Compile(m), root), m, vals, Specialize(m, col, c), Splice(vals, col, SubValues(vals[col])), root);
  }

  lemma DefaultReadies(m: Matrix, root: Value, vals: seq<Value>, col: nat, c: Constructor)
    requires Tests(m, root, vals, col, c) && Ready(m, root, vals)
    ensures Ready(Default(m, col), root, Splice(vals, col, []))
    ensures RowsSize(Default(m, col).rows) < RowsSize(m.rows)
  {
    PicksColumn(m, col);
    DefaultStep(m, col, root, vals);
    DefaultMeets(m, col, InOrder);
    DefaultReadable(m.rows, col, m.cols[col], root);
  }

  lemma WalkDefault(m: Matrix, root: Value, vals: seq<Value>, col: nat, c: Constructor)
    requires Tests(m, root, vals, col, c) && c !in Signature(m.rows, col) && MatrixOk(Default(m, col))
    requires !IsComplete(Signature(m.rows, col), m.cols[col].ty)
    ensures Walk(Compile(m), root) == Walk(Compile(Default(m, col)), root)
  {
    PicksColumn(m, col);
    FindCompiledCase(m, col, Signature(m.rows, col), c);
    DefaultOk(m, col);
    CompileSwitch(m, col);
    WalkSwitch(m.cols[col], CompileCases(m, col, Signature(m.rows, col)), Compile(m).default, root, vals[col], c);
  }

  lemma DroppedDefault(m: Matrix, root: Value, vals: seq<Value>, col: nat, c: Constructor, b: (nat, Value))
    requires Tests(m, root, vals, col, c) && c !in Signature(m.rows, col) && MatrixOk(Default(m, col))
    requires ColsAt(Default(m, col).cols, root, Splice(vals, col, []))
    ensures Dropped(m, root, vals, b) <==> Dropped(Default(m, col), root, Splice(vals, col, []), b)
  {
  }

  lemma DefaultAnswers(m: Matrix, root: Value, vals: seq<Value>, col: nat, c: Constructor)
    requires Tests(m, root, vals, col, c) && c !in Signature(m.rows, col)
    requires !IsComplete(Signature(m.rows, col), m.cols[col].ty)
    requires Ready(Default(m, col), root, Splice(vals, col, []))
    requires Answers(Walk(Compile(Default(m, col)), root), Default(m, col), root, Splice(vals, col, []))
    ensures Answers(Walk(Compile(m), root), m, root, vals)
  {
    PicksColumn(m, col);
    DefaultRowsAgree(m.rows, m.cols, col, root, vals);
    WalkDefault(m, root, vals, col, c);
    forall b {
      DroppedDefault(m, root, vals, col, c, b);
    }
    Transfer(Walk(Compile(m), root), m, vals, Default(m, col), Splice(vals, col, []), root);
  }

  /**
   * For every well-typed matrix and every value, walking the compiled tree stops
   * at the branch of the first row that matches, or fails when none does; it is
   * never stuck, and what it binds is what the row binds except for Dropped.
   */
  lemma {:induction false} CompileCorrect(m: Matrix, root: Value, vals: seq<Value>)
    requires Ready(m, root, vals)
    ensures Answers(Walk(Compile(m), root), m, root, vals)
    decreases RowsSize(m.rows)
  {
    if m.rows == [] {
    } else if AllWild(m.rows[0].cells) {
      LeafAnswers(m, root, vals);
    } else {
      assert RowOk(m.rows[0], m.cols);
      var col := FirstRefutable(m.rows[0].cells);
      PicksColumn(m, col);
      if Irrefutable(m.cols[col].ty) {
        TupleReady(m, root, vals, col);
        CompileCorrect(Expand(m, col), root, Splice(vals, col, SubValues(vals[col])));
        TupleAnswers(m, root, vals, col);
      } else {
        SwitchCorrect(m, root, vals, col);
      }
    }
  }

  lemma {:induction false} SwitchCorrect(m: Matrix, root: Value, vals: seq<Value>, col: nat)
    requires Ready(m, root, vals) && Picks(m, col) && col < |m.cols| && !Irrefutable(m.cols[col].ty)
    ensures Answers(Walk(Compile(m), root), m, root, vals)
    decreases RowsSize(m.rows), 0
  {
    PicksColumn(m, col);
    CompleteCovers(m, root, vals, col);
    var c := Head(vals[col]).value;
    if c in Signature(m.rows, col) {
      CaseReady(m, root, vals, col, c);
      CompileCorrect(Specialize(m, col, c), root, Splice(vals, col, SubValues(vals[col])));
      CaseAnswers(m, root, vals, col, c);
    } else {
      DefaultReadies(m, root, vals, col, c);
      CompileCorrect(Default(m, col), root, Splice(vals, col, []));
      DefaultAnswers(m, root, vals, col, c);
    }
  }
}
