/** The block graph and its execution. */
module Mir {
  import opened Core

  // ----- syntax -----

  datatype Operand = Constant(value: Value, ty: Ty) | Move(place: Place) | Copy(place: Place)

  /** Pure operations stand for every rvalue that only combines its operands. */
  datatype RValue =
    | UseOf(operand: Operand)
    | Pure(op: nat, args: seq<Operand>, ty: Ty)
    | Discriminant(place: Place, ty: Ty)

  datatype MirStmt = AssignTo(dest: Place, rvalue: RValue)

  datatype Terminator =
    | Diverge
    | Call(callee: nat, args: seq<Operand>, dest: nat, next: nat)
    | Return(value: Option<Operand>)
    | Goto(next: nat)
    | Branch(cond: Operand, thn: nat, els: nat)
    | Switch(discriminant: Operand, branches: map<int, nat>, default: nat)

  datatype Block = Block(stmts: seq<MirStmt>, terminator: Terminator)

  /** A lowered body: its blocks, the first of which is the entry, and the types of its locals. */
  datatype Graph = Graph(blocks: seq<Block>, locals: seq<Ty>)

  // ----- stores -----

  type Store = map<nat, Value>

  /** The meaning of pure operations and of calls; a call that does not return gives None. */
  datatype Machine = Machine(op: (nat, seq<Value>) -> Value, call: (nat, seq<Value>) -> Option<Value>)

  function ReadPlace(s: Store, p: Place): Option<Value> {
    if p.local in s then Project(s[p.local], p.projs) else None
  }

  function ReplaceOne(v: Value, p: Proj, w: Value): Option<Value> {
    match p
    case TupleField(i) =>
      if v.TupleV? && i < |v.elems| then Some(TupleV(v.elems[i := w]))
      else if v.VariantV? && v.shape == TupleShape && i < |v.parts| then Some(VariantV(v.shape, v.parts[i := w]))
      else None
    case NamedField(name) =>
      if v.StructV? && |v.names| == |v.fields| && name in v.names then
        Some(StructV(v.names, v.fields[IndexOf(v.names, name) := w]))
      else if v.VariantV? && v.shape.StructShape? && |v.shape.names| == |v.parts| && name in v.shape.names then
        Some(VariantV(v.shape, v.parts[IndexOf(v.shape.names, name) := w]))
      else None
    case Downcast(k) =>
      if v.EnumV? && v.variant == k && w.VariantV? then Some(EnumV(k, w.shape, w.parts)) else None
  }

  function ReplaceAt(root: Value, projs: seq<Proj>, w: Value): Option<Value>
    decreases |projs|
  {
    if projs == [] then Some(w)
    else
      var part :- ProjectOne(root, projs[0]);
      var part' :- ReplaceAt(part, projs[1..], w);
      ReplaceOne(root, projs[0], part')
  }

  function WritePlace(s: Store, p: Place, v: Value): Option<Store> {
    if p.projs == [] then Some(s[p.local := v])
    else if p.local !in s then None
    else
      var root :- ReplaceAt(s[p.local], p.projs, v);
      Some(s[p.local := root])
  }

  // ----- execution -----

  function EvalOperand(s: Store, o: Operand): Option<Value> {
    match o
    case Constant(v, _) => Some(v)
    case Move(p) => ReadPlace(s, p)
    case Copy(p) => ReadPlace(s, p)
  }

  function EvalOperands(s: Store, os: seq<Operand>): Option<seq<Value>> {
    if os == [] then Some([])
    else
      var v :- EvalOperand(s, os[0]);
      var vs :- EvalOperands(s, os[1..]);
      Some([v] + vs)
  }

  function EvalRValue(m: Machine, s: Store, r: RValue): Option<Value> {
    match r
    case UseOf(o) => EvalOperand(s, o)
    case Pure(op, args, _) =>
      var vs :- EvalOperands(s, args);
      Some(m.op(op, vs))
    case Discriminant(p, _) =>
      var v :- ReadPlace(s, p);
      if v.EnumV? then Some(IntV(v.variant)) else None
  }

  function ExecStmt(m: Machine, s: Store, st: MirStmt): Option<Store> {
    var v :- EvalRValue(m, s, st.rvalue);
    WritePlace(s, st.dest, v)
  }

  predicate Truthy(v: Value) { v == BoolV(true) }

  // ----- switches -----

  function OperandTy(o: Operand): Ty {
    match o
    case Constant(_, t) => t
    case Move(p) => p.ty
    case Copy(p) => p.ty
  }

  function RValueTy(r: RValue): Ty {
    match r
    case UseOf(o) => OperandTy(o)
    case Pure(_, _, t) => t
    case Discriminant(_, t) => t
  }

  /** Switch keys are 128-bit patterns: the key of n is `n as u128`. */
  function Key(n: int): int { n % TWO_TO_128 }

  /** The number of bit patterns of a type that can be switched on. */
  function Modulus(t: Ty): int {
    if t.IntT? then 2 * HalfRange(t.width) else 2
  }

  /**
   * The back end cuts a key to 64 bits and then to the width of the value that is
   * switched on, and compares bit patterns of that width.
   */
  predicate Hits(key: int, n: int, t: Ty) {
    key % TWO_TO_64 % Modulus(t) == n % Modulus(t)
  }

  ghost predicate HasHit(branches: map<int, nat>, n: int, t: Ty) {
    exists key :: key in branches && Hits(key, n, t)
  }

  /** The block a switch jumps to; when several keys are hit, any of theirs. */
  ghost function Chosen(branches: map<int, nat>, default: nat, n: int, t: Ty): nat {
    if HasHit(branches, n, t) then
      var key :| key in branches && Hits(key, n, t);
      branches[key]
    else default
  }

  datatype Result = Returned(value: Option<Value>) | Diverged | Wrong

  datatype Config = At(block: nat, index: nat, store: Store) | Done(result: Result, store: Store)

  ghost function Terminate(m: Machine, s: Store, t: Terminator): Config {
    match t
    case Diverge => Done(Diverged, s)
    case Goto(next) => At(next, 0, s)
    case Return(None) => Done(Returned(None), s)
    case Return(Some(o)) =>
      (match EvalOperand(s, o)
       case Some(v) => Done(Returned(Some(v)), s)
       case None => Done(Wrong, s))
    case Branch(cond, thn, els) =>
      (match EvalOperand(s, cond)
       case Some(v) => At(if Truthy(v) then thn else els, 0, s)
       case None => Done(Wrong, s))
    case Switch(o, branches, default) =>
      (match EvalOperand(s, o)
       case Some(IntV(n)) => At(Chosen(branches, default, n, OperandTy(o)), 0, s)
       case _ => Done(Wrong, s))
    case Call(callee, args, dest, next) =>
      (match EvalOperands(s, args)
       case None => Done(Wrong, s)
       case Some(vs) =>
         match m.call(callee, vs)
         case None => Done(Diverged, s)
         case Some(v) => At(next, 0, s[dest := v]))
  }

  ghost function Step(g: seq<Block>, m: Machine, c: Config): Config {
    match c
    case Done(_, _) => c
    case At(b, i, s) =>
      if b >= |g| then Done(Wrong, s)
      else if i < |g[b].stmts| then
        match ExecStmt(m, s, g[b].stmts[i])
        case Some(s') => At(b, i + 1, s')
        case None => Done(Wrong, s)
      else Terminate(m, s, g[b].terminator)
  }

  ghost function Run(g: seq<Block>, m: Machine, c: Config, n: nat): Config
    decreases n
  {
    if n == 0 then c else Run(g, m, Step(g, m, c), n - 1)
  }

  lemma {:induction false} RunAdd(g: seq<Block>, m: Machine, c: Config, i: nat, j: nat)
    ensures Run(g, m, c, i + j) == Run(g, m, Run(g, m, c, i), j)
    decreases i
  {
    if i > 0 {
      RunAdd(g, m, Step(g, m, c), i - 1, j);
    }
  }

  lemma {:induction false} DoneStays(g: seq<Block>, m: Machine, c: Config, n: nat)
    requires c.Done?
    ensures Run(g, m, c, n) == c
    decreases n
  {
    if n > 0 {
      DoneStays(g, m, c, n - 1);
    }
  }

  /** Once a run is over it stays over: two lengths that both finish agree. */
  lemma RunDeterministic(g: seq<Block>, m: Machine, c: Config, i: nat, j: nat)
    requires Run(g, m, c, i).Done? && Run(g, m, c, j).Done?
    ensures Run(g, m, c, i) == Run(g, m, c, j)
  {
    if i <= j {
      RunAdd(g, m, c, i, j - i);
      DoneStays(g, m, Run(g, m, c, i), j - i);
    } else {
      RunAdd(g, m, c, j, i - j);
      DoneStays(g, m, Run(g, m, c, j), i - j);
    }
  }
}
