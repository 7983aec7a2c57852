/** Structured statements and their meaning. */
module Thir {
  import opened Core
  import opened Patterns
  import opened Mir

  datatype Expr =
    | Const(value: Value, ty: Ty)
    | Use(place: Place)
    | Op(op: nat, args: seq<Expr>, ty: Ty)
    | CallE(callee: nat, args: seq<Expr>, ty: Ty)

  function TypeOf(e: Expr): Ty {
    match e
    case Const(_, t) => t
    case Use(p) => p.ty
    case Op(_, _, t) => t
    case CallE(_, _, t) => t
  }

  /** An expression that needs statements to run first. */
  datatype Setup = Setup(stmts: seq<Stmt>, expr: Expr)

  datatype Arm = Arm(pat: Pattern, body: seq<Stmt>)

  datatype Else = NoElse | Else(stmts: seq<Stmt>)

  datatype Stmt =
    | Body(stmts: seq<Stmt>)
    | If(cond: Setup, thn: seq<Stmt>, els: Else)
    | While(scope: nat, cond: Setup, body: seq<Stmt>)
    | Let(local: nat, init: Expr)
    | Assign(place: Place, rhs: Expr)
    | ReturnS(value: Option<Expr>)
    | Break(scope: nat)
    | Continue(scope: nat)
    | Match(scrut: Setup, arms: seq<Arm>)
    | ExprS(expr: Expr)
    | ErrorS

  // ----- expressions -----

  /** Bad: an uninitialised or ill-typed read, which type checking rules out. */
  datatype Eval<T> = Val(v: T) | Div | Bad

  function EvalExpr(m: Machine, s: Store, e: Expr): Eval<Value>
    decreases e, 0
  {
    match e
    case Const(v, _) => Val(v)
    case Use(p) =>
      (match ReadPlace(s, p)
       case Some(v) => Val(v)
       case None => Bad)
    case Op(op, args, _) =>
      (match EvalExprs(m, s, args)
       case Val(vs) => Val(m.op(op, vs))
       case Div => Div
       case Bad => Bad)
    case CallE(f, args, t) =>
      (match EvalExprs(m, s, args)
       case Val(vs) =>
         (match m.call(f, vs)
          case Some(v) => if t == NeverT then Div else Val(v)
          case None => Div)
       case Div => Div
       case Bad => Bad)
  }

  function EvalExprs(m: Machine, s: Store, es: seq<Expr>): Eval<seq<Value>>
    decreases es, 1
  {
    if es == [] then Val([])
    else
      match EvalExpr(m, s, es[0])
      case Div => Div
      case Bad => Bad
      case Val(v) =>
        match EvalExprs(m, s, es[1..])
        case Div => Div
        case Bad => Bad
        case Val(vs) => Val([v] + vs)
  }

  // ----- statements -----

  datatype Exit =
    | Normal
    | BreakTo(scope: nat)
    | ContinueTo(scope: nat)
    | Ret(value: Option<Value>)
    | Diverges
    | Broken
    | OutOfFuel

  datatype Outcome = Outcome(exit: Exit, store: Store)

  function BindAll(bs: seq<(nat, Value)>, s: Store): Store {
    if bs == [] then s else BindAll(bs[1..], s[bs[0].0 := bs[0].1])
  }

  /** The arm a match selects: the first whose pattern matches. */
  ghost function Select(arms: seq<Arm>, v: Value): (i: nat)
    ensures i <= |arms|
    ensures i < |arms| ==> Matches(arms[i].pat, v)
    ensures forall j :: 0 <= j < i ==> !Matches(arms[j].pat, v)
  {
    if arms == [] then 0
    else if Matches(arms[0].pat, v) then 0
    else 1 + Select(arms[1..], v)
  }

  ghost function EvalStore(m: Machine, s: Store, e: Expr, p: Place): Outcome {
    match EvalExpr(m, s, e)
    case Div => Outcome(Diverges, s)
    case Bad => Outcome(Broken, s)
    case Val(v) =>
      match WritePlace(s, p, v)
      case None => Outcome(Broken, s)
      case Some(s') => Outcome(Normal, s')
  }

  /** Each loop iteration burns one unit of fuel, so a loop that runs dry reports OutOfFuel. */
  ghost function Exec(m: Machine, st: Stmt, s: Store, fuel: nat): Outcome
    decreases fuel, st, 0
  {
    match st
    case Body(stmts) => ExecAll(m, stmts, s, fuel)
    case Let(x, init) => EvalStore(m, s, init, Place(x, [], TypeOf(init)))
    case Assign(p, rhs) => EvalStore(m, s, rhs, p)
    case ExprS(e) =>
      (match EvalExpr(m, s, e)
       case Div => Outcome(Diverges, s)
       case Bad => Outcome(Broken, s)
       case Val(_) => Outcome(Normal, s))
    case ErrorS => Outcome(Normal, s)
    case Break(scope) => Outcome(BreakTo(scope), s)
    case Continue(scope) => Outcome(ContinueTo(scope), s)
    case ReturnS(None) => Outcome(Ret(None), s)
    case ReturnS(Some(e)) =>
      (match EvalExpr(m, s, e)
       case Div => Outcome(Diverges, s)
       case Bad => Outcome(Broken, s)
       case Val(v) => Outcome(Ret(Some(v)), s))
    case If(cond, thn, els) =>
      var r := ExecAll(m, cond.stmts, s, fuel);
      if r.exit != Normal then r
      else
        (match EvalExpr(m, r.store, cond.expr)
         case Div => Outcome(Diverges, r.store)
         case Bad => Outcome(Broken, r.store)
         case Val(v) =>
           if Truthy(v) then ExecAll(m, thn, r.store, fuel)
           else if els.Else? then ExecAll(m, els.stmts, r.store, fuel)
           else Outcome(Normal, r.store))
    case Match(scrut, arms) =>
      var r := ExecAll(m, scrut.stmts, s, fuel);
      if r.exit != Normal then r
      else
        (match EvalExpr(m, r.store, scrut.expr)
         case Div => Outcome(Diverges, r.store)
         case Bad => Outcome(Broken, r.store)
         case Val(v) =>
           if !HasType(v, TypeOf(scrut.expr)) then Outcome(Broken, r.store)
           else
             var i := Select(arms, v);
             if i == |arms| then Outcome(Diverges, r.store)
             else ExecAll(m, arms[i].body, BindAll(Binds(arms[i].pat, v), r.store), fuel))
    case While(scope, cond, body) =>
      if fuel == 0 then Outcome(OutOfFuel, s)
      else
        var r := ExecAll(m, cond.stmts, s, fuel);
        match LoopExit(r.exit, scope)
        case Leave(exit) => Outcome(exit, r.store)
        case Again => Exec(m, st, r.store, fuel - 1)
        case Through =>
          match EvalExpr(m, r.store, cond.expr)
          case Div => Outcome(Diverges, r.store)
          case Bad => Outcome(Broken, r.store)
          case Val(v) =>
            if !Truthy(v) then Outcome(Normal, r.store)
            else
              var b := ExecAll(m, body, r.store, fuel);
              match LoopExit(b.exit, scope)
              case Leave(exit) => Outcome(exit, b.store)
              case _ => Exec(m, st, b.store, fuel - 1)
  }

  /** What the exit of a part of a loop means for the loop. */
  datatype LoopStep = Through | Again | Leave(exit: Exit)

  function LoopExit(e: Exit, scope: nat): LoopStep {
    match e
    case Normal => Through
    case BreakTo(sc) => if sc == scope then Leave(Normal) else Leave(e)
    case ContinueTo(sc) => if sc == scope then Again else Leave(e)
    case _ => Leave(e)
  }

  ghost function ExecAll(m: Machine, stmts: seq<Stmt>, s: Store, fuel: nat): Outcome
    decreases fuel, stmts, 1
  {
    if stmts == [] then Outcome(Normal, s)
    else
      var r := Exec(m, stmts[0], s, fuel);
      if r.exit != Normal then r else ExecAll(m, stmts[1..], r.store, fuel)
  }
}
