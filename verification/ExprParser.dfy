/** The binary-operator loop of the expression parser, over prefixed literals. */
module ExprGrammar {
  import opened Core

  datatype Infix =
    | DotDot | Or | And | BitOr | BitXor | BitAnd | Diff | EqEq | Lt | Leq | Gt | Geq
    | Plus | Minus | Mult | Div | Modulo

  /**
   * TypeTok stands for the tokens of one type expression, as the type parser takes them
   * off the front; Stop is any token that continues neither an operand nor an operation.
   */
  datatype Token = Lit(id: nat) | Op(op: Infix) | Not | Mut | As | TypeTok(id: nat) | Stop(id: nat)

  datatype Expr =
    | Literal(id: nat)
    | BinOp(op: Infix, lhs: Expr, rhs: Expr)
    | Range(from: Expr, to: Expr)
    | AsE(e: Expr, ty: nat)
    | Neg(e: Expr)
    | NotE(e: Expr)
    | Ref(mutable: bool, e: Expr)
    | PrefixDeref(e: Expr)

  /** Twice the precedence; every operator is left associative. */
  function Power(op: Infix): (bp: nat)
    ensures 4 <= bp <= 22
  {
    match op
    case DotDot => 4
    case Or => 6
    case And => 8
    case BitOr => 10
    case BitXor => 12
    case BitAnd => 14
    case Diff => 16 case EqEq => 16
    case Lt => 18 case Leq => 18 case Gt => 18 case Geq => 18
    case Plus => 20 case Minus => 20
    case Mult => 22 case Div => 22 case Modulo => 22
  }

  const AS_POWER := 24

  /** The token can go on from a finished operand. */
  predicate Infixes(t: Token) {
    t.Op? || t.As?
  }

  function TokenPower(t: Token): nat
    requires Infixes(t)
  {
    if t.Op? then Power(t.op) else AS_POWER
  }

  function Make(op: Infix, lhs: Expr, rhs: Expr): Expr {
    if op == DotDot then Range(lhs, rhs) else BinOp(op, lhs, rhs)
  }

  // ----- the parser as functions of the remaining tokens -----

  function ParseUnary(toks: seq<Token>): (r: Option<(Expr, seq<Token>)>)
    ensures r.Some? ==> |r.value.1| < |toks|
  {
    if toks == [] then None
    else
      match toks[0]
      case Lit(id) => Some((Literal(id), toks[1..]))
      case Op(Minus) =>
        var (e, rest) :- ParseUnary(toks[1..]);
        Some((Neg(e), rest))
      case Not =>
        var (e, rest) :- ParseUnary(toks[1..]);
        Some((NotE(e), rest))
      case Op(BitAnd) =>
        var mutable := |toks| > 1 && toks[1].Mut?;
        var (e, rest) :- ParseUnary(if mutable then toks[2..] else toks[1..]);
        Some((Ref(mutable, e), rest))
      case Op(Mult) =>
        var (e, rest) :- ParseUnary(toks[1..]);
        Some((PrefixDeref(e), rest))
      case _ => None
  }

  function ParseBinop(toks: seq<Token>, min: nat): (r: Option<(Expr, seq<Token>)>)
    ensures r.Some? ==> |r.value.1| < |toks|
    decreases |toks|, 0
  {
    var (lhs, rest) :- ParseUnary(toks);
    Loop(lhs, rest, min)
  }

  /** Absorbs operators that bind more tightly than min into the left operand. */
  function Loop(lhs: Expr, toks: seq<Token>, min: nat): (r: Option<(Expr, seq<Token>)>)
    ensures r.Some? ==> |r.value.1| <= |toks|
    decreases |toks|, 1
  {
    if toks == [] || !Infixes(toks[0]) || TokenPower(toks[0]) <= min then Some((lhs, toks))
    else if toks[0].As? then
      if |toks| > 1 && toks[1].TypeTok? then Loop(AsE(lhs, toks[1].id), toks[2..], min) else None
    else
      var (rhs, rest) :- ParseBinop(toks[1..], Power(toks[0].op));
      Loop(Make(toks[0].op, lhs, rhs), rest, min)
  }

  // ----- trees and their tokens -----

  function Yield(e: Expr): seq<Token> {
    match e
    case Literal(id) => [Lit(id)]
    case BinOp(op, l, r) => Yield(l) + ([Op(op)] + Yield(r))
    case Range(l, r) => Yield(l) + ([Op(DotDot)] + Yield(r))
    case AsE(x, ty) => Yield(x) + [As, TypeTok(ty)]
    case Neg(x) => [Op(Minus)] + Yield(x)
    case NotE(x) => [Not] + Yield(x)
    case Ref(mutable, x) => (if mutable then [Op(BitAnd), Mut] else [Op(BitAnd)]) + Yield(x)
    case PrefixDeref(x) => [Op(Mult)] + Yield(x)
  }

  const TIGHTEST := 100

  /** How tightly the root of a tree binds. */
  function Level(e: Expr): nat {
    match e
    case BinOp(op, _, _) => Power(op)
    case Range(_, _) => Power(DotDot)
    case AsE(_, _) => AS_POWER
    case _ => TIGHTEST
  }

  /** Left children bind at least as tightly as their parent, right children strictly more tightly. */
  predicate WellBound(e: Expr) {
    match e
    case Literal(_) => true
    case BinOp(op, l, r) => op != DotDot && Level(l) >= Power(op) && Level(r) > Power(op) && WellBound(l)
                            && WellBound(r)
    case Range(l, r) => Level(l) >= Power(DotDot) && Level(r) > Power(DotDot) && WellBound(l) && WellBound(r)
    case AsE(x, _) => Level(x) >= AS_POWER && WellBound(x)
    case Neg(x) => Level(x) == TIGHTEST && WellBound(x)
    case NotE(x) => Level(x) == TIGHTEST && WellBound(x)
    case Ref(_, x) => Level(x) == TIGHTEST && WellBound(x)
    case PrefixDeref(x) => Level(x) == TIGHTEST && WellBound(x)
  }

  /** The next token is no operator that binds more tightly than bp. */
  predicate Yields(toks: seq<Token>, bp: nat) {
    toks == [] || !Infixes(toks[0]) || TokenPower(toks[0]) <= bp
  }

  lemma Assoc(a: seq<Token>, b: seq<Token>, c: seq<Token>)
    ensures (a + b) + c == a + (b + c)
  {
  }

  // ----- what is parsed was there, in the right shape -----

  lemma {:induction false} UnarySound(toks: seq<Token>)
    requires ParseUnary(toks).Some?
    ensures var (e, rest) := ParseUnary(toks).value; toks == Yield(e) + rest && WellBound(e) && Level(e) == TIGHTEST
    decreases |toks|
  {
    if toks[0] == Op(BitAnd) && |toks| > 1 && toks[1].Mut? {
      UnarySound(toks[2..]);
      var (x, rest) := ParseUnary(toks[2..]).value;
      assert toks == [Op(BitAnd), Mut] + toks[2..];
      Assoc([Op(BitAnd), Mut], Yield(x), rest);
    } else {
      assert toks == [toks[0]] + toks[1..];
      if !toks[0].Lit? {
        UnarySound(toks[1..]);
        var (x, rest) := ParseUnary(toks[1..]).value;
        Assoc([toks[0]], Yield(x), rest);
      }
    }
  }

  lemma {:induction false} BinopSound(toks: seq<Token>, min: nat)
    requires ParseBinop(toks, min).Some? && min < TIGHTEST
    ensures var (e, rest) := ParseBinop(toks, min).value;
            toks == Yield(e) + rest && WellBound(e) && Level(e) > min && Yields(rest, min)
    decreases |toks|, 0
  {
    UnarySound(toks);
    var (lhs, rest) := ParseUnary(toks).value;
    LoopSound(lhs, rest, min);
  }

  lemma {:induction false} LoopSound(lhs: Expr, toks: seq<Token>, min: nat)
    requires Loop(lhs, toks, min).Some? && WellBound(lhs) && Level(lhs) > min && Yields(toks, Level(lhs))
    ensures var (e, rest) := Loop(lhs, toks, min).value;
            Yield(lhs) + toks == Yield(e) + rest && WellBound(e) && Level(e) > min && Yields(rest, min)
    decreases |toks|, 1
  {
    if toks == [] || !Infixes(toks[0]) || TokenPower(toks[0]) <= min {
    } else if toks[0].As? {
      assert toks == [As, toks[1]] + toks[2..];
      Assoc(Yield(lhs), [As, toks[1]], toks[2..]);
      LoopSound(AsE(lhs, toks[1].id), toks[2..], min);
    } else {
      var op := toks[0].op;
      BinopSound(toks[1..], Power(op));
      var (rhs, rest) := ParseBinop(toks[1..], Power(op)).value;
      assert toks == [Op(op)] + toks[1..];
      Assoc([Op(op)], Yield(rhs), rest);
      Assoc(Yield(lhs), [Op(op)] + Yield(rhs), rest);
      LoopSound(Make(op, lhs, rhs), rest, min);
    }
  }

  // ----- every well-bound tree is found -----

  lemma {:induction false} UnaryComplete(e: Expr, rest: seq<Token>)
    requires WellBound(e) && Level(e) == TIGHTEST
    ensures ParseUnary(Yield(e) + rest) == Some((e, rest))
    decreases e, 0
  {
    match e
    case Literal(id) => Past([Lit(id)], rest);
    case Ref(mutable, x) =>
      var first := if mutable then [Op(BitAnd), Mut] else [Op(BitAnd)];
      UnaryComplete(x, rest);
      UnaryStarts(x, rest);
      Assoc(first, Yield(x), rest);
      Past(first, Yield(x) + rest);
    case Neg(x) => PrefixComplete(Op(Minus), x, rest);
    case NotE(x) => PrefixComplete(Not, x, rest);
    case PrefixDeref(x) => PrefixComplete(Op(Mult), x, rest);
  }

  lemma {:induction false} PrefixComplete(first: Token, x: Expr, rest: seq<Token>)
    requires WellBound(x) && Level(x) == TIGHTEST
    ensures var toks := ([first] + Yield(x)) + rest;
            toks[0] == first && ParseUnary(toks[1..]) == Some((x, rest))
    decreases x, 1
  {
    UnaryComplete(x, rest);
    Assoc([first], Yield(x), rest);
    Past([first], Yield(x) + rest);
  }

  lemma Past(a: seq<Token>, b: seq<Token>)
    ensures (a + b)[|a|..] == b && forall i :: 0 <= i < |a| ==> (a + b)[i] == a[i]
  {
  }

  lemma UnaryStarts(e: Expr, rest: seq<Token>)
    requires Level(e) == TIGHTEST
    ensures Yield(e) + rest != [] && !(Yield(e) + rest)[0].Mut?
  {
  }

  /** Reading a tree brings the loop to the state in which the tree is its left operand. */
  lemma {:induction false} Reaches(e: Expr, rest: seq<Token>, min: nat)
    requires WellBound(e) && Level(e) > min && Yields(rest, Level(e))
    ensures ParseBinop(Yield(e) + rest, min) == Loop(e, rest, min)
    decreases e
  {
    if Level(e) == TIGHTEST {
      UnaryComplete(e, rest);
    } else if e.AsE? {
      var last := [As, TypeTok(e.ty)];
      Assoc(Yield(e.e), last, rest);
      Past(last, rest);
      Reaches(e.e, last + rest, min);
    } else {
      var (op, l, r) := if e.Range? then (DotDot, e.from, e.to) else (e.op, e.lhs, e.rhs);
      var tail := [Op(op)] + (Yield(r) + rest);
      Assoc([Op(op)], Yield(r), rest);
      Assoc(Yield(l), [Op(op)] + Yield(r), rest);
      Reaches(l, tail, min);
      assert tail[1..] == Yield(r) + rest;
      Reaches(r, rest, Power(op));
      assert Loop(r, rest, Power(op)) == Some((r, rest));
    }
  }

  /**
   * The parser returns a tree on exactly the token sequence of that tree, when it is
   * well bound and what follows cannot be absorbed.
   */
  lemma ParseExact(toks: seq<Token>, min: nat, e: Expr, rest: seq<Token>)
    requires min < TIGHTEST
    ensures ParseBinop(toks, min) == Some((e, rest)) <==>
            toks == Yield(e) + rest && WellBound(e) && Level(e) > min && Yields(rest, min)
  {
    if ParseBinop(toks, min) == Some((e, rest)) {
      BinopSound(toks, min);
    } else if toks == Yield(e) + rest && WellBound(e) && Level(e) > min && Yields(rest, min) {
      Reaches(e, rest, min);
    }
  }

  /** Precedence and associativity leave no choice: a token sequence has at most one well-bound tree. */
  lemma TreeUnique(e: Expr, f: Expr)
    requires WellBound(e) && WellBound(f) && Yield(e) == Yield(f)
    ensures e == f
  {
    assert Yield(e) + [] == Yield(e) && Yield(f) + [] == Yield(f);
    LevelPositive(e);
    LevelPositive(f);
    ParseExact(Yield(e), 0, e, []);
    ParseExact(Yield(e), 0, f, []);
  }

  lemma LevelPositive(e: Expr)
    ensures Level(e) > 0
  {
  }

  // ----- every alternation of operands and operators is parsed -----

  /** Prefixes and a literal wherever an operand is wanted, one operator between operands, casts after them. */
  predicate Chain(toks: seq<Token>, wanted: bool)
    decreases |toks|
  {
    if toks == [] then !wanted
    else if !wanted then
      || (toks[0].Op? && Chain(toks[1..], true))
      || (toks[0].As? && |toks| > 1 && toks[1].TypeTok? && Chain(toks[2..], false))
    else
      match toks[0]
      case Lit(_) => Chain(toks[1..], false)
      case Op(Minus) => Chain(toks[1..], true)
      case Not => Chain(toks[1..], true)
      case Op(BitAnd) => Chain(if |toks| > 1 && toks[1].Mut? then toks[2..] else toks[1..], true)
      case Op(Mult) => Chain(toks[1..], true)
      case _ => false
  }

  lemma {:induction false} UnaryParses(toks: seq<Token>)
    requires Chain(toks, true)
    ensures ParseUnary(toks).Some? && Chain(ParseUnary(toks).value.1, false)
    decreases |toks|
  {
    if toks[0] == Op(BitAnd) && |toks| > 1 && toks[1].Mut? {
      UnaryParses(toks[2..]);
    } else if !toks[0].Lit? {
      UnaryParses(toks[1..]);
    }
  }

  lemma {:induction false} BinopParses(toks: seq<Token>, min: nat)
    requires Chain(toks, true)
    ensures ParseBinop(toks, min).Some? && Chain(ParseBinop(toks, min).value.1, false)
    decreases |toks|, 0
  {
    UnaryParses(toks);
    var (lhs, rest) := ParseUnary(toks).value;
    LoopParses(lhs, rest, min);
  }

  lemma {:induction false} LoopParses(lhs: Expr, toks: seq<Token>, min: nat)
    requires Chain(toks, false)
    ensures Loop(lhs, toks, min).Some? && Chain(Loop(lhs, toks, min).value.1, false)
    decreases |toks|, 1
  {
    if toks == [] || TokenPower(toks[0]) <= min {
    } else if toks[0].As? {
      LoopParses(AsE(lhs, toks[1].id), toks[2..], min);
    } else {
      BinopParses(toks[1..], Power(toks[0].op));
      var (rhs, rest) := ParseBinop(toks[1..], Power(toks[0].op)).value;
      LoopParses(Make(toks[0].op, lhs, rhs), rest, min);
    }
  }

  /** Any chain of operands and operators is consumed whole, into the one well-bound tree it spells. */
  lemma ChainParses(toks: seq<Token>) returns (e: Expr)
    requires Chain(toks, true)
    ensures ParseBinop(toks, 0) == Some((e, [])) && Yield(e) == toks && WellBound(e)
    ensures forall f :: WellBound(f) && Yield(f) == toks ==> f == e
  {
    BinopParses(toks, 0);
    BinopSound(toks, 0);
    var (x, rest) := ParseBinop(toks, 0).value;
    e := x;
    assert rest == [];
    assert Yield(e) + [] == Yield(e);
    forall f | WellBound(f) && Yield(f) == toks ensures f == e {
      TreeUnique(e, f);
    }
  }

  // ----- the levels of precedence -----

  /** From the loosest to the tightest; a cast is tighter than all of them. */
  const LEVELS: seq<seq<Infix>> :=
    [[DotDot], [Or], [And], [BitOr], [BitXor], [BitAnd], [Diff, EqEq], [Lt, Leq, Gt, Geq], [Plus, Minus],
     [Mult, Div, Modulo]]

  /** Where an operator stands in the list. */
  predicate OnLevel(op: Infix, level: nat) {
    level < |LEVELS| && op in LEVELS[level]
  }

  /** Every operator stands on one level, and its power grows with the level. */
  lemma PowerOfLevel(op: Infix, level: nat)
    ensures OnLevel(op, level) <==> Power(op) == 2 * level + 4
  {
    LevelsListed();
    var i := (Power(op) - 4) / 2;
    assert OnLevel(op, i);
    if OnLevel(op, level) {
      OneLevel(op, level);
    }
  }

  lemma LevelsListed()
    ensures |LEVELS| == 10
    ensures LEVELS[0] == [DotDot] && LEVELS[1] == [Or] && LEVELS[2] == [And] && LEVELS[3] == [BitOr]
    ensures LEVELS[4] == [BitXor] && LEVELS[5] == [BitAnd] && LEVELS[6] == [Diff, EqEq]
    ensures LEVELS[7] == [Lt, Leq, Gt, Geq] && LEVELS[8] == [Plus, Minus] && LEVELS[9] == [Mult, Div, Modulo]
  {
  }

  lemma OneLevel(op: Infix, level: nat)
    requires OnLevel(op, level)
    ensures Power(op) == 2 * level + 4
  {
    LevelsListed();
  }

  /** An operand of any operator: a literal under prefix operators. */
  predicate Operand(e: Expr) {
    WellBound(e) && Level(e) == TIGHTEST
  }

  function OpTokens(a: Expr, op: Infix, rest: seq<Token>): seq<Token> {
    Yield(a) + ([Op(op)] + rest)
  }

  lemma YieldMake(op: Infix, l: Expr, r: Expr)
    ensures Yield(Make(op, l, r)) == OpTokens(l, op, Yield(r))
  {
  }

  lemma WellBoundMake(op: Infix, l: Expr, r: Expr)
    requires WellBound(l) && WellBound(r) && Level(l) >= Power(op) && Level(r) > Power(op)
    ensures WellBound(Make(op, l, r)) && Level(Make(op, l, r)) == Power(op)
  {
    if op == DotDot {
      assert Make(op, l, r) == Range(l, r);
    } else {
      assert Make(op, l, r) == BinOp(op, l, r);
    }
  }

  lemma ParsesTo(e: Expr)
    requires WellBound(e)
    ensures ParseBinop(Yield(e), 0) == Some((e, []))
  {
    assert Yield(e) + [] == Yield(e);
    LevelPositive(e);
    ParseExact(Yield(e), 0, e, []);
  }

  /**
   * Of two operators in a row, the one on the tighter level takes the operand between them;
   * of two on one level, the left one does.
   */
  lemma TwoOperators(a: Expr, b: Expr, c: Expr, op: Infix, op': Infix, level: nat, level': nat)
    requires Operand(a) && Operand(b) && Operand(c) && OnLevel(op, level) && OnLevel(op', level')
    ensures ParseBinop(OpTokens(a, op, OpTokens(b, op', Yield(c))), 0) ==
            Some((if level' > level then Make(op, a, Make(op', b, c)) else Make(op', Make(op, a, b), c), []))
  {
    PowerOfLevel(op, level);
    PowerOfLevel(op', level');
    if level' > level {
      WellBoundMake(op', b, c);
      WellBoundMake(op, a, Make(op', b, c));
      YieldMake(op', b, c);
      YieldMake(op, a, Make(op', b, c));
      ParsesTo(Make(op, a, Make(op', b, c)));
    } else {
      WellBoundMake(op, a, b);
      WellBoundMake(op', Make(op, a, b), c);
      YieldMake(op, a, b);
      YieldMake(op', Make(op, a, b), c);
      Regroup(a, op, b, op', c);
      ParsesTo(Make(op', Make(op, a, b), c));
    }
  }

  lemma Regroup(a: Expr, op: Infix, b: Expr, op': Infix, c: Expr)
    ensures Yield(Make(op', Make(op, a, b), c)) == OpTokens(a, op, OpTokens(b, op', Yield(c)))
  {
    var end := [Op(op')] + Yield(c);
    YieldMake(op, a, b);
    YieldMake(op', Make(op, a, b), c);
    Assoc(Yield(a), [Op(op)] + Yield(b), end);
    Assoc([Op(op)], Yield(b), end);
  }

  /** A cast takes the operand in front of it, prefixes included, before any operator does. */
  lemma CastTightest(a: Expr, b: Expr, op: Infix, ty: nat)
    requires Operand(a) && Operand(b)
    ensures ParseBinop(OpTokens(a, op, Yield(b) + [As, TypeTok(ty)]), 0) == Some((Make(op, a, AsE(b, ty)), []))
    ensures ParseBinop(OpTokens(AsE(a, ty), op, Yield(b)), 0) == Some((Make(op, AsE(a, ty), b), []))
  {
    WellBoundMake(op, a, AsE(b, ty));
    YieldMake(op, a, AsE(b, ty));
    ParsesTo(Make(op, a, AsE(b, ty)));
    WellBoundMake(op, AsE(a, ty), b);
    YieldMake(op, AsE(a, ty), b);
    ParsesTo(Make(op, AsE(a, ty), b));
  }

  /** What a tree is read as wherever its root operator stands: the level of its root. */
  ghost predicate RootOn(e: Expr, level: nat) {
    match e
    case BinOp(op, _, _) => OnLevel(op, level)
    case Range(_, _) => level == 0
    case AsE(_, _) => level == |LEVELS|
    case _ => level == |LEVELS| + 1
  }

  ghost predicate AtLeast(e: Expr, level: nat) {
    exists k: nat :: level <= k && RootOn(e, k)
  }

  /** Grouped by the list alone: left operands no looser than their operator, right operands tighter. */
  ghost predicate Grouped(e: Expr) {
    match e
    case Literal(_) => true
    case BinOp(op, l, r) =>
      op != DotDot && Grouped(l) && Grouped(r) && forall k: nat :: OnLevel(op, k) ==> AtLeast(l, k) && AtLeast(r, k + 1)
    case Range(l, r) => Grouped(l) && Grouped(r) && AtLeast(l, 0) && AtLeast(r, 1)
    case AsE(x, _) => Grouped(x) && AtLeast(x, |LEVELS|)
    case Neg(x) => Grouped(x) && AtLeast(x, |LEVELS| + 1)
    case NotE(x) => Grouped(x) && AtLeast(x, |LEVELS| + 1)
    case Ref(_, x) => Grouped(x) && AtLeast(x, |LEVELS| + 1)
    case PrefixDeref(x) => Grouped(x) && AtLeast(x, |LEVELS| + 1)
  }

  lemma RootLevel(e: Expr, level: nat)
    requires level <= |LEVELS| + 1
    ensures |LEVELS| == 10
    ensures AtLeast(e, level) <==> Level(e) >= if level == 11 then TIGHTEST else 2 * level + 4
  {
    LevelsListed();
    match e
    case BinOp(op, _, _) =>
      var k := (Power(op) - 4) / 2;
      PowerOfLevel(op, k);
      forall j: nat | RootOn(e, j) ensures j == k {
        PowerOfLevel(op, j);
      }
      assert RootOn(e, k);
    case Range(_, _) => assert RootOn(e, 0);
    case AsE(_, _) => assert RootOn(e, 10);
    case _ => assert RootOn(e, 11);
  }

  lemma {:induction false} GroupedExact(e: Expr)
    ensures Grouped(e) <==> WellBound(e)
  {
    LevelsListed();
    match e
    case Literal(_) =>
    case BinOp(op, l, r) =>
      GroupedExact(l);
      GroupedExact(r);
      OperatorGrouped(op, l, r);
    case Range(l, r) =>
      GroupedExact(l);
      GroupedExact(r);
      RootLevel(l, 0);
      RootLevel(r, 1);
    case AsE(x, _) => GroupedExact(x); RootLevel(x, 10);
    case Neg(x) => GroupedExact(x); RootLevel(x, 11);
    case NotE(x) => GroupedExact(x); RootLevel(x, 11);
    case Ref(_, x) => GroupedExact(x); RootLevel(x, 11);
    case PrefixDeref(x) => GroupedExact(x); RootLevel(x, 11);
  }

  lemma OperatorGrouped(op: Infix, l: Expr, r: Expr)
    ensures (forall k: nat :: OnLevel(op, k) ==> AtLeast(l, k) && AtLeast(r, k + 1)) <==>
            Level(l) >= Power(op) && Level(r) > Power(op)
  {
    LevelsListed();
    var i := (Power(op) - 4) / 2;
    PowerOfLevel(op, i);
    RootLevel(l, i);
    RootLevel(r, i + 1);
    LevelEven(r);
    forall k: nat ensures OnLevel(op, k) <==> k == i {
      PowerOfLevel(op, k);
    }
  }

  lemma LevelEven(e: Expr)
    ensures Level(e) % 2 == 0 && (Level(e) > 24 ==> Level(e) == TIGHTEST)
  {
    if e.BinOp? {
      var _ := Power(e.op);
    }
  }

  /** The next token goes on from no operand. */
  predicate Ends(toks: seq<Token>) {
    toks == [] || !Infixes(toks[0])
  }

  /**
   * A whole expression is parsed into a tree exactly when the tokens are the tree's, the tree
   * is grouped by the list of levels, and no operator or cast follows.
   */
  lemma LevelsExact(toks: seq<Token>, e: Expr, rest: seq<Token>)
    ensures ParseBinop(toks, 0) == Some((e, rest)) <==> toks == Yield(e) + rest && Grouped(e) && Ends(rest)
  {
    ParseExact(toks, 0, e, rest);
    GroupedExact(e);
    LevelPositive(e);
  }
}

/** The parser as it runs: one position that advances over the tokens. */
module ExprParser {
  import opened Core
  import G = ExprGrammar

  class Parser {
    const tokens: seq<G.Token>
    var position: nat

    ghost function Rest(): seq<G.Token>
      reads this
    {
      if position <= |tokens| then tokens[position..] else []
    }

    constructor (tokens: seq<G.Token>)
      ensures this.tokens == tokens && Rest() == tokens
    {
      this.tokens := tokens;
      position := 0;
    }

    method ParseUnary() returns (r: Option<G.Expr>)
      modifies this
      ensures r.Some? <==> G.ParseUnary(old(Rest())).Some?
      ensures r.Some? ==> G.ParseUnary(old(Rest())).value == (r.value, Rest())
      decreases |Rest()|
    {
      if position >= |tokens| {
        return None;
      }
      var tok := tokens[position];
      assert Rest()[0] == tok && Rest()[1..] == tokens[position + 1..];
      position := position + 1;
      match tok
      case Lit(id) => return Some(G.Literal(id));
      case Op(Minus) =>
        var e :- ParseUnary();
        return Some(G.Neg(e));
      case Not =>
        var e :- ParseUnary();
        return Some(G.NotE(e));
      case Op(BitAnd) =>
        var mutable := position < |tokens| && tokens[position].Mut?;
        if mutable {
          position := position + 1;
        }
        var e :- ParseUnary();
        return Some(G.Ref(mutable, e));
      case Op(Mult) =>
        var e :- ParseUnary();
        return Some(G.PrefixDeref(e));
      case _ => return None;
    }

    method ParseBinop(min: nat) returns (r: Option<G.Expr>)
      modifies this
      ensures r.Some? <==> G.ParseBinop(old(Rest()), min).Some?
      ensures r.Some? ==> G.ParseBinop(old(Rest()), min).value == (r.value, Rest())
      decreases |Rest()|
    {
      var lhs :- ParseUnary();
      while position < |tokens| && G.Infixes(tokens[position])
        invariant |Rest()| < |old(Rest())|
        invariant G.ParseBinop(old(Rest()), min) == G.Loop(lhs, Rest(), min)
        decreases |Rest()|
      {
        var tok := tokens[position];
        if G.TokenPower(tok) <= min {
          break;
        }
        assert Rest()[0] == tok && Rest()[1..] == tokens[position + 1..];
        position := position + 1;
        if tok.As? {
          if position >= |tokens| || !tokens[position].TypeTok? {
            return None;
          }
          assert Rest()[1..] == tokens[position + 1..];
          lhs := G.AsE(lhs, tokens[position].id);
          position := position + 1;
        } else {
          var rhs :- ParseBinop(G.Power(tok.op));
          lhs := G.Make(tok.op, lhs, rhs);
        }
      }
      return Some(lhs);
    }
  }
}
