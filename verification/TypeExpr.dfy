/** Printing, lexing and parsing of type expressions. */
module TypeExpr {
  import opened Core

  /** A slice length as data: a usize of 64 bits. */
  type Usize = n: nat | n < TWO_TO_64

  /** The value of an integer token: a numeral that fits an i64. */
  type Numeral = n: nat | n < TWO_TO_63

  /**
   * What a type expression is written with. Lexing pairs neighbouring ampersands into AmpAmp
   * and reads the digits of a number into an IntLit.
   */
  datatype Token =
    | Ident(name: string) | Digits(n: nat) | IntLit(value: Numeral)
    | Amp | AmpAmp | Star | Mut
    | OpenSqr | CloseSqr | OpenPar | ClosePar | Lt | Gt | Comma | Semicolon | Access

  datatype TypeE =
    | Named(name: string, args: seq<AnyE>)
    | NameResolved(from: string, to: TypeE)
    | Ref(mutable: bool, pointee: AnyE)
    | Pointer(mutable: bool, pointee: AnyE)
    | Slice(ty: AnyE, len: Option<Usize>)
    | Tuple(tys: seq<AnyE>)

  /** Any is the placeholder written with an underscore. */
  datatype AnyE = Any | Known(ty: TypeE)

  const UNDERSCORE := "_"

  // ----- printing -----

  function IfMut(mutable: bool): seq<Token> {
    if mutable then [Mut] else []
  }

  function PrintLen(len: Option<Usize>): seq<Token> {
    if len.Some? then [Semicolon, Digits(len.value)] else []
  }

  function Print(t: TypeE): (r: seq<Token>)
    ensures r != [] && !r[|r| - 1].Amp?
    decreases t, 0
  {
    match t
    case Named(name, args) => if args == [] then [Ident(name)] else [Ident(name)] + ([Lt] + (PrintAll(args) + [Gt]))
    case NameResolved(from, to) => [Ident(from)] + ([Access] + Print(to))
    case Ref(mutable, p) => [Amp] + (IfMut(mutable) + PrintAny(p))
    case Pointer(mutable, p) => [Star] + (IfMut(mutable) + PrintAny(p))
    case Slice(ty, len) =>
      [OpenSqr] + (PrintAny(ty) + (PrintLen(len) + [CloseSqr]))
    case Tuple(tys) => [OpenPar] + (PrintAll(tys) + [ClosePar])
  }

  function PrintAny(a: AnyE): (r: seq<Token>)
    ensures r != [] && !r[|r| - 1].Amp?
    decreases a, 1
  {
    match a
    case Any => [Ident(UNDERSCORE)]
    case Known(t) => Print(t)
  }

  function PrintAll(args: seq<AnyE>): (r: seq<Token>)
    ensures r != [] ==> !r[|r| - 1].Amp?
    decreases args, 2
  {
    if args == [] then []
    else if |args| == 1 then PrintAny(args[0])
    else PrintAny(args[0]) + ([Comma] + PrintAll(args[1..]))
  }

  /** The lexer panics on a number that does not fit an i64. */
  predicate Readable(x: Token) {
    x.Digits? ==> x.n < TWO_TO_63
  }

  predicate AllReadable(s: seq<Token>) {
    forall i :: 0 <= i < |s| ==> Readable(s[i])
  }

  function LexOne(x: Token): Token {
    if x.Digits? && x.n < TWO_TO_63 then IntLit(x.n) else x
  }

  /** Longest match first: a run of ampersands becomes pairs, then at most a single one. */
  function Paired(s: seq<Token>): (r: seq<Token>) {
    if s == [] then []
    else if s[0].Amp? && |s| > 1 && s[1].Amp? then [AmpAmp] + Paired(s[2..])
    else [LexOne(s[0])] + Paired(s[1..])
  }

  /** None is a panic. */
  function Lex(s: seq<Token>): Option<seq<Token>> {
    if AllReadable(s) then Some(Paired(s)) else None
  }

  // ----- parsing -----

  function ParseType(toks: seq<Token>): (r: Option<(TypeE, seq<Token>)>)
    ensures r.Some? ==> |r.value.1| < |toks|
    decreases |toks|, 0
  {
    if toks == [] then None
    else
      match toks[0]
      case Star => ParsePointee(toks, false, true)
      case Amp => ParsePointee(toks, false, false)
      case AmpAmp => ParsePointee(toks, true, false)
      case OpenSqr =>
        var (ty, rest) :- ParseAny(toks[1..]);
        var (len, rest2) :- ParseLen(rest);
        if rest2 != [] && rest2[0].CloseSqr? then Some((Slice(ty, len), rest2[1..])) else None
      case OpenPar =>
        var (tys, rest) :- ParseArgs(toks[1..]);
        if rest != [] && rest[0].ClosePar? then Some((Tuple(tys), rest[1..])) else None
      case Ident(name) =>
        if |toks| > 1 && toks[1].Access? then
          var (to, rest) :- ParseType(toks[2..]);
          Some((NameResolved(name, to), rest))
        else if |toks| > 1 && toks[1].Lt? then
          var (args, rest) :- ParseArgs(toks[2..]);
          if rest != [] && rest[0].Gt? then Some((Named(name, args), rest[1..])) else None
        else Some((Named(name, []), toks[1..]))
      case _ => None
  }

  /** After a star or ampersands: the mutability belongs to the innermost of them. */
  function ParsePointee(toks: seq<Token>, two: bool, isPtr: bool): (r: Option<(TypeE, seq<Token>)>)
    requires toks != []
    ensures r.Some? ==> |r.value.1| < |toks|
    decreases |toks|, 0, 0
  {
    var mutable := |toks| > 1 && toks[1].Mut?;
    var (inner, rest) :- ParseAny(if mutable then toks[2..] else toks[1..]);
    if two then Some((Ref(false, Known(Ref(mutable, inner))), rest))
    else Some((if isPtr then Pointer(mutable, inner) else Ref(mutable, inner), rest))
  }

  function ParseLen(toks: seq<Token>): (r: Option<(Option<Usize>, seq<Token>)>)
    ensures r.Some? ==> |r.value.1| <= |toks|
  {
    if toks != [] && toks[0].Semicolon? then
      if |toks| > 1 && toks[1].IntLit? then Some((Some(toks[1].value), toks[2..])) else None
    else Some((None, toks))
  }

  function ParseAny(toks: seq<Token>): (r: Option<(AnyE, seq<Token>)>)
    ensures r.Some? ==> |r.value.1| < |toks|
    decreases |toks|, 1
  {
    if toks == [] then None
    else if toks[0] == Ident(UNDERSCORE) then Some((Any, toks[1..]))
    else
      var (t, rest) :- ParseType(toks);
      Some((Known(t), rest))
  }

  /** A comma-separated list; only a closing parenthesis counts as its end. */
  function ParseArgs(toks: seq<Token>): (r: Option<(seq<AnyE>, seq<Token>)>)
    ensures r.Some? ==> |r.value.1| <= |toks|
    decreases |toks|, 2
  {
    if toks == [] || toks[0].ClosePar? then Some(([], toks))
    else
      var (a, rest) :- ParseAny(toks);
      if rest != [] && rest[0].Comma? then
        var (args, rest2) :- ParseArgs(rest[1..]);
        Some(([a] + args, rest2))
      else Some(([a], rest))
  }

  /** A type at the front of a text: lexing, then parsing. */
  function ReadType(s: seq<Token>): Option<(TypeE, seq<Token>)> {
    var toks :- Lex(s);
    ParseType(toks)
  }

  // ----- which types come back -----

  /** The identifier a printed type starts with, if it starts with one. */
  function Leading(t: TypeE): Option<string> {
    match t
    case Named(name, _) => Some(name)
    case NameResolved(from, _) => Some(from)
    case _ => None
  }

  /** No nested type starts with the name `_`, and every slice length fits an i64. */
  predicate Printable(t: TypeE)
    decreases t, 0
  {
    match t
    case Named(_, args) => AllPrintable(args)
    case NameResolved(_, to) => Printable(to)
    case Ref(_, p) => AnyPrintable(p)
    case Pointer(_, p) => AnyPrintable(p)
    case Slice(ty, len) => AnyPrintable(ty) && (len.Some? ==> len.value < TWO_TO_63)
    case Tuple(tys) => AllPrintable(tys)
  }

  predicate AnyPrintable(a: AnyE)
    decreases a, 1
  {
    a.Known? ==> Leading(a.ty) != Some(UNDERSCORE) && Printable(a.ty)
  }

  predicate AllPrintable(args: seq<AnyE>)
    decreases args, 2
  {
    args == [] || (AnyPrintable(args[0]) && AllPrintable(args[1..]))
  }

  // ----- lexing -----

  /** The text splits between two tokens that are not both ampersands. */
  lemma {:induction false} PairedSplits(a: seq<Token>, b: seq<Token>)
    requires a == [] || b == [] || !(a[|a| - 1].Amp? && b[0].Amp?)
    ensures Paired(a + b) == Paired(a) + Paired(b)
    decreases |a|
  {
    if a == [] {
      assert a + b == b;
    } else if a[0].Amp? && |a| > 1 && a[1].Amp? {
      PairedSplits(a[2..], b);
      assert (a + b)[2..] == a[2..] + b;
      Assoc([AmpAmp], Paired(a[2..]), Paired(b));
    } else {
      PairedSplits(a[1..], b);
      assert (a + b)[1..] == a[1..] + b;
      Assoc([LexOne(a[0])], Paired(a[1..]), Paired(b));
    }
  }

  lemma ReadableAppend(a: seq<Token>, b: seq<Token>)
    ensures AllReadable(a + b) <==> AllReadable(a) && AllReadable(b)
  {
    if AllReadable(a + b) {
      assert forall i :: 0 <= i < |a| ==> (a + b)[i] == a[i];
      assert forall i :: 0 <= i < |b| ==> (a + b)[|a| + i] == b[i];
    }
  }

  /** Lexing splits there, too; it panics on the whole exactly when it panics on a part. */
  lemma LexSplits(a: seq<Token>, b: seq<Token>)
    requires a == [] || b == [] || !(a[|a| - 1].Amp? && b[0].Amp?)
    ensures Lex(a + b) == if Lex(a).Some? && Lex(b).Some? then Some(Lex(a).value + Lex(b).value) else None
  {
    ReadableAppend(a, b);
    PairedSplits(a, b);
  }

  /** One token in front of a text that does not pair with it. */
  lemma LexCons(x: Token, s: seq<Token>)
    requires !(x.Amp? && s != [] && s[0].Amp?)
    ensures Paired([x] + s) == [LexOne(x)] + Paired(s)
  {
    assert ([x] + s)[1..] == s;
  }

  lemma LexFirst(s: seq<Token>)
    requires s != [] && !s[0].Amp?
    ensures Paired(s) != [] && Paired(s)[0] == LexOne(s[0]) && Paired(s)[1..] == Paired(s[1..])
  {
  }

  /** What may follow a type so that the parser stops there. */
  predicate Follows(rest: seq<Token>) {
    rest == [] || !(rest[0].Access? || rest[0].Lt? || rest[0].Amp? || rest[0].Mut?)
  }

  lemma Assoc(a: seq<Token>, b: seq<Token>, c: seq<Token>)
    ensures (a + b) + c == a + (b + c)
  {
  }

  /** Reading past a token. */
  lemma Past(x: Token, s: seq<Token>)
    ensures ([x] + s)[0] == x && ([x] + s)[1..] == s
  {
  }

  // ----- the round trip -----

  lemma PrintFirst(t: TypeE)
    ensures Print(t)[0] == match t
                           case Named(n, _) => Ident(n)
                           case NameResolved(n, _) => Ident(n)
                           case Ref(_, _) => Amp
                           case Pointer(_, _) => Star
                           case Slice(_, _) => OpenSqr
                           case Tuple(_) => OpenPar
  {
  }

  lemma {:induction false} AnyBack(a: AnyE, rest: seq<Token>)
    requires AnyPrintable(a) && Follows(rest)
    ensures ParseAny(Paired(PrintAny(a) + rest)) == Some((a, Paired(rest)))
    decreases a, 1
  {
    var s := PrintAny(a) + rest;
    if a.Any? {
      LexCons(Ident(UNDERSCORE), rest);
    } else {
      TypeBack(a.ty, rest);
      PrintFirst(a.ty);
      assert s[0] == Print(a.ty)[0];
      if !a.ty.Ref? {
        LexFirst(s);
      } else {
        assert Paired(s)[0].Amp? || Paired(s)[0].AmpAmp?;
      }
    }
  }

  lemma {:induction false} AllBack(args: seq<AnyE>, rest: seq<Token>)
    requires AllPrintable(args) && rest != [] && (rest[0].ClosePar? || (rest[0].Gt? && args != []))
    ensures ParseArgs(Paired(PrintAll(args) + rest)) == Some((args, Paired(rest)))
    decreases args, 2
  {
    LexFirst(rest);
    if args == [] {
      assert PrintAll(args) + rest == rest;
    } else if |args| == 1 {
      OneBack(args[0], rest);
      assert args == [args[0]];
    } else {
      ManyBack(args, rest);
    }
  }

  lemma {:induction false} ManyBack(args: seq<AnyE>, rest: seq<Token>)
    requires |args| > 1 && AllPrintable(args) && rest != [] && (rest[0].ClosePar? || rest[0].Gt?)
    ensures ParseArgs(Paired(PrintAll(args) + rest)) == Some((args, Paired(rest)))
    decreases args, 1
  {
    var more := PrintAll(args[1..]) + rest;
    Assoc(PrintAny(args[0]), [Comma] + PrintAll(args[1..]), rest);
    Assoc([Comma], PrintAll(args[1..]), rest);
    AnyBack(args[0], [Comma] + more);
    AnyStarts(args[0], [Comma] + more);
    LexCons(Comma, more);
    Past(Comma, Paired(more));
    AllBack(args[1..], rest);
    assert args == [args[0]] + args[1..];
  }

  lemma {:induction false} OneBack(a: AnyE, rest: seq<Token>)
    requires AnyPrintable(a) && rest != [] && (rest[0].ClosePar? || rest[0].Gt?)
    ensures ParseArgs(Paired(PrintAny(a) + rest)) == Some(([a], Paired(rest)))
    decreases a, 2
  {
    LexFirst(rest);
    AnyBack(a, rest);
    AnyStarts(a, rest);
  }

  /** A list may have a comma behind its last element, in front of a closing parenthesis. */
  lemma {:induction false} AllBackComma(args: seq<AnyE>, rest: seq<Token>)
    requires AllPrintable(args) && args != [] && rest != [] && rest[0].ClosePar?
    ensures ParseArgs(Paired(PrintAll(args) + ([Comma] + rest))) == Some((args, Paired(rest)))
    decreases args, 2
  {
    if |args| == 1 {
      LastBack(args[0], rest);
      assert args == [args[0]];
    } else {
      var more := PrintAll(args[1..]) + ([Comma] + rest);
      Assoc(PrintAny(args[0]), [Comma] + PrintAll(args[1..]), [Comma] + rest);
      Assoc([Comma], PrintAll(args[1..]), [Comma] + rest);
      AnyBack(args[0], [Comma] + more);
      AnyStarts(args[0], [Comma] + more);
      LexCons(Comma, more);
      Past(Comma, Paired(more));
      AllBackComma(args[1..], rest);
      assert args == [args[0]] + args[1..];
    }
  }

  lemma LastBack(a: AnyE, rest: seq<Token>)
    requires AnyPrintable(a) && rest != [] && rest[0].ClosePar?
    ensures ParseArgs(Paired(PrintAny(a) + ([Comma] + rest))) == Some(([a], Paired(rest)))
  {
    LexFirst(rest);
    AnyBack(a, [Comma] + rest);
    AnyStarts(a, [Comma] + rest);
    LexCons(Comma, rest);
    LastArg(Paired(PrintAny(a) + ([Comma] + rest)), a, Paired(rest));
  }

  lemma LastArg(toks: seq<Token>, a: AnyE, end: seq<Token>)
    requires toks != [] && !toks[0].ClosePar? && end != [] && end[0].ClosePar?
    requires ParseAny(toks) == Some((a, [Comma] + end))
    ensures ParseArgs(toks) == Some(([a], end))
  {
    Past(Comma, end);
    assert ParseArgs(end) == Some(([], end));
    assert [a] + [] == [a];
  }

  /** A tuple is read the same with a comma behind its last element. */
  lemma TrailingComma(tys: seq<AnyE>, rest: seq<Token>)
    requires AllPrintable(tys) && tys != []
    ensures ParseType(Paired([OpenPar] + (PrintAll(tys) + ([Comma] + ([ClosePar] + rest))))) ==
            Some((Tuple(tys), Paired(rest)))
  {
    var more := PrintAll(tys) + ([Comma] + ([ClosePar] + rest));
    AllBackComma(tys, [ClosePar] + rest);
    LexCons(OpenPar, more);
    LexCons(ClosePar, rest);
    Past(OpenPar, Paired(more));
    Past(ClosePar, Paired(rest));
  }

  lemma AnyStarts(a: AnyE, tail: seq<Token>)
    ensures var toks := Paired(PrintAny(a) + tail); toks != [] && !toks[0].ClosePar?
  {
    var s := PrintAny(a) + tail;
    if a.Known? {
      PrintFirst(a.ty);
    }
    assert s[0] == PrintAny(a)[0];
  }

  lemma {:induction false} TypeBack(t: TypeE, rest: seq<Token>)
    requires Printable(t) && Follows(rest)
    ensures ParseType(Paired(Print(t) + rest)) == Some((t, Paired(rest)))
    decreases t, 0
  {
    match t
    case Named(_, _) => NamedBack(t, rest);
    case NameResolved(_, _) => ResolvedBack(t, rest);
    case Ref(_, _) => RefBack(t, rest);
    case Pointer(_, _) => PointerBack(t, rest);
    case Slice(_, _) => SliceBack(t, rest);
    case Tuple(_) => TupleBack(t, rest);
  }

  lemma {:induction false} ResolvedBack(t: TypeE, rest: seq<Token>)
    requires t.NameResolved? && Printable(t) && Follows(rest)
    ensures ParseType(Paired(Print(t) + rest)) == Some((t, Paired(rest)))
    decreases t, 0, 0
  {
    var s := Print(t.to) + rest;
    Assoc([Ident(t.from)], [Access] + Print(t.to), rest);
    Assoc([Access], Print(t.to), rest);
    LexCons(Ident(t.from), [Access] + s);
    LexCons(Access, s);
    TypeBack(t.to, rest);
    Third(Ident(t.from), Access, Paired(s));
  }

  lemma {:induction false} PointerBack(t: TypeE, rest: seq<Token>)
    requires t.Pointer? && Printable(t) && Follows(rest)
    ensures ParseType(Paired(Print(t) + rest)) == Some((t, Paired(rest)))
    decreases t, 0, 0
  {
    var s := IfMut(t.mutable) + (PrintAny(t.pointee) + rest);
    Assoc([Star], IfMut(t.mutable) + PrintAny(t.pointee), rest);
    Assoc(IfMut(t.mutable), PrintAny(t.pointee), rest);
    LexCons(Star, s);
    PointeeBack(Star, t.mutable, t.pointee, rest);
    Past(Star, Paired(s));
  }

  lemma {:induction false} TupleBack(t: TypeE, rest: seq<Token>)
    requires t.Tuple? && Printable(t) && Follows(rest)
    ensures ParseType(Paired(Print(t) + rest)) == Some((t, Paired(rest)))
    decreases t, 0, 0
  {
    var s := PrintAll(t.tys) + ([ClosePar] + rest);
    Assoc([OpenPar], PrintAll(t.tys) + [ClosePar], rest);
    Assoc(PrintAll(t.tys), [ClosePar], rest);
    LexCons(OpenPar, s);
    LexCons(ClosePar, rest);
    AllBack(t.tys, [ClosePar] + rest);
    Past(OpenPar, Paired(s));
    Past(ClosePar, Paired(rest));
  }

  lemma {:induction false} NamedBack(t: TypeE, rest: seq<Token>)
    requires t.Named? && Printable(t) && Follows(rest)
    ensures ParseType(Paired(Print(t) + rest)) == Some((t, Paired(rest)))
    decreases t, 0, 0
  {
    if t.args == [] {
      LexCons(Ident(t.name), rest);
      FollowsLexed(rest);
    } else {
      var s := PrintAll(t.args) + ([Gt] + rest);
      Assoc([Ident(t.name)], [Lt] + (PrintAll(t.args) + [Gt]), rest);
      Assoc([Lt], PrintAll(t.args) + [Gt], rest);
      Assoc(PrintAll(t.args), [Gt], rest);
      LexCons(Ident(t.name), [Lt] + s);
      LexCons(Lt, s);
      LexCons(Gt, rest);
      AllBack(t.args, [Gt] + rest);
      Third(Ident(t.name), Lt, Paired(s));
      Past(Gt, Paired(rest));
    }
  }

  lemma FollowsLexed(rest: seq<Token>)
    requires Follows(rest)
    ensures Paired(rest) == [] || !(Paired(rest)[0].Access? || Paired(rest)[0].Lt?)
  {
    if rest != [] {
      LexFirst(rest);
    }
  }

  lemma {:induction false} SliceBack(t: TypeE, rest: seq<Token>)
    requires t.Slice? && Printable(t) && Follows(rest)
    ensures ParseType(Paired(Print(t) + rest)) == Some((t, Paired(rest)))
    decreases t, 0, 0
  {
    var length := PrintLen(t.len);
    var tail := length + ([CloseSqr] + rest);
    Assoc([OpenSqr], PrintAny(t.ty) + (length + [CloseSqr]), rest);
    Assoc(PrintAny(t.ty), length + [CloseSqr], rest);
    Assoc(length, [CloseSqr], rest);
    LexCons(OpenSqr, PrintAny(t.ty) + tail);
    AnyBack(t.ty, tail);
    LenBack(t.len, rest);
    Past(OpenSqr, Paired(PrintAny(t.ty) + tail));
    LexCons(CloseSqr, rest);
    Past(CloseSqr, Paired(rest));
  }

  lemma LenBack(len: Option<Usize>, rest: seq<Token>)
    requires len.Some? ==> len.value < TWO_TO_63
    ensures ParseLen(Paired(PrintLen(len) + ([CloseSqr] + rest))) == Some((len, Paired([CloseSqr] + rest)))
  {
    var close := [CloseSqr] + rest;
    if len.Some? {
      Assoc([Semicolon], [Digits(len.value)], close);
      assert PrintLen(len) == [Semicolon] + [Digits(len.value)];
      NumberBack(len.value, close);
    } else {
      assert [] + close == close;
      LexCons(CloseSqr, rest);
    }
  }

  lemma NumberBack(n: Numeral, close: seq<Token>)
    ensures ParseLen(Paired([Semicolon] + ([Digits(n)] + close))) == Some((Some(n), Paired(close)))
  {
    var l := Paired(close);
    LexCons(Digits(n), close);
    LexCons(Semicolon, [Digits(n)] + close);
    Third(Semicolon, IntLit(n), l);
  }

  lemma Third(x: Token, y: Token, s: seq<Token>)
    ensures ([x] + ([y] + s))[0] == x && ([x] + ([y] + s))[1] == y && ([x] + ([y] + s))[2..] == s
  {
  }

  /** A star or a lone ampersand, the mutability, the pointee. */
  lemma {:induction false} PointeeBack(first: Token, mutable: bool, p: AnyE, rest: seq<Token>)
    requires AnyPrintable(p) && Follows(rest)
    ensures ParsePointee([first] + Paired(IfMut(mutable) + (PrintAny(p) + rest)), first.AmpAmp?, first.Star?) ==
            Some((if first.AmpAmp? then Ref(false, Known(Ref(mutable, p)))
                  else if first.Star? then Pointer(mutable, p) else Ref(mutable, p), Paired(rest)))
    decreases p, 3
  {
    var s := PrintAny(p) + rest;
    AnyBack(p, rest);
    NoMutFirst(p, rest);
    MutPaired(mutable, s);
    PointeeRead(first, mutable, p, Paired(s), Paired(rest));
  }

  lemma MutPaired(mutable: bool, s: seq<Token>)
    ensures Paired(IfMut(mutable) + s) == IfMut(mutable) + Paired(s)
  {
    if mutable {
      LexCons(Mut, s);
    } else {
      NothingBefore(s);
      NothingBefore(Paired(s));
    }
  }

  lemma PointeeRead(first: Token, mutable: bool, p: AnyE, toks: seq<Token>, end: seq<Token>)
    requires toks != [] && !toks[0].Mut? && ParseAny(toks) == Some((p, end))
    ensures ParsePointee([first] + (IfMut(mutable) + toks), first.AmpAmp?, first.Star?) ==
            Some((if first.AmpAmp? then Ref(false, Known(Ref(mutable, p)))
                  else if first.Star? then Pointer(mutable, p) else Ref(mutable, p), end))
  {
    if mutable {
      Third(first, Mut, toks);
    } else {
      NothingBefore(toks);
      assert ([first] + toks)[1..] == toks;
    }
  }

  lemma NoMutFirst(p: AnyE, rest: seq<Token>)
    ensures var toks := Paired(PrintAny(p) + rest); toks != [] && !toks[0].Mut?
  {
    if p.Known? {
      PrintFirst(p.ty);
    }
    assert (PrintAny(p) + rest)[0] == PrintAny(p)[0];
  }

  /** Two references in a row are lexed as one token that the parser takes apart again. */
  lemma {:induction false} RefBack(t: TypeE, rest: seq<Token>)
    requires t.Ref? && Printable(t) && Follows(rest)
    ensures ParseType(Paired(Print(t) + rest)) == Some((t, Paired(rest)))
    decreases t, 0, 1
  {
    if !t.mutable && t.pointee.Known? && t.pointee.ty.Ref? {
      RefRefBack(t, rest);
    } else {
      var s := IfMut(t.mutable) + (PrintAny(t.pointee) + rest);
      RefPrinted(t, rest);
      NotAmpFirst(t, rest);
      LexCons(Amp, s);
      PointeeBack(Amp, t.mutable, t.pointee, rest);
      Past(Amp, Paired(s));
    }
  }

  lemma RefPrinted(t: TypeE, rest: seq<Token>)
    requires t.Ref?
    ensures Print(t) + rest == [Amp] + (IfMut(t.mutable) + (PrintAny(t.pointee) + rest))
  {
    Assoc([Amp], IfMut(t.mutable) + PrintAny(t.pointee), rest);
    Assoc(IfMut(t.mutable), PrintAny(t.pointee), rest);
  }

  /** The ampersands of two references are lexed as one token. */
  lemma {:induction false} RefRefBack(t: TypeE, rest: seq<Token>)
    requires t.Ref? && !t.mutable && t.pointee.Known? && t.pointee.ty.Ref? && Printable(t) && Follows(rest)
    ensures ParseType(Paired(Print(t) + rest)) == Some((t, Paired(rest)))
    decreases t, 0, 0
  {
    var inner := t.pointee.ty;
    var s := IfMut(inner.mutable) + (PrintAny(inner.pointee) + rest);
    RefRefPrinted(t, rest);
    AmpsPaired(s);
    assert AnyPrintable(t.pointee) && Printable(inner);
    PointeeBack(AmpAmp, inner.mutable, inner.pointee, rest);
    Past(AmpAmp, Paired(s));
  }

  lemma RefRefPrinted(t: TypeE, rest: seq<Token>)
    requires t.Ref? && !t.mutable && t.pointee.Known? && t.pointee.ty.Ref?
    ensures var inner := t.pointee.ty;
            Print(t) + rest == [Amp] + ([Amp] + (IfMut(inner.mutable) + (PrintAny(inner.pointee) + rest)))
  {
    RefPrinted(t, rest);
    RefPrinted(t.pointee.ty, rest);
    assert PrintAny(t.pointee) == Print(t.pointee.ty);
    assert IfMut(t.mutable) + (Print(t.pointee.ty) + rest) == Print(t.pointee.ty) + rest;
  }

  lemma AmpsPaired(s: seq<Token>)
    ensures Paired([Amp] + ([Amp] + s)) == [AmpAmp] + Paired(s)
  {
    assert ([Amp] + ([Amp] + s))[2..] == s;
  }

  lemma NotAmpFirst(t: TypeE, rest: seq<Token>)
    requires t.Ref? && (t.mutable || t.pointee.Any? || !t.pointee.ty.Ref?)
    ensures var s := IfMut(t.mutable) + (PrintAny(t.pointee) + rest); s != [] && !s[0].Amp?
  {
    if t.pointee.Known? {
      PrintFirst(t.pointee.ty);
    }
    assert (PrintAny(t.pointee) + rest)[0] == PrintAny(t.pointee)[0];
  }

  // ----- the parser only builds printable types -----

  lemma {:induction false} TypePrintable(toks: seq<Token>)
    requires ParseType(toks).Some?
    ensures Printable(ParseType(toks).value.0)
    ensures Leading(ParseType(toks).value.0) == (if toks[0].Ident? then Some(toks[0].name) else None)
    decreases |toks|, 0
  {
    match toks[0]
    case Star => PointeePrintable(toks);
    case Amp => PointeePrintable(toks);
    case AmpAmp => PointeePrintable(toks);
    case OpenSqr => ParsedAnyPrintable(toks[1..]);
    case OpenPar => ArgsPrintable(toks[1..]);
    case Ident(_) =>
      if |toks| > 1 && toks[1].Access? {
        TypePrintable(toks[2..]);
      } else if |toks| > 1 && toks[1].Lt? {
        ArgsPrintable(toks[2..]);
      }
    case _ =>
  }

  lemma {:induction false} PointeePrintable(toks: seq<Token>)
    requires toks != [] && (toks[0].Star? || toks[0].Amp? || toks[0].AmpAmp?) && ParseType(toks).Some?
    ensures Printable(ParseType(toks).value.0)
    decreases |toks|, 0, 0
  {
    ParsedAnyPrintable(if |toks| > 1 && toks[1].Mut? then toks[2..] else toks[1..]);
  }

  lemma {:induction false} ParsedAnyPrintable(toks: seq<Token>)
    requires ParseAny(toks).Some?
    ensures AnyPrintable(ParseAny(toks).value.0)
    decreases |toks|, 1
  {
    if toks[0] != Ident(UNDERSCORE) {
      TypePrintable(toks);
    }
  }

  lemma {:induction false} ArgsPrintable(toks: seq<Token>)
    requires ParseArgs(toks).Some?
    ensures AllPrintable(ParseArgs(toks).value.0)
    decreases |toks|, 2
  {
    if !(toks == [] || toks[0].ClosePar?) {
      ParsedAnyPrintable(toks);
      var (a, rest) := ParseAny(toks).value;
      if rest != [] && rest[0].Comma? {
        ArgsPrintable(rest[1..]);
        var args := ParseArgs(rest[1..]).value.0;
        assert ([a] + args)[1..] == args;
      } else {
        assert [a][1..] == [];
      }
    }
  }

  // ----- what is parsed is what was written -----

  function Plain(x: Token): seq<Token> {
    match x
    case AmpAmp => [Amp, Amp]
    case IntLit(n) => [Digits(n)]
    case _ => [x]
  }

  /** The tokens as printing writes them: ampersands apart, no comma in front of a closing parenthesis. */
  function Normal(s: seq<Token>): seq<Token> {
    if s == [] then []
    else if s[0].Comma? && |s| > 1 && s[1].ClosePar? then Normal(s[1..])
    else Plain(s[0]) + Normal(s[1..])
  }

  lemma {:induction false} NormalSplits(a: seq<Token>, b: seq<Token>)
    requires a == [] || b == [] || !(a[|a| - 1].Comma? && b[0].ClosePar?)
    ensures Normal(a + b) == Normal(a) + Normal(b)
    decreases |a|
  {
    if a == [] {
      assert a + b == b;
    } else {
      NormalSplits(a[1..], b);
      assert (a + b)[1..] == a[1..] + b;
      assert |a| > 1 ==> (a + b)[1] == a[1];
      Assoc(Plain(a[0]), Normal(a[1..]), Normal(b));
    }
  }

  lemma NormalCons(x: Token, s: seq<Token>)
    requires !x.Comma?
    ensures Normal([x] + s) == Plain(x) + Normal(s)
  {
    assert ([x] + s)[1..] == s;
  }

  lemma NormalOne(x: Token)
    ensures Normal([x]) == Plain(x)
  {
    assert [x][1..] == [] && Normal([]) == [];
  }

  /** The tokens of a type, of an argument: not empty, and not ending in a comma. */
  predicate Solid(s: seq<Token>) {
    s != [] && !s[|s| - 1].Comma?
  }

  /** The parser took these tokens off the front, and they are a spelling of what was printed. */
  ghost predicate Took(toks: seq<Token>, s: seq<Token>, rest: seq<Token>, printed: seq<Token>) {
    toks == s + rest && Solid(s) && Normal(s) == printed
  }

  lemma TookMore(toks: seq<Token>, first: Token, s: seq<Token>, rest: seq<Token>, printed: seq<Token>)
    requires toks != [] && toks[0] == first && !first.Comma? && Took(toks[1..], s, rest, printed)
    ensures Took(toks, [first] + s, rest, Plain(first) + printed)
  {
    NormalCons(first, s);
    assert toks == [first] + toks[1..];
    Assoc([first], s, rest);
  }

  lemma TookEnd(toks: seq<Token>, s: seq<Token>, rest: seq<Token>, printed: seq<Token>)
    requires Took(toks, s, rest, printed) && rest != [] && !rest[0].Comma?
    ensures Took(toks, s + [rest[0]], rest[1..], printed + Plain(rest[0]))
  {
    NormalSplits(s, [rest[0]]);
    NormalOne(rest[0]);
    assert rest == [rest[0]] + rest[1..];
    Assoc(s, [rest[0]], rest[1..]);
  }

  /** Whatever the parser accepts is a spelling of its result: the two have the same normal form. */
  lemma {:induction false} TypeSpelled(toks: seq<Token>) returns (s: seq<Token>)
    requires ParseType(toks).Some?
    ensures Took(toks, s, ParseType(toks).value.1, Print(ParseType(toks).value.0))
    decreases |toks|, 0
  {
    if toks[0].OpenSqr? {
      s := SliceSpelled(toks);
    } else if toks[0].OpenPar? {
      var (tys, rest) := ParseArgs(toks[1..]).value;
      var more := ArgsSpelled(toks[1..]);
      s := [OpenPar] + more;
      TookMore(toks, OpenPar, more, rest[1..], PrintAll(tys) + [ClosePar]);
    } else if toks[0].Ident? {
      s := NameSpelled(toks);
    } else {
      s := PointeeSpelled(toks);
    }
  }

  lemma {:induction false} PointeeSpelled(toks: seq<Token>) returns (s: seq<Token>)
    requires toks != [] && (toks[0].Star? || toks[0].Amp? || toks[0].AmpAmp?) && ParseType(toks).Some?
    ensures Took(toks, s, ParseType(toks).value.1, Print(ParseType(toks).value.0))
    decreases |toks|, 0, 0
  {
    var mutable := |toks| > 1 && toks[1].Mut?;
    var from := if mutable then toks[2..] else toks[1..];
    var (a, rest) := ParseAny(from).value;
    var more := AnySpelled(from);
    var inner := MutSpelled(toks[1..], mutable, more, rest, PrintAny(a));
    PrintedPointee(toks[0], mutable, a);
    TookMore(toks, toks[0], inner, rest, IfMut(mutable) + PrintAny(a));
    s := [toks[0]] + inner;
  }

  lemma MutSpelled(toks: seq<Token>, mutable: bool, more: seq<Token>, rest: seq<Token>, printed: seq<Token>)
    returns (s: seq<Token>)
    requires mutable ==> toks != [] && toks[0].Mut?
    requires Took(if mutable then toks[1..] else toks, more, rest, printed)
    ensures Took(toks, s, rest, IfMut(mutable) + printed)
  {
    if mutable {
      TookMore(toks, Mut, more, rest, printed);
      s := [Mut] + more;
    } else {
      assert IfMut(mutable) + printed == printed;
      s := more;
    }
  }

  /** What is parsed after a star or ampersands, printed. */
  lemma PrintedPointee(first: Token, mutable: bool, a: AnyE)
    requires first.Star? || first.Amp? || first.AmpAmp?
    ensures var t := if first.AmpAmp? then Ref(false, Known(Ref(mutable, a)))
                     else if first.Star? then Pointer(mutable, a) else Ref(mutable, a);
            Print(t) == Plain(first) + (IfMut(mutable) + PrintAny(a))
  {
    if first.AmpAmp? {
      PrintedRef(Ref(mutable, a));
      TwoAmps(IfMut(mutable) + PrintAny(a));
    }
  }

  lemma PrintedRef(inner: TypeE)
    ensures Print(Ref(false, Known(inner))) == [Amp] + Print(inner)
  {
    NothingBefore(Print(inner));
  }

  lemma NothingBefore(s: seq<Token>)
    ensures IfMut(false) + s == s
  {
  }

  lemma TwoAmps(s: seq<Token>)
    ensures [Amp] + ([Amp] + s) == Plain(AmpAmp) + s
  {
  }

  lemma {:induction false} SliceSpelled(toks: seq<Token>) returns (s: seq<Token>)
    requires toks != [] && toks[0].OpenSqr? && ParseType(toks).Some?
    ensures Took(toks, s, ParseType(toks).value.1, Print(ParseType(toks).value.0))
    decreases |toks|, 0, 0
  {
    var (ty, rest) := ParseAny(toks[1..]).value;
    var (len, rest2) := ParseLen(rest).value;
    s := AnySpelled(toks[1..]);
    if len.Some? {
      assert rest[1..][0] == rest[1] && rest[1..][1..] == rest[2..];
      TookEnd(toks[1..], s, rest, PrintAny(ty));
      TookEnd(toks[1..], s + [Semicolon], rest[1..], PrintAny(ty) + [Semicolon]);
      s := s + [Semicolon] + [rest[1]];
      assert PrintAny(ty) + [Semicolon] + Plain(rest[1]) == PrintAny(ty) + PrintLen(len);
    } else {
      assert PrintAny(ty) + PrintLen(len) == PrintAny(ty);
    }
    TookEnd(toks[1..], s, rest2, PrintAny(ty) + PrintLen(len));
    Assoc(PrintAny(ty), PrintLen(len), [CloseSqr]);
    s := s + [CloseSqr];
    TookMore(toks, OpenSqr, s, rest2[1..], PrintAny(ty) + (PrintLen(len) + [CloseSqr]));
    s := [OpenSqr] + s;
  }

  lemma {:induction false} NameSpelled(toks: seq<Token>) returns (s: seq<Token>)
    requires toks != [] && toks[0].Ident? && ParseType(toks).Some?
    ensures Took(toks, s, ParseType(toks).value.1, Print(ParseType(toks).value.0))
    decreases |toks|, 0, 0
  {
    var x := toks[0];
    if |toks| > 1 && toks[1].Access? {
      var (to, rest) := ParseType(toks[2..]).value;
      s := TypeSpelled(toks[2..]);
      TookMore(toks[1..], Access, s, rest, Print(to));
      TookMore(toks, x, [Access] + s, rest, [Access] + Print(to));
      s := [x] + ([Access] + s);
    } else if |toks| > 1 && toks[1].Lt? {
      var (args, rest) := ParseArgs(toks[2..]).value;
      s := ArgsSpelled(toks[2..]);
      TookMore(toks[1..], Lt, s, rest[1..], PrintAll(args) + [Gt]);
      TookMore(toks, x, [Lt] + s, rest[1..], [Lt] + (PrintAll(args) + [Gt]));
      s := [x] + ([Lt] + s);
    } else {
      s := [x];
      NormalOne(x);
      assert toks == [x] + toks[1..];
    }
  }

  lemma {:induction false} AnySpelled(toks: seq<Token>) returns (s: seq<Token>)
    requires ParseAny(toks).Some?
    ensures Took(toks, s, ParseAny(toks).value.1, PrintAny(ParseAny(toks).value.0))
    decreases |toks|, 1
  {
    if toks[0] == Ident(UNDERSCORE) {
      s := [toks[0]];
      NormalOne(toks[0]);
      assert toks == [toks[0]] + toks[1..];
    } else {
      s := TypeSpelled(toks);
    }
  }

  /** A list with the token that closes it, which may stand behind a last comma. */
  lemma {:induction false} ArgsSpelled(toks: seq<Token>) returns (s: seq<Token>)
    requires ParseArgs(toks).Some? && ParseArgs(toks).value.1 != []
    requires ParseArgs(toks).value.1[0].ClosePar? || ParseArgs(toks).value.1[0].Gt?
    ensures var (args, rest) := ParseArgs(toks).value;
            Took(toks, s, rest[1..], PrintAll(args) + [rest[0]]) && (rest[0].Gt? ==> args != [])
    decreases |toks|, 2
  {
    if toks[0].ClosePar? {
      s := [toks[0]];
      NormalOne(toks[0]);
      assert toks == [toks[0]] + toks[1..] && PrintAll([]) + [toks[0]] == [toks[0]];
    } else {
      var (a, rest) := ParseAny(toks).value;
      s := AnySpelled(toks);
      if rest != [] && rest[0].Comma? {
        s := MoreSpelled(toks, a, rest, s);
      } else {
        TookEnd(toks, s, rest, PrintAny(a));
        s := s + [rest[0]];
        assert PrintAll([a]) == PrintAny(a);
      }
    }
  }

  /** An argument, a comma, and either more arguments or the end of the list. */
  lemma {:induction false} MoreSpelled(toks: seq<Token>, a: AnyE, rest: seq<Token>, s1: seq<Token>)
    returns (s: seq<Token>)
    requires Took(toks, s1, rest, PrintAny(a)) && rest != [] && rest[0].Comma?
    requires ParseArgs(rest[1..]).Some? && ParseArgs(rest[1..]).value.1 != []
    requires ParseArgs(rest[1..]).value.1[0].ClosePar? || ParseArgs(rest[1..]).value.1[0].Gt?
    ensures var (args, end) := ParseArgs(rest[1..]).value;
            Took(toks, s, end[1..], PrintAll([a] + args) + [end[0]])
    decreases |toks|, 0
  {
    var (args, end) := ParseArgs(rest[1..]).value;
    assert |toks| == |s1| + |rest|;
    var s2 := ArgsSpelled(rest[1..]);
    s := s1 + ([Comma] + s2);
    assert rest == [Comma] + rest[1..];
    Assoc([Comma], s2, end[1..]);
    Assoc(s1, [Comma] + s2, end[1..]);
    assert ([Comma] + s2)[1..] == s2;
    NormalSplits(s1, [Comma] + s2);
    if args == [] {
      LastComma(rest[1..], s2, end[1..], end[0]);
      assert [a] + args == [a];
    } else {
      FirstArg(rest[1..]);
      assert s2[0] == rest[1..][0];
      assert ([a] + args)[1..] == args;
      Assoc(PrintAny(a), [Comma] + PrintAll(args), [end[0]]);
      Assoc([Comma], PrintAll(args), [end[0]]);
    }
  }

  /** A list that starts with a closing parenthesis is empty. */
  lemma FirstArg(toks: seq<Token>)
    requires ParseArgs(toks).Some? && ParseArgs(toks).value.0 != []
    ensures toks != [] && !toks[0].ClosePar?
  {
  }

  lemma LastComma(toks: seq<Token>, s2: seq<Token>, rest: seq<Token>, close: Token)
    requires Took(toks, s2, rest, PrintAll([]) + [close]) && toks[0].ClosePar?
    ensures Normal([Comma] + s2) == [close]
  {
    assert s2[0] == toks[0];
    assert ([Comma] + s2)[1..] == s2;
  }

  // ----- the numbers of a printed type -----

  lemma Enclosed(open: Token, s: seq<Token>, close: Token)
    requires Readable(open) && AllReadable(s) && Readable(close)
    ensures AllReadable([open] + (s + [close]))
  {
    ReadableAppend(s, [close]);
    ReadableAppend([open], s + [close]);
  }

  lemma SliceReadable(ty: seq<Token>, len: Option<Usize>)
    requires AllReadable(ty) && (len.Some? ==> len.value < TWO_TO_63)
    ensures AllReadable([OpenSqr] + (ty + (PrintLen(len) + [CloseSqr])))
  {
    ReadableAppend(PrintLen(len), [CloseSqr]);
    ReadableAppend(ty, PrintLen(len) + [CloseSqr]);
    ReadableAppend([OpenSqr], ty + (PrintLen(len) + [CloseSqr]));
  }

  lemma {:induction false} PrintReadable(t: TypeE)
    requires Printable(t)
    ensures AllReadable(Print(t))
    decreases t, 0
  {
    match t
    case Named(name, args) =>
      AllPrintReadable(args);
      Enclosed(Lt, PrintAll(args), Gt);
      ReadableAppend([Ident(name)], [Lt] + (PrintAll(args) + [Gt]));
    case NameResolved(from, to) =>
      PrintReadable(to);
      ReadableAppend([Access], Print(to));
      ReadableAppend([Ident(from)], [Access] + Print(to));
    case Ref(mutable, p) =>
      AnyPrintReadable(p);
      ReadableAppend(IfMut(mutable), PrintAny(p));
      ReadableAppend([Amp], IfMut(mutable) + PrintAny(p));
    case Pointer(mutable, p) =>
      AnyPrintReadable(p);
      ReadableAppend(IfMut(mutable), PrintAny(p));
      ReadableAppend([Star], IfMut(mutable) + PrintAny(p));
    case Slice(ty, len) =>
      AnyPrintReadable(ty);
      SliceReadable(PrintAny(ty), len);
    case Tuple(tys) =>
      AllPrintReadable(tys);
      Enclosed(OpenPar, PrintAll(tys), ClosePar);
  }

  lemma {:induction false} AnyPrintReadable(a: AnyE)
    requires AnyPrintable(a)
    ensures AllReadable(PrintAny(a))
    decreases a, 1
  {
    if a.Known? {
      PrintReadable(a.ty);
    }
  }

  lemma {:induction false} AllPrintReadable(args: seq<AnyE>)
    requires AllPrintable(args)
    ensures AllReadable(PrintAll(args))
    decreases args, 2
  {
    if args != [] {
      AnyPrintReadable(args[0]);
      if |args| > 1 {
        AllPrintReadable(args[1..]);
        ReadableAppend([Comma], PrintAll(args[1..]));
        ReadableAppend(PrintAny(args[0]), [Comma] + PrintAll(args[1..]));
      }
    }
  }

  // ----- the main results -----

  /** A printable type is read back in front of any text that cannot continue it and that can be lexed. */
  lemma TypeReadBack(t: TypeE, rest: seq<Token>)
    requires Printable(t) && Follows(rest)
    ensures ReadType(Print(t) + rest) == if Lex(rest).Some? then Some((t, Lex(rest).value)) else None
  {
    PrintReadable(t);
    ReadableAppend(Print(t), rest);
    TypeBack(t, rest);
  }

  /** Printing, lexing and parsing gives a type back exactly when it is printable. */
  lemma RoundTripExact(t: TypeE)
    ensures ReadType(Print(t)) == Some((t, [])) <==> Printable(t)
  {
    assert Print(t) + [] == Print(t);
    if Printable(t) {
      TypeReadBack(t, []);
    } else if ReadType(Print(t)).Some? {
      TypePrintable(Lex(Print(t)).value);
    }
  }

  /** Printing is injective on printable types. */
  lemma PrintInjective(t: TypeE, u: TypeE)
    requires Printable(t) && Printable(u) && Print(t) == Print(u)
    ensures t == u
  {
    RoundTripExact(t);
    RoundTripExact(u);
  }

  /** A type named `_` with arguments, nested in a reference, does not come back. */
  lemma UnderscoreLost()
    ensures var t := Ref(false, Known(Named(UNDERSCORE, [Any]))); ReadType(Print(t)) != Some((t, []))
  {
    RoundTripExact(Ref(false, Known(Named(UNDERSCORE, [Any]))));
  }

  /** The lexer panics on `[_; 9223372036854775808]`, the text of a slice type with that length. */
  lemma LongSlicePanics()
    ensures Lex(Print(Slice(Any, Some(TWO_TO_63)))).None?
  {
    var s := Print(Slice(Any, Some(TWO_TO_63)));
    assert s == [OpenSqr, Ident(UNDERSCORE), Semicolon, Digits(TWO_TO_63), CloseSqr];
    assert !Readable(s[3]);
  }
}

/** The type parser as it runs: one position that advances over the tokens. */
module TypeParser {
  import opened Core
  import G = TypeExpr

  class Parser {
    const tokens: seq<G.Token>
    var position: nat

    ghost function Rest(): seq<G.Token>
      reads this
    {
      if position <= |tokens| then tokens[position..] else []
    }

    constructor (tokens: seq<G.Token>)
      ensures this.tokens == tokens && Rest() == tokens
    {
      this.tokens := tokens;
      position := 0;
    }

    method ParseTypeExpr() returns (r: Option<G.TypeE>)
      modifies this
      ensures r.Some? <==> G.ParseType(old(Rest())).Some?
      ensures r.Some? ==> G.ParseType(old(Rest())).value == (r.value, Rest())
      decreases |Rest()|, 0
    {
      if position >= |tokens| {
        return None;
      }
      var tok := tokens[position];
      if tok.Star? || tok.Amp? || tok.AmpAmp? {
        r := ParsePointee(tok.AmpAmp?, tok.Star?);
      } else if tok.OpenSqr? {
        r := ParseSlice();
      } else if tok.OpenPar? {
        r := ParseTuple();
      } else if tok.Ident? {
        assert Rest() == tokens[position..];
        position := position + 1;
        r := ParseNamed(tok.name);
      } else {
        return None;
      }
    }

    method ParseSlice() returns (r: Option<G.TypeE>)
      requires position < |tokens| && tokens[position].OpenSqr?
      modifies this
      ensures r.Some? <==> G.ParseType(old(Rest())).Some?
      ensures r.Some? ==> G.ParseType(old(Rest())).value == (r.value, Rest())
      decreases |Rest()|, 0, 0
    {
      assert Rest()[1..] == tokens[position + 1..];
      position := position + 1;
      var ty :- ParseAnyTypeExpr();
      var len :- ParseLength();
      if position >= |tokens| || !tokens[position].CloseSqr? {
        return None;
      }
      assert Rest()[1..] == tokens[position + 1..];
      position := position + 1;
      return Some(G.Slice(ty, len));
    }

    method ParseTuple() returns (r: Option<G.TypeE>)
      requires position < |tokens| && tokens[position].OpenPar?
      modifies this
      ensures r.Some? <==> G.ParseType(old(Rest())).Some?
      ensures r.Some? ==> G.ParseType(old(Rest())).value == (r.value, Rest())
      decreases |Rest()|, 0, 0
    {
      assert Rest()[1..] == tokens[position + 1..];
      position := position + 1;
      var tys :- ParseAnyTypeArgs();
      if position >= |tokens| || !tokens[position].ClosePar? {
        return None;
      }
      assert Rest()[1..] == tokens[position + 1..];
      position := position + 1;
      return Some(G.Tuple(tys));
    }

    /** A star, an ampersand or two, whose mutability is the innermost one's. */
    method ParsePointee(two: bool, isPtr: bool) returns (r: Option<G.TypeE>)
      requires position < |tokens|
      modifies this
      ensures r.Some? <==> G.ParsePointee(old(Rest()), two, isPtr).Some?
      ensures r.Some? ==> G.ParsePointee(old(Rest()), two, isPtr).value == (r.value, Rest())
      decreases |Rest()|, 0, 0
    {
      assert Rest()[1..] == tokens[position + 1..];
      position := position + 1;
      var mutable := position < |tokens| && tokens[position].Mut?;
      if mutable {
        assert old(Rest())[2..] == tokens[position + 1..];
        position := position + 1;
      }
      var inner :- ParseAnyTypeExpr();
      if two {
        return Some(G.Ref(false, G.Known(G.Ref(mutable, inner))));
      }
      return Some(if isPtr then G.Pointer(mutable, inner) else G.Ref(mutable, inner));
    }

    method ParseLength() returns (r: Option<Option<G.Usize>>)
      modifies this
      ensures r.Some? <==> G.ParseLen(old(Rest())).Some?
      ensures r.Some? ==> G.ParseLen(old(Rest())).value == (r.value, Rest())
    {
      if position >= |tokens| || !tokens[position].Semicolon? {
        return Some(None);
      }
      assert Rest()[1..] == tokens[position + 1..];
      position := position + 1;
      if position >= |tokens| || !tokens[position].IntLit? {
        return None;
      }
      var n := tokens[position].value;
      assert old(Rest())[2..] == tokens[position + 1..];
      position := position + 1;
      return Some(Some(n));
    }

    /** What may follow a name: a path, arguments, or nothing. */
    method ParseNamed(name: string) returns (r: Option<G.TypeE>)
      requires 0 < position <= |tokens| && tokens[position - 1] == G.Ident(name)
      modifies this
      ensures r.Some? <==> G.ParseType(tokens[old(position) - 1..]).Some?
      ensures r.Some? ==> G.ParseType(tokens[old(position) - 1..]).value == (r.value, Rest())
      decreases |Rest()|, 3
    {
      ghost var toks := tokens[position - 1..];
      assert toks[1..] == Rest();
      if position < |tokens| && tokens[position].Access? {
        assert toks[2..] == tokens[position + 1..];
        position := position + 1;
        var to :- ParseTypeExpr();
        return Some(G.NameResolved(name, to));
      }
      if position < |tokens| && tokens[position].Lt? {
        assert toks[2..] == tokens[position + 1..];
        position := position + 1;
        var args :- ParseAnyTypeArgs();
        if position >= |tokens| || !tokens[position].Gt? {
          return None;
        }
        assert Rest()[1..] == tokens[position + 1..];
        position := position + 1;
        return Some(G.Named(name, args));
      }
      return Some(G.Named(name, []));
    }

    method ParseAnyTypeExpr() returns (r: Option<G.AnyE>)
      modifies this
      ensures r.Some? <==> G.ParseAny(old(Rest())).Some?
      ensures r.Some? ==> G.ParseAny(old(Rest())).value == (r.value, Rest())
      decreases |Rest()|, 1
    {
      if position < |tokens| && tokens[position] == G.Ident(G.UNDERSCORE) {
        assert Rest()[0] == tokens[position] && Rest()[1..] == tokens[position + 1..];
        position := position + 1;
        return Some(G.Any);
      }
      var t :- ParseTypeExpr();
      return Some(G.Known(t));
    }

    /** One argument and the comma after it, if there is one. */
    method ParseAnyTypeArg() returns (r: Option<(G.AnyE, bool)>)
      modifies this
      ensures r.Some? <==> G.ParseAny(old(Rest())).Some?
      ensures r.Some? ==> var (a, rest) := G.ParseAny(old(Rest())).value;
                          r.value == (a, CommaNext(rest)) && Rest() == if r.value.1 then rest[1..] else rest
      decreases |Rest()|, 2
    {
      var a :- ParseAnyTypeExpr();
      if position >= |tokens| || !tokens[position].Comma? {
        return Some((a, false));
      }
      assert Rest()[1..] == tokens[position + 1..];
      position := position + 1;
      return Some((a, true));
    }

    method ParseAnyTypeArgs() returns (r: Option<seq<G.AnyE>>)
      modifies this
      ensures r.Some? <==> G.ParseArgs(old(Rest())).Some?
      ensures r.Some? ==> G.ParseArgs(old(Rest())).value == (r.value, Rest())
      decreases |Rest()|, 3
    {
      var args := [];
      ghost var start := Rest();
      BeforeStep([], G.Any, G.ParseArgs(start));
      while position < |tokens| && !tokens[position].ClosePar?
        invariant |Rest()| <= |start|
        invariant G.ParseArgs(start) == Before(args, G.ParseArgs(Rest()))
        decreases |Rest()|
      {
        ArgsStep(Rest());
        var arg :- ParseAnyTypeArg();
        if !arg.1 {
          return Some(args + [arg.0]);
        }
        BeforeStep(args, arg.0, G.ParseArgs(Rest()));
        args := args + [arg.0];
      }
      assert args + [] == args;
      return Some(args);
    }
  }

  /** What is left to parse, after these arguments. */
  ghost function Before(args: seq<G.AnyE>,
                        rest: Option<(seq<G.AnyE>, seq<G.Token>)>): Option<(seq<G.AnyE>, seq<G.Token>)>
  {
    match rest
    case None => None
    case Some(p) => Some((args + p.0, p.1))
  }

  predicate CommaNext(toks: seq<G.Token>) {
    toks != [] && toks[0].Comma?
  }

  /** One argument, and the others if a comma follows it. */
  lemma ArgsStep(toks: seq<G.Token>)
    requires toks != [] && !toks[0].ClosePar?
    ensures var one := G.ParseAny(toks);
            G.ParseArgs(toks) ==
            if one.None? then None
            else if CommaNext(one.value.1) then
              Before([one.value.0], G.ParseArgs(one.value.1[1..]))
            else Some(([one.value.0], one.value.1))
  {
  }

  lemma BeforeStep(args: seq<G.AnyE>, a: G.AnyE, rest: Option<(seq<G.AnyE>, seq<G.Token>)>)
    ensures Before(args, Before([a], rest)) == Before(args + [a], rest)
    ensures Before([], rest) == rest
  {
    if rest.Some? {
      assert args + ([a] + rest.value.0) == args + [a] + rest.value.0;
      assert [] + rest.value.0 == rest.value.0;
    }
  }
}
