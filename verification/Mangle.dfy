/** Symbol mangling. A string stands for the bytes of the symbol. */
module Mangle {
  import opened Core
  import Layout

  datatype MangleType =
    | Ptr(t: MangleType)
    | Tuple(ts: seq<MangleType>)
    | Array(t: MangleType)
    | Bool
    | Int(width: WidthKind, signed: bool)
    | Adt(path: seq<string>, name: string, parameters: seq<MangleType>)
    | Never
    | Error

  datatype Sig = Sig(name: string, parameters: seq<MangleType>, ret: MangleType)

  datatype MangleFun =
    | Extern(name: string)
    | Method(isStatic: bool, ty: MangleType, sig: Sig, templates: seq<MangleType>)
    | Function(path: seq<string>, sig: Sig, templates: seq<MangleType>)

  // ----- encoding -----

  function Digit(n: nat): char
    requires n < 10
  {
    "0123456789"[n]
  }

  predicate IsDigit(c: char) { '0' <= c <= '9' }

  function Dec(n: nat): string {
    if n < 10 then [Digit(n)] else Dec(n / 10) + [Digit(n % 10)]
  }

  function Ident(s: string): string {
    Dec(|s|) + s
  }

  function Idents(ss: seq<string>): string {
    if ss == [] then "" else Ident(ss[0]) + Idents(ss[1..])
  }

  function Bytes(width: WidthKind, target: IntWidth): nat {
    match width
    case System => Layout.WidthSize(target)
    case Fixed(w) => Layout.WidthSize(w)
  }

  function MangleTy(t: MangleType, target: IntWidth): string
    decreases t, 0
  {
    match t
    case Ptr(u) => "P" + MangleTy(u, target)
    case Array(u) => "A" + MangleTy(u, target)
    case Tuple(ts) => "T" + (MangleTys(ts, target) + "E")
    case Int(w, signed) => (if signed then "i" else "u") + Dec(Bytes(w, target))
    case Adt(path, name, ts) => "N" + (Idents(path + [name]) + ("E" + (MangleTys(ts, target) + "E")))
    case Never => "z"
    case Error => "X"
    case Bool => "b"
  }

  function MangleTys(ts: seq<MangleType>, target: IntWidth): string
    decreases ts, 1
  {
    if ts == [] then "" else MangleTy(ts[0], target) + MangleTys(ts[1..], target)
  }

  function MangleSig(s: Sig, target: IntWidth): string {
    Ident(s.name) + (MangleTys(s.parameters, target) + ("E" + MangleTy(s.ret, target)))
  }

  function MangleOf(f: MangleFun, target: IntWidth): string {
    match f
    case Extern(name) => name
    case Method(isStatic, ty, sig, tpls) =>
      "_ZM" + ((if isStatic then "s" else "m") +
               (MangleTy(ty, target) + (MangleSig(sig, target) + ("G" + (MangleTys(tpls, target) + "E")))))
    case Function(path, sig, tpls) =>
      "_ZF" + (Idents(path) + ("E" + (MangleSig(sig, target) + ("G" + (MangleTys(tpls, target) + "E")))))
  }

  // ----- numbers and identifiers -----

  predicate AllDigits(s: string) {
    forall i :: 0 <= i < |s| ==> IsDigit(s[i])
  }

  /** The string does not continue a number. */
  predicate EndsNumber(s: string) {
    s == "" || !IsDigit(s[0])
  }

  function Val(s: string): int {
    if s == "" then 0 else Val(s[..|s| - 1]) * 10 + (s[|s| - 1] as int - '0' as int)
  }

  lemma {:induction false} DecDigits(n: nat)
    ensures AllDigits(Dec(n)) && Dec(n) != "" && Val(Dec(n)) == n
  {
    assert forall d: nat :: d < 10 ==> Digit(d) as int == '0' as int + d;
    if n >= 10 {
      DecDigits(n / 10);
      assert Dec(n)[..|Dec(n)| - 1] == Dec(n / 10);
    } else {
      assert Dec(n)[..|Dec(n)| - 1] == "";
    }
  }

  lemma DecInjective(a: nat, b: nat)
    requires Dec(a) == Dec(b)
    ensures a == b
  {
    DecDigits(a);
    DecDigits(b);
  }

  /** Two numbers followed by something that is no digit are told apart. */
  lemma DigitRun(u: string, v: string, x: string, y: string)
    requires AllDigits(u) && AllDigits(v) && EndsNumber(x) && EndsNumber(y) && u + x == v + y
    ensures u == v && x == y
  {
    var w := u + x;
    assert w == v + y;
    var k := if |u| < |v| then |u| else |v|;
    var next := if k < |w| then w[k] else 'E';
    if |u| != |v| {
      assert false;
    } else {
      assert u == (u + x)[..|u|] && v == (v + y)[..|v|];
      assert x == (u + x)[|u|..] && y == (v + y)[|v|..];
    }
  }

  /** Names in the language: not empty, not starting with a digit. */
  predicate NameOk(s: string) {
    s != "" && !IsDigit(s[0])
  }

  predicate NamesOk(ss: seq<string>) {
    forall i :: 0 <= i < |ss| ==> NameOk(ss[i])
  }

  lemma IdentUnique(a: string, b: string, r: string, s: string)
    requires NameOk(a) && NameOk(b) && Ident(a) + r == Ident(b) + s
    ensures a == b && r == s
  {
    DecDigits(|a|);
    DecDigits(|b|);
    assert Ident(a) + r == Dec(|a|) + (a + r) && Ident(b) + s == Dec(|b|) + (b + s);
    DigitRun(Dec(|a|), Dec(|b|), a + r, b + s);
    DecInjective(|a|, |b|);
    assert a == (a + r)[..|a|] && b == (b + s)[..|b|];
    assert r == (a + r)[|a|..] && s == (b + s)[|b|..];
  }

  lemma IdentStarts(a: string, r: string)
    ensures Ident(a) + r != "" && IsDigit((Ident(a) + r)[0])
  {
    DecDigits(|a|);
    assert (Ident(a) + r)[0] == Dec(|a|)[0];
  }

  lemma {:induction false} IdentsUnique(p: seq<string>, q: seq<string>, r: string, s: string)
    requires NamesOk(p) && NamesOk(q) && EndsNumber(r) && EndsNumber(s) && Idents(p) + r == Idents(q) + s
    ensures p == q && r == s
    decreases |p|
  {
    if p != [] {
      Assoc(Ident(p[0]), Idents(p[1..]), r);
      IdentStarts(p[0], Idents(p[1..]) + r);
    }
    if q != [] {
      Assoc(Ident(q[0]), Idents(q[1..]), s);
      IdentStarts(q[0], Idents(q[1..]) + s);
    }
    if p == [] || q == [] {
      assert "" + r == r && "" + s == s;
    } else {
      IdentUnique(p[0], q[0], Idents(p[1..]) + r, Idents(q[1..]) + s);
      IdentsUnique(p[1..], q[1..], r, s);
      assert p == [p[0]] + p[1..] && q == [q[0]] + q[1..];
    }
  }

  // ----- types -----

  /** Equal up to identifying the machine-word width with the fixed width of the same size. */
  predicate SameTy(a: MangleType, b: MangleType, target: IntWidth)
    decreases a, 0
  {
    match (a, b)
    case (Ptr(t), Ptr(u)) => SameTy(t, u, target)
    case (Array(t), Array(u)) => SameTy(t, u, target)
    case (Tuple(ts), Tuple(us)) => SameTys(ts, us, target)
    case (Int(w, i), Int(v, j)) => Bytes(w, target) == Bytes(v, target) && i == j
    case (Adt(p, n, ts), Adt(q, m, us)) => p == q && n == m && SameTys(ts, us, target)
    case _ => a == b && (a.Never? || a.Error? || a.Bool?)
  }

  predicate SameTys(ts: seq<MangleType>, us: seq<MangleType>, target: IntWidth)
    decreases ts, 1
  {
    |ts| == |us| && (ts == [] || (SameTy(ts[0], us[0], target) && SameTys(ts[1..], us[1..], target)))
  }

  /** The one overlap: behind the same pointers, a one-byte integer against a sixteen-byte one. */
  predicate ByteAgainst16(a: MangleType, b: MangleType, target: IntWidth)
    decreases a
  {
    match (a, b)
    case (Ptr(t), Ptr(u)) => ByteAgainst16(t, u, target)
    case (Array(t), Array(u)) => ByteAgainst16(t, u, target)
    case (Int(w, i), Int(v, j)) => Bytes(w, target) == 1 && Bytes(v, target) == 16 && i == j
    case _ => false
  }

  predicate TyOk(t: MangleType)
    decreases t, 0
  {
    match t
    case Ptr(u) => TyOk(u)
    case Array(u) => TyOk(u)
    case Tuple(ts) => TysOk(ts)
    case Adt(path, name, ts) => NamesOk(path) && NameOk(name) && TysOk(ts)
    case _ => true
  }

  predicate TysOk(ts: seq<MangleType>)
    decreases ts, 1
  {
    ts == [] || (TyOk(ts[0]) && TysOk(ts[1..]))
  }

  function Tag(t: MangleType): char {
    match t
    case Ptr(_) => 'P'
    case Array(_) => 'A'
    case Tuple(_) => 'T'
    case Int(_, signed) => if signed then 'i' else 'u'
    case Adt(_, _, _) => 'N'
    case Never => 'z'
    case Error => 'X'
    case Bool => 'b'
  }

  lemma TagFirst(t: MangleType, r: string, target: IntWidth)
    ensures MangleTy(t, target) + r != "" && (MangleTy(t, target) + r)[0] == Tag(t)
    ensures !IsDigit(Tag(t)) && Tag(t) != 'E'
  {
  }

  lemma DropFirst(a: string, x: string, r: string, b: string, y: string, s: string)
    requires |a| == |b| && (a + x) + r == (b + y) + s
    ensures a == b && x + r == y + s
  {
    assert (a + x) + r == a + (x + r) && (b + y) + s == b + (y + s);
    assert a == (a + (x + r))[..|a|] && b == (b + (y + s))[..|b|];
    assert x + r == (a + (x + r))[|a|..] && y + s == (b + (y + s))[|b|..];
  }

  lemma Assoc(a: string, b: string, c: string)
    ensures (a + b) + c == a + (b + c)
  {
  }

  lemma ListUnrolls(ts: seq<MangleType>, r: string, target: IntWidth)
    requires ts != []
    ensures (MangleTys(ts, target) + "E") + r == MangleTy(ts[0], target) + ((MangleTys(ts[1..], target) + "E") + r)
  {
    var (x, y) := (MangleTy(ts[0], target), MangleTys(ts[1..], target));
    Assoc(x, y, "E");
    Assoc(x, y + "E", r);
  }

  /** A list of types never starts with a digit, whatever ends it. */
  lemma ListStarts(ts: seq<MangleType>, r: string, target: IntWidth)
    ensures (MangleTys(ts, target) + "E") + r != "" && !IsDigit(((MangleTys(ts, target) + "E") + r)[0])
    ensures ((MangleTys(ts, target) + "E") + r)[0] == 'E' <==> ts == []
  {
    if ts != [] {
      ListUnrolls(ts, r, target);
      TagFirst(ts[0], (MangleTys(ts[1..], target) + "E") + r, target);
    }
  }

  /**
   * Reading one type off two equal strings gives the same type and the same rest,
   * or meets the overlap: then one rest is a 6 longer than the other.
   */
  lemma {:induction false} ReadType(a: MangleType, b: MangleType, r: string, s: string, target: IntWidth)
    requires TyOk(a) && TyOk(b) && MangleTy(a, target) + r == MangleTy(b, target) + s
    ensures || (SameTy(a, b, target) && r == s)
            || (ByteAgainst16(a, b, target) && r == "6" + s)
            || (ByteAgainst16(b, a, target) && s == "6" + r)
    decreases a, 1
  {
    TagFirst(a, r, target);
    TagFirst(b, s, target);
    assert Tag(a) == Tag(b);
    match a
    case Ptr(t) =>
      DropFirst("P", MangleTy(t, target), r, "P", MangleTy(b.t, target), s);
      ReadType(t, b.t, r, s, target);
    case Array(t) =>
      DropFirst("A", MangleTy(t, target), r, "A", MangleTy(b.t, target), s);
      ReadType(t, b.t, r, s, target);
    case Tuple(ts) =>
      DropFirst("T", MangleTys(ts, target) + "E", r, "T", MangleTys(b.ts, target) + "E", s);
      ReadTypes(ts, b.ts, r, s, target);
    case Int(_, _) => ReadInt(a, b, r, s, target);
    case Adt(_, _, _) => ReadAdt(a, b, r, s, target);
    case _ => assert r == (MangleTy(a, target) + r)[1..] && s == (MangleTy(b, target) + s)[1..];
  }

  lemma ReadInt(a: MangleType, b: MangleType, r: string, s: string, target: IntWidth)
    requires a.Int? && b.Int? && MangleTy(a, target) + r == MangleTy(b, target) + s && Tag(a) == Tag(b)
    ensures || (SameTy(a, b, target) && r == s)
            || (ByteAgainst16(a, b, target) && r == "6" + s)
            || (ByteAgainst16(b, a, target) && s == "6" + r)
  {
    var (x, y) := (Dec(Bytes(a.width, target)), Dec(Bytes(b.width, target)));
    DropFirst([Tag(a)], x, r, [Tag(b)], y, s);
    assert Dec(1) == "1" && Dec(2) == "2" && Dec(4) == "4" && Dec(8) == "8" && Dec(16) == "16";
    assert x[0] == (x + r)[0] && y[0] == (y + s)[0];
    if x == y {
      assert r == (x + r)[|x|..] && s == (y + s)[|y|..];
      DecInjective(Bytes(a.width, target), Bytes(b.width, target));
    } else if x == "1" {
      assert r == (x + r)[1..] && "6" + s == (y + s)[1..];
    } else {
      assert "6" + r == (x + r)[1..] && s == (y + s)[1..];
    }
  }

  lemma {:induction false} ReadAdt(a: MangleType, b: MangleType, r: string, s: string, target: IntWidth)
    requires a.Adt? && b.Adt? && TyOk(a) && TyOk(b) && MangleTy(a, target) + r == MangleTy(b, target) + s
    ensures SameTy(a, b, target) && r == s
    decreases a, 0
  {
    var (p, q) := (a.path + [a.name], b.path + [b.name]);
    var (x, y) := (MangleTys(a.parameters, target) + "E", MangleTys(b.parameters, target) + "E");
    DropFirst("N", Idents(p) + ("E" + x), r, "N", Idents(q) + ("E" + y), s);
    assert (Idents(p) + ("E" + x)) + r == Idents(p) + (("E" + x) + r);
    assert (Idents(q) + ("E" + y)) + s == Idents(q) + (("E" + y) + s);
    IdentsUnique(p, q, ("E" + x) + r, ("E" + y) + s);
    assert a.path == p[..|p| - 1] && b.path == q[..|q| - 1] && a.name == p[|p| - 1] && b.name == q[|q| - 1];
    DropFirst("E", x, r, "E", y, s);
    ReadTypes(a.parameters, b.parameters, r, s, target);
  }

  lemma {:induction false} ReadTypes(ts: seq<MangleType>, us: seq<MangleType>, r: string, s: string, target: IntWidth)
    requires TysOk(ts) && TysOk(us) && (MangleTys(ts, target) + "E") + r == (MangleTys(us, target) + "E") + s
    ensures SameTys(ts, us, target) && r == s
    decreases ts, 2
  {
    ListStarts(ts, r, target);
    ListStarts(us, s, target);
    if ts == [] {
      assert r == (("" + "E") + r)[1..] && s == (("" + "E") + s)[1..];
    } else {
      ListUnrolls(ts, r, target);
      ListUnrolls(us, s, target);
      ListStarts(ts[1..], r, target);
      ListStarts(us[1..], s, target);
      ReadType(ts[0], us[0], (MangleTys(ts[1..], target) + "E") + r, (MangleTys(us[1..], target) + "E") + s, target);
      ReadTypes(ts[1..], us[1..], r, s, target);
    }
  }

  /** Types that are the same up to the machine-word width have the same encoding. */
  lemma {:induction false} SameTyMangles(a: MangleType, b: MangleType, target: IntWidth)
    requires SameTy(a, b, target)
    ensures MangleTy(a, target) == MangleTy(b, target)
    decreases a, 0
  {
    match a
    case Ptr(t) => SameTyMangles(t, b.t, target);
    case Array(t) => SameTyMangles(t, b.t, target);
    case Tuple(ts) => SameTysMangle(ts, b.ts, target);
    case Adt(_, _, ts) => SameTysMangle(ts, b.parameters, target);
    case _ =>
  }

  lemma {:induction false} SameTysMangle(ts: seq<MangleType>, us: seq<MangleType>, target: IntWidth)
    requires SameTys(ts, us, target)
    ensures MangleTys(ts, target) == MangleTys(us, target)
    decreases ts, 1
  {
    if ts != [] {
      SameTyMangles(ts[0], us[0], target);
      SameTysMangle(ts[1..], us[1..], target);
    }
  }

  /** Types are uniquely decodable in front of anything that is not a digit. */
  lemma TypesDecodable(a: MangleType, b: MangleType, r: string, s: string, target: IntWidth)
    requires TyOk(a) && TyOk(b) && EndsNumber(r) && EndsNumber(s) && MangleTy(a, target) + r == MangleTy(b, target) + s
    ensures SameTy(a, b, target) && r == s
  {
    ReadType(a, b, r, s, target);
  }

  // ----- symbols -----

  predicate SigOk(s: Sig) {
    NameOk(s.name) && TysOk(s.parameters) && TyOk(s.ret)
  }

  predicate FunOk(f: MangleFun) {
    match f
    case Extern(_) => true
    case Method(_, ty, sig, tpls) => TyOk(ty) && SigOk(sig) && TysOk(tpls)
    case Function(path, sig, tpls) => NamesOk(path) && SigOk(sig) && TysOk(tpls)
  }

  predicate SameSig(x: Sig, y: Sig, target: IntWidth) {
    x.name == y.name && SameTys(x.parameters, y.parameters, target) && SameTy(x.ret, y.ret, target)
  }

  predicate SameFun(f: MangleFun, g: MangleFun, target: IntWidth) {
    match (f, g)
    case (Extern(n), Extern(m)) => n == m
    case (Method(i, t, x, ts), Method(j, u, y, us)) =>
      i == j && SameTy(t, u, target) && SameSig(x, y, target) && SameTys(ts, us, target)
    case (Function(p, x, ts), Function(q, y, us)) => p == q && SameSig(x, y, target) && SameTys(ts, us, target)
    case _ => false
  }

  /** What follows the path or the receiver: the signature and the templates. */
  function TailOf(sig: Sig, tpls: seq<MangleType>, target: IntWidth): string {
    MangleSig(sig, target) + ("G" + (MangleTys(tpls, target) + "E"))
  }

  lemma TailParts(sig: Sig, tpls: seq<MangleType>, target: IntWidth)
    ensures var end := "G" + (MangleTys(tpls, target) + "E");
            TailOf(sig, tpls, target) ==
            Ident(sig.name) + ((MangleTys(sig.parameters, target) + "E") + (MangleTy(sig.ret, target) + end))
  {
    var (n, p, e, end) := (Ident(sig.name), MangleTys(sig.parameters, target), MangleTy(sig.ret, target),
                           "G" + (MangleTys(tpls, target) + "E"));
    Assoc(n, p + ("E" + e), end);
    Assoc(p, "E" + e, end);
    Assoc("E", e, end);
    Assoc(p, "E", e + end);
  }

  lemma TailUnique(x: Sig, ts: seq<MangleType>, y: Sig, us: seq<MangleType>, target: IntWidth)
    requires SigOk(x) && SigOk(y) && TysOk(ts) && TysOk(us) && TailOf(x, ts, target) == TailOf(y, us, target)
    ensures SameSig(x, y, target) && SameTys(ts, us, target)
  {
    var (p, q) := (MangleTys(x.parameters, target) + "E", MangleTys(y.parameters, target) + "E");
    var (e, f) := (MangleTy(x.ret, target), MangleTy(y.ret, target));
    var (g, h) := ("G" + (MangleTys(ts, target) + "E"), "G" + (MangleTys(us, target) + "E"));
    TailParts(x, ts, target);
    TailParts(y, us, target);
    IdentUnique(x.name, y.name, p + (e + g), q + (f + h));
    ReadTypes(x.parameters, y.parameters, e + g, f + h, target);
    TypesDecodable(x.ret, y.ret, g, h, target);
    TemplatesUnique(ts, us, target);
  }

  lemma TemplatesUnique(ts: seq<MangleType>, us: seq<MangleType>, target: IntWidth)
    requires TysOk(ts) && TysOk(us) && "G" + (MangleTys(ts, target) + "E") == "G" + (MangleTys(us, target) + "E")
    ensures SameTys(ts, us, target)
  {
    var (x, y) := (MangleTys(ts, target) + "E", MangleTys(us, target) + "E");
    assert x == ("G" + x)[1..] && y == ("G" + y)[1..];
    assert x + "" == x && y + "" == y;
    ReadTypes(ts, us, "", "", target);
  }

  /** Two functions have the same symbol exactly when they are the same function. */
  lemma FunctionsInjective(f: MangleFun, g: MangleFun, target: IntWidth)
    requires f.Function? && g.Function? && FunOk(f) && FunOk(g)
    ensures MangleOf(f, target) == MangleOf(g, target) <==> SameFun(f, g, target)
  {
    var (x, y) := (TailOf(f.sig, f.templates, target), TailOf(g.sig, g.templates, target));
    if SameFun(f, g, target) {
      SameTysMangle(f.sig.parameters, g.sig.parameters, target);
      SameTyMangles(f.sig.ret, g.sig.ret, target);
      SameTysMangle(f.templates, g.templates, target);
    } else if MangleOf(f, target) == MangleOf(g, target) {
      DropFirst("_ZF", Idents(f.path) + ("E" + x), "", "_ZF", Idents(g.path) + ("E" + y), "");
      assert (Idents(f.path) + ("E" + x)) + "" == Idents(f.path) + ("E" + x);
      assert (Idents(g.path) + ("E" + y)) + "" == Idents(g.path) + ("E" + y);
      IdentsUnique(f.path, g.path, "E" + x, "E" + y);
      DropFirst("E", x, "", "E", y, "");
      assert x + "" == x && y + "" == y;
      TailUnique(f.sig, f.templates, g.sig, g.templates, target);
    }
  }

  lemma FunctionsAreNotMethods(f: MangleFun, g: MangleFun, target: IntWidth)
    requires f.Function? && g.Method?
    ensures MangleOf(f, target) != MangleOf(g, target)
  {
    assert MangleOf(f, target)[2] == 'F' && MangleOf(g, target)[2] == 'M';
  }

  // ----- methods -----

  /** The length n, written after a receiver's 1, also reads as 16 followed by the length d. */
  predicate Splits(n: nat, d: nat) {
    d > 0 && Dec(n) == "6" + Dec(d)
  }

  /** f's receiver ends in a one-byte integer, g's in a sixteen-byte one, and the name lengths overlap. */
  predicate Overlap(f: MangleFun, g: MangleFun, target: IntWidth)
    requires f.Method? && g.Method?
  {
    ByteAgainst16(f.ty, g.ty, target) && Splits(|f.sig.name|, |g.sig.name|)
  }

  lemma TailStarts(sig: Sig, tpls: seq<MangleType>, target: IntWidth) returns (rest: string)
    requires NameOk(sig.name)
    ensures TailOf(sig, tpls, target) == Dec(|sig.name|) + rest && EndsNumber(rest)
  {
    rest := sig.name + ((MangleTys(sig.parameters, target) + ("E" + MangleTy(sig.ret, target))) +
                        ("G" + (MangleTys(tpls, target) + "E")));
    assert TailOf(sig, tpls, target) == Dec(|sig.name|) + rest;
  }

  lemma OverlapLengths(f: MangleFun, g: MangleFun, target: IntWidth)
    requires f.Method? && g.Method? && FunOk(f) && FunOk(g)
    requires TailOf(f.sig, f.templates, target) == "6" + TailOf(g.sig, g.templates, target)
    ensures Splits(|f.sig.name|, |g.sig.name|)
  {
    var x := TailStarts(f.sig, f.templates, target);
    var y := TailStarts(g.sig, g.templates, target);
    DecDigits(|f.sig.name|);
    DecDigits(|g.sig.name|);
    assert "6" + (Dec(|g.sig.name|) + y) == ("6" + Dec(|g.sig.name|)) + y;
    DigitRun(Dec(|f.sig.name|), "6" + Dec(|g.sig.name|), x, y);
  }

  /** Two methods with the same symbol are the same method, unless they overlap. */
  lemma MethodsInjective(f: MangleFun, g: MangleFun, target: IntWidth)
    requires f.Method? && g.Method? && FunOk(f) && FunOk(g) && MangleOf(f, target) == MangleOf(g, target)
    ensures SameFun(f, g, target) || Overlap(f, g, target) || Overlap(g, f, target)
  {
    var (x, y) := (TailOf(f.sig, f.templates, target), TailOf(g.sig, g.templates, target));
    var (i, j) := (if f.isStatic then "s" else "m", if g.isStatic then "s" else "m");
    DropFirst("_ZM", i + (MangleTy(f.ty, target) + x), "", "_ZM", j + (MangleTy(g.ty, target) + y), "");
    DropFirst(i, MangleTy(f.ty, target) + x, "", j, MangleTy(g.ty, target) + y, "");
    assert (MangleTy(f.ty, target) + x) + "" == MangleTy(f.ty, target) + x;
    assert (MangleTy(g.ty, target) + y) + "" == MangleTy(g.ty, target) + y;
    ReadType(f.ty, g.ty, x, y, target);
    if x == y {
      TailUnique(f.sig, f.templates, g.sig, g.templates, target);
    }
    if x == "6" + y {
      OverlapLengths(f, g, target);
    } else if y == "6" + x {
      OverlapLengths(g, f, target);
    }
    assert x == "6" + y ==> |x| != |y|;
  }

  lemma {:induction false} SplitsAbove(n: nat, d: nat)
    requires Splits(n, d)
    ensures n > 60
  {
    DecDigits(n);
    DecDigits(d);
    if n < 10 {
      assert false;
    } else if n < 100 {
      assert Dec(n) == [Digit(n / 10), Digit(n % 10)];
      assert Dec(n)[0] == '6' && Dec(d) == Dec(n)[1..];
      assert Dec(n % 10) == [Digit(n % 10)];
      DecInjective(d, n % 10);
    }
  }

  /** Method names of at most 60 bytes never overlap. */
  lemma ShortMethodsInjective(f: MangleFun, g: MangleFun, target: IntWidth)
    requires f.Method? && g.Method? && FunOk(f) && FunOk(g) && MangleOf(f, target) == MangleOf(g, target)
    requires |f.sig.name| <= 60 && |g.sig.name| <= 60
    ensures SameFun(f, g, target)
  {
    MethodsInjective(f, g, target);
    if Overlap(f, g, target) {
      SplitsAbove(|f.sig.name|, |g.sig.name|);
    } else if Overlap(g, f, target) {
      SplitsAbove(|g.sig.name|, |f.sig.name|);
    }
  }

  // ----- all symbols -----

  /** How the symbols of functions and methods begin. */
  predicate Reserved(s: string) {
    |s| >= 3 && (s[..3] == "_ZF" || s[..3] == "_ZM")
  }

  /** An extern is linked under the name it is declared with, whatever that is. */
  lemma ExternSymbol(name: string, target: IntWidth)
    ensures MangleOf(Extern(name), target) == name
  {
  }

  /** Only functions and methods, of these only functions, begin with "_ZF". */
  lemma SymbolKind(f: MangleFun, target: IntWidth)
    requires !f.Extern?
    ensures Reserved(MangleOf(f, target))
    ensures MangleOf(f, target)[..3] == "_ZF" <==> f.Function?
  {
    var s := MangleOf(f, target);
    assert s[..3] == if f.Function? then "_ZF" else "_ZM";
    assert "_ZF"[2] == 'F' && "_ZM"[2] == 'M';
  }

  lemma SameFunMangles(f: MangleFun, g: MangleFun, target: IntWidth)
    requires SameFun(f, g, target)
    ensures MangleOf(f, target) == MangleOf(g, target)
  {
    if !f.Extern? {
      SameTysMangle(f.sig.parameters, g.sig.parameters, target);
      SameTyMangles(f.sig.ret, g.sig.ret, target);
      SameTysMangle(f.templates, g.templates, target);
    }
    if f.Method? {
      SameTyMangles(f.ty, g.ty, target);
    }
  }

  /** An extern beside a function or a method is not declared under a name of their kind. */
  predicate LinkNamesOk(f: MangleFun, g: MangleFun) {
    && FunOk(f) && FunOk(g)
    && (f.Extern? && !g.Extern? ==> !Reserved(f.name))
    && (g.Extern? && !f.Extern? ==> !Reserved(g.name))
  }

  predicate MethodsOverlap(f: MangleFun, g: MangleFun, target: IntWidth) {
    f.Method? && g.Method? && (Overlap(f, g, target) || Overlap(g, f, target))
  }

  /**
   * Over externs, functions and methods alike: the same have one symbol, and two that have
   * one symbol are the same, apart from the overlap of methods. Two externs may have any
   * names; beside a function or method, the name of an extern must not begin like a mangled one.
   */
  lemma SymbolsInjective(f: MangleFun, g: MangleFun, target: IntWidth)
    requires LinkNamesOk(f, g)
    ensures SameFun(f, g, target) ==> MangleOf(f, target) == MangleOf(g, target)
    ensures MangleOf(f, target) == MangleOf(g, target) ==> SameFun(f, g, target) || MethodsOverlap(f, g, target)
  {
    if SameFun(f, g, target) {
      SameFunMangles(f, g, target);
    } else if MangleOf(f, target) == MangleOf(g, target) {
      if !f.Extern? {
        SymbolKind(f, target);
      }
      if !g.Extern? {
        SymbolKind(g, target);
      }
      if f.Function? && g.Function? {
        FunctionsInjective(f, g, target);
      } else if f.Method? && g.Method? {
        MethodsInjective(f, g, target);
      }
    }
  }

  /** Such a name is needed to clash with a function or method, and one for each of them does. */
  lemma ExternClash(n: string, g: MangleFun, target: IntWidth)
    requires !g.Extern?
    ensures MangleOf(Extern(n), target) == MangleOf(g, target) <==> n == MangleOf(g, target)
    ensures MangleOf(Extern(n), target) == MangleOf(g, target) ==> Reserved(n)
  {
    SymbolKind(g, target);
  }

  /** `app::id(*i32) -> void` */
  lemma FunctionSpelled(target: IntWidth)
    ensures MangleOf(Function(["app"], Sig("id", [Ptr(Int(Fixed(I32), true))], Tuple([])), []), target) ==
            "_ZF3appE2idPi4ETEGE"
  {
    SpelledNumbers();
    OneIdent("app");
    PointerSig(target);
    NoTypes(target);
  }

  lemma PointerSig(target: IntWidth)
    ensures MangleSig(Sig("id", [Ptr(Int(Fixed(I32), true))], Tuple([])), target) == "2idPi4ETE"
  {
    SpelledNumbers();
    OneType(Ptr(Int(Fixed(I32), true)), target);
    assert MangleTy(Int(Fixed(I32), true), target) == "i4";
    NoTypes(target);
    assert MangleTy(Tuple([]), target) == "TE";
  }

  lemma NoTypes(target: IntWidth)
    ensures MangleTys([], target) == ""
  {
  }

  lemma GetSig(ret: MangleType, target: IntWidth)
    ensures MangleSig(Sig("get", [], ret), target) == "3getE" + MangleTy(ret, target)
  {
    SpelledNumbers();
    NoTypes(target);
  }

  /** A method `get` of `app::Box<u8>`, static or not, that takes nothing else. */
  lemma MethodSpelled(isStatic: bool, ret: MangleType, target: IntWidth)
    ensures MangleOf(Method(isStatic, BOX, Sig("get", [], ret), []), target) ==
            "_ZM" + ((if isStatic then "s" else "m") +
                     (("N" + (("3app" + "3Box") + ("E" + ("u1" + "E")))) +
                      (("3getE" + MangleTy(ret, target)) + ("G" + ("" + "E")))))
  {
    BoxSpelled(target);
    GetSig(ret, target);
    NoTypes(target);
  }

  const BOX := Adt(["app"], "Box", [Int(Fixed(I8), false)])

  lemma BoxSpelled(target: IntWidth)
    ensures MangleTy(BOX, target) == "N" + (("3app" + "3Box") + ("E" + ("u1" + "E")))
  {
    SpelledNumbers();
    OneIdent("Box");
    assert ["app", "Box"][1..] == ["Box"] && ["app"] + ["Box"] == ["app", "Box"];
    OneType(Int(Fixed(I8), false), target);
  }

  /** An integer is written with the number of its bytes, a machine word with those of the target. */
  lemma IntsSpelled(w: IntWidth, signed: bool, target: IntWidth)
    ensures MangleTy(Int(Fixed(w), signed), target) ==
            (if signed then "i" else "u") +
            match w case I8 => "1" case I16 => "2" case I32 => "4" case I64 => "8" case I128 => "16"
    ensures MangleTy(Int(System, signed), target) == MangleTy(Int(Fixed(target), signed), target)
  {
    assert Dec(1) == "1" && Dec(2) == "2" && Dec(4) == "4" && Dec(8) == "8" && Dec(16) == "16";
  }

  /** One letter for each of the types without parts. */
  lemma LettersSpelled(target: IntWidth)
    ensures MangleTy(Bool, target) == "b" && MangleTy(Never, target) == "z" && MangleTy(Error, target) == "X"
    ensures MangleTy(Array(Never), target) == "A" + "z" && MangleTy(Ptr(Bool), target) == "P" + "b"
  {
  }

  lemma OneIdent(name: string)
    ensures Idents([name]) == Ident(name)
  {
    assert [name][1..] == [] && Idents([]) == "";
  }

  lemma OneType(t: MangleType, target: IntWidth)
    ensures MangleTys([t], target) == MangleTy(t, target)
  {
    assert [t][1..] == [] && MangleTys([], target) == "";
  }

  lemma SpelledNumbers()
    ensures Dec(1) == "1" && Dec(2) == "2" && Dec(3) == "3" && Dec(4) == "4"
  {
  }

  // ----- the overlap is real at every length that splits -----

  function Repeat(c: char, n: nat): (s: string)
    ensures |s| == n && forall i :: 0 <= i < n ==> s[i] == c
  {
    seq(n, _ => c)
  }

  function Bools(n: nat): (ts: seq<MangleType>)
    ensures |ts| == n && forall i :: 0 <= i < n ==> ts[i] == Bool
  {
    seq(n, _ => Bool)
  }

  lemma {:induction false} BoolsMangle(n: nat, target: IntWidth)
    ensures MangleTys(Bools(n), target) == Repeat('b', n) && TysOk(Bools(n))
  {
    if n > 0 {
      BoolsMangle(n - 1, target);
      assert Bools(n)[1..] == Bools(n - 1);
      assert Repeat('b', n) == "b" + Repeat('b', n - 1);
    }
  }

  /** Two different methods with one symbol: on i8 with a name of n bytes, on i128 with d bytes and n - d bools. */
  lemma OverlapExists(n: nat, d: nat, target: IntWidth) returns (f: MangleFun, g: MangleFun)
    requires Splits(n, d) && d <= n
    ensures f.Method? && g.Method? && FunOk(f) && FunOk(g) && |f.sig.name| == n && |g.sig.name| == d
    ensures MangleOf(f, target) == MangleOf(g, target) && !SameFun(f, g, target)
  {
    f := Method(false, Int(Fixed(I8), true), Sig(Repeat('b', n), [], Bool), []);
    g := Method(false, Int(Fixed(I128), true), Sig(Repeat('b', d), Bools(n - d), Bool), []);
    var end := "G" + (MangleTys([], target) + "E");
    BoolsMangle(n - d, target);
    OverlapSigs(n, d, target);
    OverlapReceivers(MangleSig(f.sig, target), MangleSig(g.sig, target), end, target);
  }

  lemma OverlapReceivers(x: string, y: string, end: string, target: IntWidth)
    requires x == "6" + y
    ensures MangleTy(Int(Fixed(I8), true), target) + (x + end) == MangleTy(Int(Fixed(I128), true), target) + (y + end)
  {
    assert Dec(1) == "1" && Dec(16) == "16";
    assert ("i" + Dec(1)) + ("6" + y) == ("i" + Dec(16)) + y;
    Assoc("i" + Dec(1), x, end);
    Assoc("i" + Dec(16), y, end);
  }

  lemma OverlapSigs(n: nat, d: nat, target: IntWidth)
    requires Splits(n, d) && d <= n
    ensures MangleSig(Sig(Repeat('b', n), [], Bool), target) == "6" +
            MangleSig(Sig(Repeat('b', d), Bools(n - d), Bool), target)
  {
    BoolsMangle(n - d, target);
    var (bs, cs, rest) := (Repeat('b', d), Repeat('b', n - d), "E" + "b");
    assert Repeat('b', n) == bs + cs;
    assert MangleTys([], target) + rest == rest;
    Assoc("6", Dec(d), bs + cs);
    Assoc("6", Dec(d) + (bs + cs), rest);
    Assoc(Dec(d), bs, cs);
    Assoc(Dec(d) + bs, cs, rest);
  }

  // ----- exactly which name lengths can be confused -----

  lemma {:induction false} SixMore(s: string)
    requires AllDigits(s)
    ensures Val("6" + s) > Val(s) >= 0
  {
    if s != "" {
      SixMore(s[..|s| - 1]);
      assert ("6" + s)[..|"6" + s| - 1] == "6" + s[..|s| - 1];
    } else {
      assert ("6" + s)[..|"6" + s| - 1] == "";
    }
  }

  lemma SplitsLonger(n: nat, d: nat)
    requires Splits(n, d)
    ensures d < n
  {
    DecDigits(n);
    DecDigits(d);
    SixMore(Dec(d));
  }

  /** Different methods, one symbol. */
  predicate Collide(f: MangleFun, g: MangleFun, target: IntWidth) {
    && f.Method? && g.Method? && FunOk(f) && FunOk(g)
    && MangleOf(f, target) == MangleOf(g, target) && !SameFun(f, g, target)
  }

  ghost predicate SplitsSomehow(n: nat) {
    exists d: nat :: Splits(n, d)
  }

  /** A name of n bytes is the longer name of a colliding pair exactly when n is written 6 and then another length. */
  lemma CollisionsExact(n: nat, target: IntWidth)
    ensures SplitsSomehow(n) <==>
            exists f, g :: Collide(f, g, target) && |f.sig.name| == n && |g.sig.name| <= n
  {
    if SplitsSomehow(n) {
      var d: nat :| Splits(n, d);
      SplitsLonger(n, d);
      var f, g := OverlapExists(n, d, target);
      assert Collide(f, g, target) && |f.sig.name| == n && |g.sig.name| <= n;
    }
    forall f, g | Collide(f, g, target) && |f.sig.name| == n && |g.sig.name| <= n ensures SplitsSomehow(n) {
      MethodsInjective(f, g, target);
      if Overlap(g, f, target) {
        SplitsLonger(|g.sig.name|, n);
      }
    }
  }

  /** The shortest such name has 61 bytes. */
  lemma CollisionAt61(target: IntWidth) returns (f: MangleFun, g: MangleFun)
    ensures Collide(f, g, target) && |f.sig.name| == 61
  {
    assert Dec(61) == "61" && Dec(1) == "1";
    f, g := OverlapExists(61, 1, target);
  }
}
