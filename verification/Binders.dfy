/** How often a local is bound by a pattern, by a row of cells and by what a row has recorded. */
module Binders {
  import opened Core
  import opened Patterns
  import opened DecisionTree
  import opened MatchCompiler

  ghost function Uses(p: Pattern, x: nat): nat
    decreases p, 0
  {
    match p
    case Any => 0
    case Bind(y) => if y == x then 1 else 0
    case IntPat(_) => 0
    case TuplePat(ps) => UsesAll(ps, x)
    case StructPat(_, ps) => UsesAll(ps, x)
    case CtorPat(_, _, ps) => UsesAll(ps, x)
  }

  ghost function UsesAll(ps: seq<Pattern>, x: nat): nat
    decreases ps, 1
  {
    if ps == [] then 0 else Uses(ps[0], x) + UsesAll(ps[1..], x)
  }

  ghost function CellUses(c: Cell, x: nat): nat {
    if c.Some? then Uses(c.value, x) else 0
  }

  ghost function CellsUse(cs: seq<Cell>, x: nat): nat {
    if cs == [] then 0 else CellUses(cs[0], x) + CellsUse(cs[1..], x)
  }

  ghost function Records(bs: seq<Binding>, x: nat): nat {
    if bs == [] then 0 else (if bs[0].local == x then 1 else 0) + Records(bs[1..], x)
  }

  ghost function RowUses(row: Row, x: nat): nat {
    CellsUse(row.cells, x) + Records(row.bindings, x)
  }

  /** A row binds each local at most once, which name resolution guarantees. */
  ghost predicate Linear(row: Row) {
    forall x: nat :: RowUses(row, x) <= 1
  }

  /** No local is bound more often by r than by row. */
  ghost predicate NoMoreUses(r: Row, row: Row) {
    forall x: nat :: RowUses(r, x) <= RowUses(row, x)
  }

  // ----- what is bound is counted -----

  lemma {:induction false} BoundUsed(p: Pattern, v: Value, b: (nat, Value))
    requires b in Binds(p, v)
    ensures Uses(p, b.0) >= 1
    decreases p, 0
  {
    match p
    case TuplePat(ps) => AllBoundUsed(ps, Parts(p, v).value, b);
    case StructPat(_, ps) => AllBoundUsed(ps, Parts(p, v).value, b);
    case CtorPat(_, _, ps) => AllBoundUsed(ps, Parts(p, v).value, b);
    case _ =>
  }

  lemma {:induction false} AllBoundUsed(ps: seq<Pattern>, vs: seq<Value>, b: (nat, Value))
    requires |ps| == |vs| && b in BindsAll(ps, vs)
    ensures UsesAll(ps, b.0) >= 1
    decreases ps, 1
  {
    if b in Binds(ps[0], vs[0]) {
      BoundUsed(ps[0], vs[0], b);
    } else {
      AllBoundUsed(ps[1..], vs[1..], b);
    }
  }

  lemma {:induction false} CellUsed(cs: seq<Cell>, i: nat, x: nat)
    requires i < |cs|
    ensures CellUses(cs[i], x) <= CellsUse(cs, x)
  {
    if i > 0 {
      CellUsed(cs[1..], i - 1, x);
    }
  }

  lemma CellsBoundUsed(cs: seq<Cell>, vs: seq<Value>, b: (nat, Value))
    requires CellsBind(cs, vs, b)
    ensures CellsUse(cs, b.0) >= 1
  {
    var i :| 0 <= i < |cs| && CellBinds(cs[i], vs[i], b);
    BoundUsed(cs[i].value, vs[i], b);
    CellUsed(cs, i, b.0);
  }

  lemma {:induction false} RecordCounted(bs: seq<Binding>, i: nat)
    requires i < |bs|
    ensures Records(bs, bs[i].local) >= 1
  {
    if i > 0 {
      RecordCounted(bs[1..], i - 1);
    }
  }

  // ----- splicing a column -----

  lemma {:induction false} CellsUseAppend(a: seq<Cell>, b: seq<Cell>, x: nat)
    ensures CellsUse(a + b, x) == CellsUse(a, x) + CellsUse(b, x)
  {
    if a == [] {
      assert a + b == b;
    } else {
      assert (a + b)[1..] == a[1..] + b;
      CellsUseAppend(a[1..], b, x);
    }
  }

  lemma SpliceUses(cs: seq<Cell>, col: nat, mid: seq<Cell>, x: nat)
    requires col < |cs|
    ensures CellsUse(Splice(cs, col, mid), x) + CellUses(cs[col], x) == CellsUse(cs, x) + CellsUse(mid, x)
  {
    assert cs == cs[..col] + ([cs[col]] + cs[col + 1..]);
    CellsUseAppend(cs[..col], [cs[col]] + cs[col + 1..], x);
    CellsUseAppend([cs[col]], cs[col + 1..], x);
    CellsUseAppend(cs[..col] + mid, cs[col + 1..], x);
    CellsUseAppend(cs[..col], mid, x);
  }

  lemma {:induction false} RecordsAppend(a: seq<Binding>, b: seq<Binding>, x: nat)
    ensures Records(a + b, x) == Records(a, x) + Records(b, x)
  {
    if a == [] {
      assert a + b == b;
    } else {
      assert (a + b)[1..] == a[1..] + b;
      RecordsAppend(a[1..], b, x);
    }
  }

  lemma {:induction false} KnownUses(ps: seq<Pattern>, x: nat)
    ensures CellsUse(Known(ps), x) == UsesAll(ps, x)
  {
    if ps != [] {
      assert Known(ps)[1..] == Known(ps[1..]);
      KnownUses(ps[1..], x);
    }
  }

  lemma {:induction false} WildcardsUse(n: nat, x: nat)
    ensures CellsUse(Wildcards(n), x) == 0
  {
    if n > 0 {
      assert Wildcards(n)[1..] == Wildcards(n - 1);
      WildcardsUse(n - 1, x);
    }
  }

  lemma {:induction false} FoundConsUses(names: seq<Symbol>, pats: seq<Pattern>, decl: seq<Symbol>, x: nat)
    requires |names| == |pats| > 0 && Distinct(decl)
    ensures CellsUse(Found(names, pats, decl), x) <=
            CellsUse(Found(names[1..], pats[1..], decl), x) + (if names[0] in decl then Uses(pats[0], x) else 0)
  {
    if decl != [] {
      FoundConsUses(names, pats, decl[1..], x);
      assert Found(names, pats, decl)[1..] == Found(names, pats, decl[1..]);
      assert Found(names[1..], pats[1..], decl)[1..] == Found(names[1..], pats[1..], decl[1..]);
      assert decl == [decl[0]] + decl[1..];
    }
  }

  lemma {:induction false} FoundUses(names: seq<Symbol>, pats: seq<Pattern>, decl: seq<Symbol>, x: nat)
    requires |names| == |pats| && Distinct(decl)
    ensures CellsUse(Found(names, pats, decl), x) <= UsesAll(pats, x)
  {
    if names == [] {
      assert Found(names, pats, decl) == Wildcards(|decl|);
      WildcardsUse(|decl|, x);
    } else {
      FoundUses(names[1..], pats[1..], decl, x);
      FoundConsUses(names, pats, decl, x);
    }
  }

  lemma SubCellsUse(p: Pattern, decl: Shape, x: nat)
    requires p.CtorPat? && CellShaped(Some(p)) && (decl.StructShape? ==> Distinct(decl.names))
    ensures CellsUse(SubCells(p, decl), x) <= Uses(p, x)
  {
    if p.shape.StructShape? && decl.StructShape? {
      assert SubCells(p, decl) == Found(p.shape.names, p.args, decl.names);
      FoundUses(p.shape.names, p.args, decl.names, x);
    } else {
      KnownUses(p.args, x);
    }
  }

  // ----- the steps bind nothing twice -----

  lemma WildRecorded(c: Cell, place: Place, bs: seq<Binding>, x: nat)
    requires IsWild(c)
    ensures Records(bs + CellBindings(c, place), x) == Records(bs, x) + CellUses(c, x)
  {
    RecordsAppend(bs, CellBindings(c, place), x);
  }

  lemma SpecializeUses(row: Row, col: nat, c: Constructor, place: Place, decl: Shape, arity: nat)
    requires col < |row.cells| && CellShaped(row.cells[col])
    requires !IsWild(row.cells[col]) && decl.StructShape? ==> Distinct(decl.names)
    ensures var r := SpecializeRow(row, col, c, place, decl, arity); r.Some? ==> NoMoreUses(r.value, row)
  {
    var cell := row.cells[col];
    var r := SpecializeRow(row, col, c, place, decl, arity);
    if r.Some? {
      forall x: nat ensures RowUses(r.value, x) <= RowUses(row, x) {
        if ConstructorOf(cell) == Some(c) {
          SpliceUses(row.cells, col, SubCells(cell.value, decl), x);
          if cell.value.CtorPat? {
            SubCellsUse(cell.value, decl, x);
          }
        } else {
          SpliceUses(row.cells, col, Wildcards(arity), x);
          WildcardsUse(arity, x);
          WildRecorded(cell, place, row.bindings, x);
        }
      }
    }
  }

  lemma DefaultUses(row: Row, col: nat, place: Place)
    requires col < |row.cells|
    ensures var r := DefaultRow(row, col, place); r.Some? ==> NoMoreUses(r.value, row)
  {
    var r := DefaultRow(row, col, place);
    if r.Some? {
      forall x: nat ensures RowUses(r.value, x) <= RowUses(row, x) {
        SpliceUses(row.cells, col, [], x);
        WildRecorded(row.cells[col], place, row.bindings, x);
      }
    }
  }

  /** Expansion binds nothing twice, and forgets a binder of the whole tuple. */
  lemma ExpandUses(row: Row, col: nat, arity: nat)
    requires col < |row.cells|
    ensures NoMoreUses(ExpandRow(row, col, arity), row)
    ensures var c := row.cells[col];
            c.Some? && c.value.Bind? ==>
              RowUses(ExpandRow(row, col, arity), c.value.local) + 1 == RowUses(row, c.value.local)
  {
    var r := ExpandRow(row, col, arity);
    forall x: nat
      ensures RowUses(r, x) <= RowUses(row, x)
      ensures row.cells[col] == Some(Bind(x)) ==> RowUses(r, x) + 1 == RowUses(row, x)
    {
      match row.cells[col]
      case Some(TuplePat(ps)) =>
        SpliceUses(row.cells, col, Known(ps), x);
        KnownUses(ps, x);
      case Some(StructPat(_, ps)) =>
        SpliceUses(row.cells, col, Known(ps), x);
        KnownUses(ps, x);
      case _ =>
        SpliceUses(row.cells, col, Wildcards(arity), x);
        WildcardsUse(arity, x);
    }
  }
}
