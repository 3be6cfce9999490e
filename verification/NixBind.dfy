/** Insertions whose new binding has another name than the rest of the path: what is read when
    segments that hold dots are joined by dots. */
module NixBind {
  import opened Options
  import opened NixEdit
  import opened NixLaws
  import opened NixParser
  import opened NixSyntax
  import opened NixTable
  import opened NixValues
  import opened Strings

  // ---------- taking a dotted text apart ----------

  predicate IsNoDot(c: char) { c != '.' }

  /** The pieces between the dots. */
  function Pieces(s: string): (r: seq<string>)
    ensures r != []
    decreases |s|
  {
    var n := Run(s, IsNoDot);
    if n == |s| then [s] else [s[..n]] + Pieces(s[n + 1..])
  }

  lemma {:induction false} JoinPieces(s: string)
    ensures Join(Pieces(s), ".") == s
    decreases |s|
  {
    var n := Run(s, IsNoDot);
    if n == |s| {
    } else {
      RunTake(s, IsNoDot);
      JoinPieces(s[n + 1..]);
      assert Pieces(s)[1..] == Pieces(s[n + 1..]);
      assert s == s[..n] + ("." + s[n + 1..]);
    }
  }

  lemma FirstPiece(a: string, b: string)
    requires All(a, IsNoDot)
    ensures Pieces(a + ("." + b)) == [a] + Pieces(b)
  {
    var s := a + ("." + b);
    RunAppend(a, "." + b, IsNoDot);
    assert s[..|a|] == a && s[|a| + 1..] == b;
  }

  /** Either there is no dot, or the text is cut at the first one. */
  lemma Cut(s: string) returns (x: string, y: string)
    ensures All(x, IsNoDot) && |x| <= |s|
    ensures |x| == |s| ==> x == s && Pieces(s) == [s]
    ensures |x| < |s| ==> s == x + ("." + y) && |y| < |s|
  {
    var n := Run(s, IsNoDot);
    RunTake(s, IsNoDot);
    x, y := s[..n], if n < |s| then s[n + 1..] else "";
  }

  lemma {:induction false} PiecesConcat(a: string, b: string)
    ensures Pieces(a + ("." + b)) == Pieces(a) + Pieces(b)
    decreases |a|
  {
    hide Pieces, All;
    var x, y := Cut(a);
    if |x| == |a| {
      FirstPiece(a, b);
    } else {
      FirstPiece(x, y);
      PiecesConcat(y, b);
      Reassociate(x, y, b);
      FirstPiece(x, y + ("." + b));
    }
  }

  lemma Reassociate(x: string, y: string, b: string)
    ensures (x + ("." + y)) + ("." + b) == x + ("." + (y + ("." + b)))
  {
  }

  lemma {:induction false} IdentHasNoDot(s: string)
    requires All(s, IsIdentChar)
    ensures Pieces(s) == [s]
  {
    IdentRun(s);
  }

  lemma {:induction false} IdentRun(s: string)
    requires All(s, IsIdentChar)
    ensures Run(s, IsNoDot) == |s|
  {
    if s == "" {
    } else {
      IdentRun(s[1..]);
    }
  }

  lemma OnePiece(s: string)
    requires |Pieces(s)| == 1
    ensures Pieces(s) == [s]
  {
  }

  /** The pieces of joined segments are the segments, unless one of them holds a dot; then
      there are more. */
  lemma {:induction false} PiecesOfJoin(path: Path)
    requires path != []
    ensures |Pieces(Join(path, "."))| >= |path|
    ensures |Pieces(Join(path, "."))| == |path| ==> Pieces(Join(path, ".")) == path
    ensures AllIdents(path) ==> Pieces(Join(path, ".")) == path
  {
    hide Pieces;
    if IsIdent(path[0]) { IdentHasNoDot(path[0]); }
    if |Pieces(path[0])| == 1 { OnePiece(path[0]); }
    if |path| == 1 {
    } else {
      PiecesConcat(path[0], Join(path[1..], "."));
      PiecesOfJoin(path[1..]);
      assert AllIdents(path) ==> AllIdents(path[1..]);
      assert path == [path[0]] + path[1..];
    }
  }

  /** An identifier at the front is a piece of its own. */
  lemma PiecesCons(path: Path)
    requires |path| > 1 && IsIdent(path[0])
    ensures Pieces(Join(path, ".")) == [path[0]] + Pieces(Join(path[1..], "."))
  {
    hide Pieces;
    IdentHasNoDot(path[0]);
    PiecesConcat(path[0], Join(path[1..], "."));
  }

  // ---------- the insertion ----------

  /** The binding goes where the walk for `path` ends, under the given names. */
  function BindIn(es: Entries, path: Path, names: Path, lead: string, v: Value): Entries
    decreases es
  {
    match es
    case NoEntry => Cons(NewEntry(lead, names, v), NoEntry)
    case Cons(e, tail) =>
      match Meet(e, path)
      case Pass => Cons(e, BindIn(tail, path, names, lead, v))
      case Block => es
      case Enter => Cons(WithInner(e, BindIn(e.value.entries, Rest(e, path), names, lead, v)), tail)
  }

  /** The part of the path that existing sets cover. */
  function Covered(es: Entries, path: Path): Path
    decreases es
  {
    match es
    case NoEntry => []
    case Cons(e, tail) =>
      match Meet(e, path)
      case Pass => Covered(tail, path)
      case Block => []
      case Enter => Names(e.path) + Covered(e.value.entries, Rest(e, path))
  }

  lemma {:induction false} CoveredAndRemaining(es: Entries, path: Path)
    ensures path == Covered(es, path) + Remaining(es, path)
    decreases es
  {
    match es
    case NoEntry =>
    case Cons(e, tail) =>
      match Meet(e, path)
      case Pass => CoveredAndRemaining(tail, path);
      case Block =>
      case Enter =>
        CoveredAndRemaining(e.value.entries, Rest(e, path));
        assert path == Names(e.path) + Rest(e, path);
  }

  lemma {:induction false} InsertIsBind(es: Entries, path: Path, lead: string, v: Value)
    ensures InsertIn(es, path, lead, v) == BindIn(es, path, Remaining(es, path), lead, v)
    decreases es
  {
    match es
    case NoEntry =>
    case Cons(e, tail) =>
      match Meet(e, path)
      case Pass => InsertIsBind(tail, path, lead, v);
      case Block =>
      case Enter => InsertIsBind(e.value.entries, Rest(e, path), lead, v);
  }

  /** What is written depends only on the names joined by dots. */
  lemma {:induction false} SameText(es: Entries, path: Path, a: Path, b: Path, lead: string, v: Value, rest: string)
    requires a != [] && b != [] && Join(a, ".") == Join(b, ".")
    ensures PutEntries(BindIn(es, path, a, lead, v), rest) == PutEntries(BindIn(es, path, b, lead, v), rest)
    decreases es
  {
    hide PutEntry, PutValue;
    match es
    case NoEntry =>
      NewEntryText(lead, a, v, rest);
      NewEntryText(lead, b, v, rest);
    case Cons(e, tail) =>
      match Meet(e, path)
      case Pass => SameText(tail, path, a, b, lead, v, rest);
      case Block =>
      case Enter =>
        var inner, r := e.value.entries, Rest(e, path);
        var x, y := BindIn(inner, r, a, lead, v), BindIn(inner, r, b, lead, v);
        InnerSame(e, x, y, PutEntries(tail, rest), r, a, b, lead, v);
  }

  lemma {:induction false} InnerSame(
      e: Entry, x: Entries, y: Entries, rest: string, path: Path, a: Path, b: Path, lead: string, v: Value)
    requires e.Bind? && e.value.Set? && a != [] && b != [] && Join(a, ".") == Join(b, ".")
    requires x == BindIn(e.value.entries, path, a, lead, v) && y == BindIn(e.value.entries, path, b, lead, v)
    ensures PutEntry(WithInner(e, x), rest) == PutEntry(WithInner(e, y), rest)
    decreases e
  {
    hide PutEntries, PutPath, BindIn;
    SameText(e.value.entries, path, a, b, lead, v, e.value.close + ("}" + (e.semi + (";" + rest))));
  }

  lemma {:induction false} BindWF(es: Entries, path: Path, names: Path, lead: string, v: Value)
    requires WFEntries(es) && WFValue(v) && IsTrivia(lead) && names != [] && AllIdents(names)
    ensures WFEntries(BindIn(es, path, names, lead, v))
    decreases es
  {
    match es
    case NoEntry =>
      SpaceIsTrivia();
      assert WFPath(Segs(names)) && IsTrivia("");
    case Cons(e, tail) =>
      match Meet(e, path)
      case Pass => BindWF(tail, path, names, lead, v);
      case Block =>
      case Enter =>
        assert WFEntry(e) && WFValue(e.value);
        BindWF(e.value.entries, Rest(e, path), names, lead, v);
  }

  // ---------- what is read afterwards ----------

  /** The binding is read under the covered part of the path and its names, every other path
      that is no prefix of the path walked as before. */
  lemma {:induction false} GetBound(es: Entries, p: Path, names: Path, lead: string, v: Value, q: Path)
    requires !Stopped(es, p) && names != [] && !(q < p) && !(Covered(es, p) + names < q)
    ensures q != Covered(es, p) + names ==> Get(BindIn(es, p, names, lead, v), q) == Get(es, q)
    ensures q == Covered(es, p) + names && Get(es, q).None? ==> Get(BindIn(es, p, names, lead, v), q) == Some(v)
    decreases es
  {
    match es
    case NoEntry =>
      NamesOfSegs(names);
      assert [] + names == names;
      GetUnfold(NewEntry(lead, names, v), NoEntry, q);
    case Cons(e, tail) =>
      GetUnfold(e, tail, q);
      match Meet(e, p) {
        case Pass =>
          GetBound(tail, p, names, lead, v, q);
          GetUnfold(e, BindIn(tail, p, names, lead, v), q);
        case Enter => GetBoundInside(e, tail, p, names, lead, v, q);
      }
  }

  lemma {:induction false} GetBoundInside(
      e: Entry, tail: Entries, p: Path, names: Path, lead: string, v: Value, q: Path)
    requires Meet(e, p).Enter? && !Stopped(e.value.entries, Rest(e, p)) && names != []
    requires !(q < p) && !(Covered(Cons(e, tail), p) + names < q)
    ensures var es := Cons(e, tail); var at := Covered(es, p) + names;
      && (q != at ==> Get(BindIn(es, p, names, lead, v), q) == Get(es, q))
      && (q == at && Get(es, q).None? ==> Get(BindIn(es, p, names, lead, v), q) == Some(v))
    decreases e
  {
    var inner, rest := e.value.entries, Rest(e, p);
    var at, deep := Covered(Cons(e, tail), p) + names, Covered(inner, rest) + names;
    assert at == Names(e.path) + deep;
    var e' := WithInner(e, BindIn(inner, rest, names, lead, v));
    GetUnfold(e, tail, q);
    GetUnfold(e', tail, q);
    hide BindIn, Covered, Get, Stopped;
    if Leads(e, q) {
      assert p == Names(e.path) + rest && q == Names(e.path) + Rest(e, q);
      GetBound(inner, rest, names, lead, v, Rest(e, q));
    } else {
      assert !(Names(e.path) <= q);
      assert at[..|e.path|] == Names(e.path);
    }
  }

  /** A walk for the same or another path is stopped if it was before; if it is not, it ends as
      before. */
  lemma {:induction false} WalkAfterBind(es: Entries, p: Path, names: Path, lead: string, v: Value, q: Path)
    requires names != [] && (p == q || !Comparable(p, q)) && !(Covered(es, p) + names <= q)
    ensures var es' := BindIn(es, p, names, lead, v);
      (Stopped(es, q) ==> Stopped(es', q)) &&
      (!Stopped(es', q) ==> Remaining(es', q) == Remaining(es, q))
    decreases es
  {
    match es
    case NoEntry =>
      NamesOfSegs(names);
      assert [] + names == names;
    case Cons(e, tail) =>
      match Meet(e, p) {
        case Pass => WalkAfterBind(tail, p, names, lead, v, q);
        case Block =>
        case Enter =>
          if Meet(e, q).Enter? {
            RestComparable(e, p, q);
            var inner := e.value.entries;
            assert q == Names(e.path) + Rest(e, q);
            assert Covered(es, p) + names == Names(e.path) + (Covered(inner, Rest(e, p)) + names);
            WalkAfterBind(inner, Rest(e, p), names, lead, v, Rest(e, q));
          }
      }
  }

  /** Below a path that is no extension of the path walked or of the one bound, the names gain
      the next segment of the one bound, if that lies below it. */
  lemma {:induction false} KeysBound(es: Entries, p: Path, names: Path, lead: string, v: Value, q: Path)
    requires !Stopped(es, p) && names != [] && !(p <= q) && !(Covered(es, p) + names <= q)
    ensures var at := Covered(es, p) + names;
      KeySet(BindIn(es, p, names, lead, v), q) == KeySet(es, q) + (if q < at then {at[|q|]} else {})
    decreases es
  {
    match es
    case NoEntry =>
      NamesOfSegs(names);
      assert [] + names == names;
      KeySetCons(NewEntry(lead, names, v), NoEntry, q);
    case Cons(e, tail) =>
      KeySetCons(e, tail, q);
      match Meet(e, p) {
        case Pass =>
          KeysBound(tail, p, names, lead, v, q);
          KeySetCons(e, BindIn(tail, p, names, lead, v), q);
        case Enter => KeysBoundInside(e, tail, p, names, lead, v, q);
      }
  }

  lemma {:induction false} KeysBoundInside(
      e: Entry, tail: Entries, p: Path, names: Path, lead: string, v: Value, q: Path)
    requires Meet(e, p).Enter? && !Stopped(e.value.entries, Rest(e, p)) && names != []
    requires !(p <= q) && !(Covered(Cons(e, tail), p) + names <= q)
    ensures var at := Covered(Cons(e, tail), p) + names;
      KeySet(BindIn(Cons(e, tail), p, names, lead, v), q)
        == KeySet(Cons(e, tail), q) + (if q < at then {at[|q|]} else {})
    decreases e
  {
    var inner, rest := e.value.entries, Rest(e, p);
    var at, deep := Covered(Cons(e, tail), p) + names, Covered(inner, rest) + names;
    assert at == Names(e.path) + deep;
    var inner' := BindIn(inner, rest, names, lead, v);
    KeySetCons(e, tail, q);
    KeySetCons(WithInner(e, inner'), tail, q);
    hide BindIn, Covered, KeySet, EntryKeys, Stopped;
    if Names(e.path) <= q {
      var r := q[|e.path|..];
      assert p == Names(e.path) + rest && q == Names(e.path) + r;
      Together(Names(e.path), rest, r);
      Together(Names(e.path), deep, r);
      Together(Names(e.path), r, deep);
      KeysBound(inner, rest, names, lead, v, r);
      KeysBehind(e, inner', q);
      KeysBehind(e, inner, q);
    } else {
      KeysBefore(e, inner', q);
      if q < at { PrefixesCompare(Names(e.path), q, at, at); }
    }
  }

  lemma Together(n: Path, a: Path, b: Path)
    ensures n + a <= n + b <==> a <= b
    ensures a < b ==> (n + b)[|n + a|] == b[|a|]
  {
    if n + a <= n + b {
      assert a == (n + a)[|n|..] && b == (n + b)[|n|..];
    }
  }

  /** The names that a binding adds below an extension of its own name. */
  lemma KeysBehind(e: Entry, inner: Entries, q: Path)
    requires e.Bind? && e.value.Set? && Names(e.path) != [] && Names(e.path) <= q
    ensures (set k | k in EntryKeys(WithInner(e, inner), q)) == KeySet(inner, q[|e.path|..])
  {
  }

  /** The names that it adds below anything else do not depend on what it holds. */
  lemma KeysBefore(e: Entry, inner: Entries, q: Path)
    requires e.Bind? && e.value.Set? && Names(e.path) != [] && !(Names(e.path) <= q)
    ensures EntryKeys(WithInner(e, inner), q) == EntryKeys(e, q)
    ensures q < Names(e.path) ==> EntryKeys(e, q) == [Names(e.path)[|q|]]
  {
  }
}
