/** Laws of the tree edits stated over the flat table: which insertions are refused, that a
    set without conflicts stays without, and what an edit does to the names below a path. */
module NixLaws {
  import opened NixSyntax
  import opened NixValues
  import opened NixEdit
  import opened NixTable

  // ---------- conflicts ----------

  /** No binding of `es` has a name comparable with `names`. */
  predicate Apart(names: Path, es: Entries) {
    es.NoEntry? || ((Named(es.entry) ==> !Comparable(names, Names(es.entry.path))) && Apart(names, es.tail))
  }

  /** In no set is an attribute path a prefix of a sibling's. */
  predicate ConflictFree(es: Entries)
    decreases es
  {
    match es
    case NoEntry => true
    case Cons(e, tail) =>
      (Named(e) ==> Apart(Names(e.path), tail)) &&
      (Named(e) && e.value.Set? ==> ConflictFree(e.value.entries)) && ConflictFree(tail)
  }

  lemma {:induction false} ApartInserted(names: Path, es: Entries, p: Path, lead: string, v: Value)
    requires Apart(names, es) && !Comparable(names, p)
    ensures Apart(names, InsertIn(es, p, lead, v))
    decreases es
  {
    match es
    case NoEntry => NamesOfSegs(p);
    case Cons(e, tail) => if Meet(e, p).Pass? { ApartInserted(names, tail, p, lead, v); }
  }

  /** Insertion never creates a conflict. */
  lemma {:induction false} InsertKeepsConflictFree(es: Entries, p: Path, lead: string, v: Value)
    requires ConflictFree(es) && p != [] && (v.Set? ==> ConflictFree(v.entries))
    ensures ConflictFree(InsertIn(es, p, lead, v))
    decreases es
  {
    match es
    case NoEntry =>
    case Cons(e, tail) =>
      match Meet(e, p)
      case Pass =>
        InsertKeepsConflictFree(tail, p, lead, v);
        if Named(e) { ApartInserted(Names(e.path), tail, p, lead, v); }
      case Block =>
      case Enter => InsertKeepsConflictFree(e.value.entries, Rest(e, p), lead, v);
  }

  lemma {:induction false} ApartReplaced(names: Path, es: Entries, p: Path, v: Value)
    requires Apart(names, es)
    ensures Apart(names, ReplaceIn(es, p, v))
    decreases es
  {
    match es
    case NoEntry =>
    case Cons(e, tail) => ApartReplaced(names, tail, p, v);
  }

  lemma {:induction false} ReplaceKeepsConflictFree(es: Entries, p: Path, v: Value)
    requires ConflictFree(es) && (v.Set? ==> ConflictFree(v.entries))
    ensures ConflictFree(ReplaceIn(es, p, v))
    decreases es
  {
    match es
    case NoEntry =>
    case Cons(e, tail) =>
      ReplaceKeepsConflictFree(tail, p, v);
      if Named(e) { ApartReplaced(Names(e.path), tail, p, v); }
      if FoundInside(e, p) { ReplaceKeepsConflictFree(e.value.entries, Rest(e, p), v); }
  }

  /** No binding of a set apart from some names leads to a path comparable with them. */
  lemma {:induction false} ApartIsUnbound(names: Path, es: Entries, p: Path)
    requires Apart(names, es) && Comparable(names, p)
    ensures Get(es, p).None?
    decreases es
  {
    match es
    case NoEntry =>
    case Cons(e, tail) =>
      GetUnfold(e, tail, p);
      ApartIsUnbound(names, tail, p);
  }

  /** In a set without conflicts the walk beyond a path that is bound to a set goes through
      that set. */
  lemma {:induction false} WalkThroughSet(es: Entries, p: Path, q: Path)
    requires ConflictFree(es) && Get(es, p).Some? && Get(es, p).value.Set? && q != []
    ensures var inner := Get(es, p).value.entries;
      Stopped(es, p + q) == Stopped(inner, q) && Remaining(es, p + q) == Remaining(inner, q)
    decreases es
  {
    var e, tail := es.entry, es.tail;
    GetUnfold(e, tail, p);
    if Named(e) && Comparable(Names(e.path), p) { ApartIsUnbound(Names(e.path), tail, p); }
    if Leads(e, p) {
      assert (p + q)[|e.path|..] == Rest(e, p) + q;
      if Rest(e, p) == [] {
        assert [] + q == q;
      } else {
        WalkThroughSet(e.value.entries, Rest(e, p), q);
      }
    } else {
      WalkThroughSet(tail, p, q);
    }
  }

  // ---------- which insertions are refused ----------

  /** The pair stands in the way of binding `p`: it gives a proper prefix of `p` a value that
      is no set, or `p` is a proper prefix of its path. */
  predicate Obstructs(q: Path, w: Value, p: Path) { (q < p && !w.Set?) || p < q }

  ghost predicate Obstructed(t: Table, p: Path) { exists q, w :: (q, w) in t && Obstructs(q, w, p) }

  lemma ObstructedConcat(a: Table, b: Table, p: Path)
    ensures Obstructed(a + b, p) <==> Obstructed(a, p) || Obstructed(b, p)
  {
    if Obstructed(a + b, p) {
      var q, w :| (q, w) in a + b && Obstructs(q, w, p);
      assert (q, w) in a || (q, w) in b;
    }
    if Obstructed(a, p) {
      var q, w :| (q, w) in a && Obstructs(q, w, p);
      assert (q, w) in a + b;
    }
    if Obstructed(b, p) {
      var q, w :| (q, w) in b && Obstructs(q, w, p);
      assert (q, w) in a + b;
    }
  }

  lemma ObstructedUnder(prefix: Path, t: Table, p: Path)
    requires prefix <= p
    ensures Obstructed(Under(prefix, t), p) <==> Obstructed(t, p[|prefix|..])
  {
    var r := p[|prefix|..];
    assert p == prefix + r;
    if Obstructed(Under(prefix, t), p) {
      var q, w :| (q, w) in Under(prefix, t) && Obstructs(q, w, p);
      InUnder(prefix, t, q, w);
      assert q == prefix + q[|prefix|..];
      assert Obstructs(q[|prefix|..], w, r);
    }
    if Obstructed(t, r) {
      var q, w :| (q, w) in t && Obstructs(q, w, r);
      assert (prefix + q)[|prefix|..] == q;
      InUnder(prefix, t, prefix + q, w);
      assert Obstructs(prefix + q, w, p);
    }
  }

  /** All paths of the table extend a name of one of the bindings. */
  lemma {:induction false} ApartTable(names: Path, es: Entries, p: Path)
    requires Apart(names, es) && names <= p
    ensures !Obstructed(Flatten(es), p)
    decreases es
  {
    match es
    case NoEntry =>
    case Cons(e, tail) =>
      ApartTable(names, tail, p);
      var head := if Named(e) then [(Names(e.path), e.value)] + Inner(e) else [];
      ObstructedConcat(head, Flatten(tail), p);
      forall q, w | (q, w) in head
        ensures !Obstructs(q, w, p)
      {
        if (q, w) in Inner(e) {
          InUnder(Names(e.path), Flatten(e.value.entries), q, w);
        }
        assert Names(e.path) <= q;
        if q <= p || p <= q {
          PrefixesCompare(names, Names(e.path), p, q);
        }
      }
  }

  lemma PrefixesCompare(a: Path, b: Path, p: Path, q: Path)
    requires a <= p && b <= q && Comparable(p, q)
    ensures Comparable(a, b)
  {
    var longer := if |p| <= |q| then q else p;
    assert a <= longer && b <= longer;
    if |a| <= |b| {
      assert a == longer[..|a|] == b[..|a|];
    } else {
      assert b == longer[..|b|] == a[..|b|];
    }
  }

  /** The pairs that the walk for `p` gets to see: the walk goes into the first set that
      matches and never comes back to the bindings behind it. */
  function Seen(es: Entries, p: Path): Table
    decreases es
  {
    match es
    case NoEntry => []
    case Cons(e, tail) =>
      match Meet(e, p)
      case Pass => Seen(tail, p)
      case Block => [(Names(e.path), e.value)]
      case Enter => Under(Names(e.path), Seen(e.value.entries, Rest(e, p)))
  }

  /** What the walk sees is there. */
  lemma {:induction false} SeenIsThere(es: Entries, p: Path, q: Path, w: Value)
    requires (q, w) in Seen(es, p)
    ensures (q, w) in Flatten(es)
    decreases es
  {
    var e, tail := es.entry, es.tail;
    match Meet(e, p)
    case Pass => SeenIsThere(tail, p, q, w);
    case Block =>
    case Enter =>
      var names := Names(e.path);
      InUnder(names, Seen(e.value.entries, Rest(e, p)), q, w);
      SeenIsThere(e.value.entries, Rest(e, p), q[|names|..], w);
      InUnder(names, Flatten(e.value.entries), q, w);
  }

  /** Binding a path that is not bound yet is refused exactly when, among the bindings that the
      walk sees, a proper prefix of it is bound to something that is no set, or it is a proper
      prefix of a bound path. */
  lemma {:induction false} RefusedExactly(es: Entries, p: Path)
    requires p != [] && Get(es, p).None?
    ensures Stopped(es, p) <==> Obstructed(Seen(es, p), p)
    decreases es
  {
    match es
    case NoEntry =>
    case Cons(e, tail) =>
      GetUnfold(e, tail, p);
      match Meet(e, p) {
        case Pass => RefusedExactly(tail, p);
        case Block =>
          assert (Names(e.path), e.value) in Seen(es, p);
          assert Obstructs(Names(e.path), e.value, p);
        case Enter =>
          ObstructedUnder(Names(e.path), Seen(e.value.entries, Rest(e, p)), p);
          RefusedExactly(e.value.entries, Rest(e, p));
      }
  }

  /** Does a binding stand in the way of `p` behind a set that the walk goes into? */
  ghost predicate Overlooked(es: Entries, p: Path)
    decreases es
  {
    match es
    case NoEntry => false
    case Cons(e, tail) =>
      match Meet(e, p)
      case Pass => Overlooked(tail, p)
      case Block => false
      case Enter => Obstructed(Flatten(tail), p) || Overlooked(e.value.entries, Rest(e, p))
  }

  /** Any binding in the way of an unbound path stops the walk or is overlooked by it, and
      nothing else does: a refused path is always obstructed, an obstructed one is let through
      exactly when all that is in its way is overlooked. */
  lemma {:induction false} ObstructedExactly(es: Entries, p: Path)
    requires p != [] && Get(es, p).None?
    ensures Obstructed(Flatten(es), p) <==> Stopped(es, p) || Overlooked(es, p)
    decreases es
  {
    match es
    case NoEntry =>
    case Cons(e, tail) =>
      GetUnfold(e, tail, p);
      if !Named(e) {
        assert [] + Flatten(tail) == Flatten(tail);
        ObstructedExactly(tail, p);
      } else {
        var names := Names(e.path);
        var self := [(names, e.value)];
        ObstructedConcat(self + Inner(e), Flatten(tail), p);
        ObstructedConcat(self, Inner(e), p);
        assert Obstructed(self, p) <==> Obstructs(names, e.value, p) by {
          assert (names, e.value) in self;
        }
        match Meet(e, p) {
          case Pass =>
            PassDoesNotObstruct(e, p);
            ObstructedExactly(tail, p);
          case Block =>
            assert Obstructs(names, e.value, p);
          case Enter =>
            ObstructedUnder(names, Flatten(e.value.entries), p);
            ObstructedExactly(e.value.entries, Rest(e, p));
        }
      }
  }

  /** In a set without conflicts the walk overlooks nothing, so that there a path that is not
      bound is refused exactly when any binding is in its way. */
  lemma {:induction false} NothingIsOverlooked(es: Entries, p: Path)
    requires ConflictFree(es)
    ensures !Overlooked(es, p)
    decreases es
  {
    match es
    case NoEntry =>
    case Cons(e, tail) =>
      match Meet(e, p)
      case Pass => NothingIsOverlooked(tail, p);
      case Block =>
      case Enter =>
        ApartTable(Names(e.path), tail, p);
        NothingIsOverlooked(e.value.entries, Rest(e, p));
  }

  lemma PassDoesNotObstruct(e: Entry, p: Path)
    requires Named(e) && Meet(e, p).Pass?
    ensures !Obstructs(Names(e.path), e.value, p) && !Obstructed(Inner(e), p)
  {
    forall q, w | (q, w) in Inner(e)
      ensures !Obstructs(q, w, p)
    {
      InUnder(Names(e.path), Flatten(e.value.entries), q, w);
      if Comparable(q, p) {
        PrefixesCompare(Names(e.path), p, q, p);
      }
    }
  }

  /** An obstructed path that is let through: in `a = { }; a.b = 5;` the path `a.b.c` is
      obstructed by the second binding, but a binding for it would be put into the first. */
  lemma WalkDoesNotBacktrack()
    ensures var es := Cons(Bind("", [Ident("a")], "", "", Set("", NoEntry, ""), ""),
                      Cons(Bind("", [Ident("a"), Ident("b")], "", "", Atom("5"), ""), NoEntry));
      var p := ["a", "b", "c"];
      Get(es, p).None? && !Stopped(es, p) && Overlooked(es, p)
  {
    var e1 := Bind("", [Ident("a")], "", "", Set("", NoEntry, ""), "");
    var e2 := Bind("", [Ident("a"), Ident("b")], "", "", Atom("5"), "");
    var tail := Cons(e2, NoEntry);
    var p := ["a", "b", "c"];
    assert Names(e1.path) == ["a"] && Names(e2.path) == ["a", "b"];
    assert p[..1] == ["a"] && p[..2] == ["a", "b"];
    GetUnfold(e1, tail, p);
    GetUnfold(e2, NoEntry, p);
    assert (["a", "b"], Atom("5")) in Flatten(tail);
    assert (["a", "b"], Atom("5")) in Flatten(Cons(e1, tail));
    assert Obstructs(["a", "b"], Atom("5"), p);
    assert ["a", "b"][..1] == ["a"];
  }

  // ---------- what an edit does to the names below a path ----------

  ghost function KeySet(es: Entries, q: Path): set<string> { set k | k in ChildKeys(es, q) }

  lemma {:induction false} KeysReplacedElsewhere(es: Entries, p: Path, v: Value, q: Path)
    requires !Comparable(p, q)
    ensures ChildKeys(ReplaceIn(es, p, v), q) == ChildKeys(es, q)
    decreases es
  {
    match es
    case NoEntry =>
    case Cons(e, tail) =>
      KeysReplacedElsewhere(tail, p, v, q);
      if FoundInside(e, p) {
        if Leads(e, q) {
          RestComparable(e, p, q);
          KeysReplacedElsewhere(e.value.entries, Rest(e, p), v, Rest(e, q));
        }
      } else if Leads(e, p) && Rest(e, p) == [] {
        assert Names(e.path) == p;
      }
  }

  lemma {:induction false} KeysInsertedElsewhere(es: Entries, p: Path, lead: string, v: Value, q: Path)
    requires !Comparable(p, q)
    ensures ChildKeys(InsertIn(es, p, lead, v), q) == ChildKeys(es, q)
    decreases es
  {
    match es
    case NoEntry => NamesOfSegs(p);
    case Cons(e, tail) =>
      match Meet(e, p)
      case Pass => KeysInsertedElsewhere(tail, p, lead, v, q);
      case Block =>
      case Enter =>
        if Leads(e, q) {
          RestComparable(e, p, q);
          KeysInsertedElsewhere(e.value.entries, Rest(e, p), lead, v, Rest(e, q));
        }
  }

  lemma KeySetCons(e: Entry, tail: Entries, q: Path)
    ensures KeySet(Cons(e, tail), q) == (set k | k in EntryKeys(e, q)) + KeySet(tail, q)
  {
  }

  /** A bound path shows up among the names below each of its proper prefixes. */
  lemma {:induction false} BoundIsKey(es: Entries, p: Path, q: Path)
    requires q < p && Get(es, p).Some?
    ensures p[|q|] in KeySet(es, q)
    decreases es
  {
    var e, tail := es.entry, es.tail;
    GetUnfold(e, tail, p);
    KeySetCons(e, tail, q);
    if Leads(e, p) && Rest(e, p) == [] {
      assert Names(e.path) == p;
    } else if FoundInside(e, p) {
      var names := Names(e.path);
      PrefixesCompare(names, q, p, p);
      if |names| > |q| {
        assert names[|q|] == p[|q|];
      } else {
        assert Rest(e, p)[|q| - |names|] == p[|q|];
        assert q[|names|..] < Rest(e, p);
        BoundIsKey(e.value.entries, Rest(e, p), q[|names|..]);
      }
    } else {
      BoundIsKey(tail, p, q);
    }
  }

  /** Replacing the value at `p` changes no names below a proper prefix of `p`. */
  lemma {:induction false} KeysReplacedBelow(es: Entries, p: Path, v: Value, q: Path)
    requires q < p && Get(es, p).Some?
    ensures KeySet(ReplaceIn(es, p, v), q) == KeySet(es, q)
    decreases es
  {
    var e, tail := es.entry, es.tail;
    GetUnfold(e, tail, p);
    KeySetCons(e, tail, q);
    if Leads(e, p) && Rest(e, p) == [] {
      assert Names(e.path) == p;
      KeySetCons(e.(value := v), tail, q);
    } else if FoundInside(e, p) {
      var names := Names(e.path);
      var e' := WithInner(e, ReplaceIn(e.value.entries, Rest(e, p), v));
      KeySetCons(e', tail, q);
      PrefixesCompare(names, q, p, p);
      if |names| <= |q| {
        assert q[|names|..] < Rest(e, p);
        KeysReplacedBelow(e.value.entries, Rest(e, p), v, q[|names|..]);
        assert EntryKeys(e, q) == ChildKeys(e.value.entries, q[|names|..]);
        assert EntryKeys(e', q) == ChildKeys(e'.value.entries, q[|names|..]);
        assert (set k | k in EntryKeys(e', q)) == KeySet(e'.value.entries, q[|names|..]);
        assert (set k | k in EntryKeys(e, q)) == KeySet(e.value.entries, q[|names|..]);
      } else {
        assert EntryKeys(e', q) == EntryKeys(e, q);
      }
    } else {
      KeysReplacedBelow(tail, p, v, q);
      KeySetCons(e, ReplaceIn(tail, p, v), q);
    }
  }

  /** Inserting a binding for `p` adds the next segment of `p` below each proper prefix. */
  lemma {:induction false} KeysInsertedBelow(es: Entries, p: Path, lead: string, v: Value, q: Path)
    requires q < p && !Stopped(es, p)
    ensures KeySet(InsertIn(es, p, lead, v), q) == KeySet(es, q) + {p[|q|]}
    decreases es
  {
    match es
    case NoEntry =>
      NamesOfSegs(p);
      KeySetCons(NewEntry(lead, p, v), NoEntry, q);
      assert EntryKeys(NewEntry(lead, p, v), q) == [p[|q|]];
    case Cons(e, tail) =>
      KeySetCons(e, tail, q);
      match Meet(e, p) {
        case Pass =>
          KeysInsertedBelow(tail, p, lead, v, q);
          KeySetCons(e, InsertIn(tail, p, lead, v), q);
        case Enter =>
          var names := Names(e.path);
          var e' := WithInner(e, InsertIn(e.value.entries, Rest(e, p), lead, v));
          KeySetCons(e', tail, q);
          PrefixesCompare(names, q, p, p);
          if |names| <= |q| {
            assert q[|names|..] < Rest(e, p);
            assert Rest(e, p)[|q| - |names|] == p[|q|];
            KeysInsertedBelow(e.value.entries, Rest(e, p), lead, v, q[|names|..]);
            assert (set k | k in EntryKeys(e', q)) == KeySet(e'.value.entries, q[|names|..]);
            assert (set k | k in EntryKeys(e, q)) == KeySet(e.value.entries, q[|names|..]);
          } else {
            assert EntryKeys(e', q) == EntryKeys(e, q) == [p[|q|]];
          }
      }
  }
}
