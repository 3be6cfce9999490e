/** The meaning of a set of nested and dotted bindings as one flat table from full paths to
    values, in document order.  Lookup, key enumeration and insertion are specified by it. */
module NixTable {
  import opened Options
  import opened NixSyntax
  import opened NixValues
  import opened NixEdit

  type Table = seq<(Path, Value)>

  predicate Named(e: Entry) { e.Bind? && Names(e.path) != [] }

  /** Puts every path of the table under `prefix`. */
  function Under(prefix: Path, t: Table): (r: Table)
    ensures |r| == |t|
  {
    if t == [] then [] else [(prefix + t[0].0, t[0].1)] + Under(prefix, t[1..])
  }

  function Inner(e: Entry): Table
    decreases e
  {
    if Named(e) && e.value.Set? then Under(Names(e.path), Flatten(e.value.entries)) else []
  }

  function Flatten(es: Entries): Table
    decreases es
  {
    match es
    case NoEntry => []
    case Cons(e, tail) =>
      (if Named(e) then [(Names(e.path), e.value)] + Inner(e) else []) + Flatten(tail)
  }

  function FirstAt(t: Table, p: Path): Option<Value> {
    if t == [] then None else if t[0].0 == p then Some(t[0].1) else FirstAt(t[1..], p)
  }

  // ---------- lookup is the first pair of the table with the path ----------

  lemma {:induction false} FirstAtConcat(a: Table, b: Table, p: Path)
    ensures FirstAt(a + b, p) == if FirstAt(a, p).Some? then FirstAt(a, p) else FirstAt(b, p)
  {
    if a == [] {
      assert a + b == b;
    } else {
      assert (a + b)[1..] == a[1..] + b;
      FirstAtConcat(a[1..], b, p);
    }
  }

  lemma {:induction false} FirstAtUnder(prefix: Path, t: Table, p: Path)
    ensures prefix <= p ==> FirstAt(Under(prefix, t), p) == FirstAt(t, p[|prefix|..])
    ensures !(prefix <= p) ==> FirstAt(Under(prefix, t), p).None?
  {
    if t == [] {
    } else {
      FirstAtUnder(prefix, t[1..], p);
      assert Under(prefix, t)[1..] == Under(prefix, t[1..]);
      if prefix <= p {
        assert p == prefix + p[|prefix|..];
        assert (prefix + t[0].0)[|prefix|..] == t[0].0;
      }
    }
  }

  /** The backtracking search finds the first pair with the path, and misses none. */
  lemma {:induction false} GetIsFirst(es: Entries, path: Path)
    requires path != []
    ensures Get(es, path) == FirstAt(Flatten(es), path)
    decreases es
  {
    match es
    case NoEntry =>
    case Cons(e, tail) =>
      GetUnfold(e, tail, path);
      GetIsFirst(tail, path);
      if Named(e) {
        var head := [(Names(e.path), e.value)];
        FirstAtConcat(head + Inner(e), Flatten(tail), path);
        FirstAtConcat(head, Inner(e), path);
        assert head[1..] == [];
        assert FirstAt(head, path) == if Names(e.path) == path then Some(e.value) else None;
        if Leads(e, path) {
          assert path == Names(e.path) + Rest(e, path);
        }
        if e.value.Set? {
          FirstAtUnder(Names(e.path), Flatten(e.value.entries), path);
          if Leads(e, path) && Rest(e, path) != [] {
            GetIsFirst(e.value.entries, Rest(e, path));
          }
        }
      } else {
        assert [] + Flatten(tail) == Flatten(tail);
      }
  }

  // ---------- the names bound below a path ----------

  function EntryKeys(e: Entry, path: Path): seq<string>
    decreases e
  {
    if !Named(e) || !Comparable(Names(e.path), path) then []
    else if |Names(e.path)| > |path| then [Names(e.path)[|path|]]
    else if e.value.Set? then ChildKeys(e.value.entries, path[|Names(e.path)|..])
    else []
  }

  /** The keys that `collect_child_keys` pushes. */
  function ChildKeys(es: Entries, path: Path): seq<string>
    decreases es
  {
    match es
    case NoEntry => []
    case Cons(e, tail) => EntryKeys(e, path) + ChildKeys(tail, path)
  }

  /** The loop over the entries, with its recursion into nested sets. */
  method CollectChildKeys(es: Entries, path: Path, before: seq<string>) returns (keys: seq<string>, found: bool)
    ensures keys == before + ChildKeys(es, path)
    ensures found <==> ChildKeys(es, path) != []
    decreases es
  {
    keys, found := before, false;
    var todo := es;
    ghost var done: seq<string> := [];
    while todo.Cons?
      invariant todo == es || todo < es
      invariant ChildKeys(es, path) == done + ChildKeys(todo, path)
      invariant keys == before + done
      invariant found <==> done != []
      decreases todo
    {
      var e := todo.entry;
      ghost var more := EntryKeys(e, path);
      assert done + (more + ChildKeys(todo.tail, path)) == (done + more) + ChildKeys(todo.tail, path);
      if Named(e) {
        var names := Names(e.path);
        if Comparable(names, path) {
          if |names| > |path| {
            keys, found := keys + [names[|path|]], true;
          } else if e.value.Set? {
            var below;
            keys, below := CollectChildKeys(e.value.entries, path[|names|..], keys);
            if below { found := true; }
          }
        }
      }
      assert keys == before + (done + more);
      done := done + more;
      todo := todo.tail;
    }
  }

  lemma {:induction false} InUnder(prefix: Path, t: Table, q: Path, w: Value)
    ensures (q, w) in Under(prefix, t) <==> prefix <= q && (q[|prefix|..], w) in t
  {
    if t == [] {
    } else {
      InUnder(prefix, t[1..], q, w);
      assert t == [t[0]] + t[1..];
      if prefix <= q {
        assert q == prefix + q[|prefix|..];
      }
      assert (prefix + t[0].0)[|prefix|..] == t[0].0;
    }
  }

  ghost predicate Extends(t: Table, p: Path) { exists q, w :: (q, w) in t && p <= q }

  lemma ExtendsConcat(a: Table, b: Table, p: Path)
    ensures Extends(a + b, p) <==> Extends(a, p) || Extends(b, p)
  {
    if Extends(a + b, p) {
      var q, w :| (q, w) in a + b && p <= q;
      assert (q, w) in a || (q, w) in b;
    }
    if Extends(a, p) {
      var q, w :| (q, w) in a && p <= q;
      assert (q, w) in a + b;
    }
    if Extends(b, p) {
      var q, w :| (q, w) in b && p <= q;
      assert (q, w) in a + b;
    }
  }

  lemma ExtendsUnder(prefix: Path, t: Table, p: Path)
    ensures prefix <= p ==> (Extends(Under(prefix, t), p) <==> Extends(t, p[|prefix|..]))
    ensures Extends(Under(prefix, t), p) ==> Comparable(prefix, p)
  {
    if Extends(Under(prefix, t), p) {
      var q, w :| (q, w) in Under(prefix, t) && p <= q;
      InUnder(prefix, t, q, w);
      if prefix <= p {
        assert p[|prefix|..] <= q[|prefix|..];
      }
    }
    if prefix <= p && Extends(t, p[|prefix|..]) {
      var q, w :| (q, w) in t && p[|prefix|..] <= q;
      assert (prefix + q)[|prefix|..] == q;
      InUnder(prefix, t, prefix + q, w);
      assert p == prefix + p[|prefix|..];
      assert p <= prefix + q;
    }
  }

  /** The keys below a path are exactly the next segments of the bound paths that extend it. */
  lemma {:induction false} KeysAreNextSegments(es: Entries, path: Path, k: string)
    ensures k in ChildKeys(es, path) <==> Extends(Flatten(es), path + [k])
    decreases es
  {
    match es
    case NoEntry =>
    case Cons(e, tail) =>
      KeysAreNextSegments(tail, path, k);
      if Named(e) {
        var names := Names(e.path);
        var p := path + [k];
        ExtendsConcat([(names, e.value)] + Inner(e), Flatten(tail), p);
        ExtendsConcat([(names, e.value)], Inner(e), p);
        assert Extends([(names, e.value)], p) <==> p <= names by {
          assert (names, e.value) in [(names, e.value)];
        }
        InnerKeys(e, path, k);
      } else {
        assert [] + Flatten(tail) == Flatten(tail);
      }
  }

  lemma {:induction false} InnerKeys(e: Entry, path: Path, k: string)
    requires Named(e)
    ensures k in EntryKeys(e, path) <==> path + [k] <= Names(e.path) || Extends(Inner(e), path + [k])
    decreases e
  {
    var names, p := Names(e.path), path + [k];
    if e.value.Set? {
      var t := Flatten(e.value.entries);
      ExtendsUnder(names, t, p);
      if names <= path {
        assert p[|names|..] == path[|names|..] + [k];
        KeysAreNextSegments(e.value.entries, path[|names|..], k);
      } else if names <= p {
        assert names == p;
      }
    }
    if p <= names {
      assert path == p[..|path|] == names[..|path|];
      assert names[|path|] == p[|path|] == k;
    }
    if Comparable(names, path) && |names| > |path| && k == names[|path|] {
      assert p == names[..|path| + 1];
    }
    if Extends(Inner(e), p) && !(p <= names) {
      assert names <= p;
      assert names != p;
      assert p[..|path|] == path;
      assert names <= path;
    }
  }

  // ---------- sorted keys ----------

  /** The order of strings: by the first difference, a proper prefix first. */
  predicate Less(a: string, b: string) {
    b != "" && (a == "" || a[0] < b[0] || (a[0] == b[0] && Less(a[1..], b[1..])))
  }

  lemma {:induction false} LessTotal(a: string, b: string)
    ensures Less(a, b) || a == b || Less(b, a)
  {
    if a != "" && b != "" && a[0] == b[0] {
      LessTotal(a[1..], b[1..]);
      assert a == [a[0]] + a[1..] && b == [b[0]] + b[1..];
    }
  }

  lemma {:induction false} LessTransitive(a: string, b: string, c: string)
    requires Less(a, b) && Less(b, c)
    ensures Less(a, c)
  {
    if a != "" && a[0] == b[0] == c[0] { LessTransitive(a[1..], b[1..], c[1..]); }
  }

  lemma {:induction false} LessIrreflexive(a: string)
    ensures !Less(a, a)
  {
    if a == "" {
    } else {
      LessIrreflexive(a[1..]);
    }
  }

  predicate StrictlySorted(s: seq<string>) { forall i, j :: 0 <= i < j < |s| ==> Less(s[i], s[j]) }

  function InsertSorted(k: string, s: seq<string>): seq<string> {
    if s == [] || Less(k, s[0]) then [k] + s
    else if k == s[0] then s
    else [s[0]] + InsertSorted(k, s[1..])
  }

  /** Sorting and removing duplicates. */
  function SortDedup(s: seq<string>): seq<string> {
    if s == [] then [] else InsertSorted(s[0], SortDedup(s[1..]))
  }

  lemma {:induction false} InsertSortedProperties(k: string, s: seq<string>)
    requires StrictlySorted(s)
    ensures var r := InsertSorted(k, s); StrictlySorted(r) && forall x :: x in r <==> x == k || x in s
  {
    if s == [] {
    } else if Less(k, s[0]) {
      forall i | 0 <= i < |s|
        ensures Less(k, s[i])
      {
        if i > 0 { LessTransitive(k, s[0], s[i]); }
      }
    } else if k != s[0] {
      var t := InsertSorted(k, s[1..]);
      InsertSortedProperties(k, s[1..]);
      LessTotal(k, s[0]);
      assert forall x :: x in s <==> x == s[0] || x in s[1..];
      forall i | 0 <= i < |t|
        ensures Less(s[0], t[i])
      {
        assert t[i] in t;
        if t[i] != k {
          var j :| 0 <= j < |s[1..]| && s[1..][j] == t[i];
          assert s[j + 1] == t[i];
        }
      }
    }
  }

  lemma {:induction false} SortDedupProperties(s: seq<string>)
    ensures StrictlySorted(SortDedup(s)) && forall x :: x in SortDedup(s) <==> x in s
  {
    if s == [] {
    } else {
      SortDedupProperties(s[1..]);
      InsertSortedProperties(s[0], SortDedup(s[1..]));
      assert forall x :: x in s <==> x == s[0] || x in s[1..];
    }
  }

  lemma HeadIsIn(s: seq<string>)
    requires s != []
    ensures s[0] in s
  {
  }

  /** A strictly sorted sequence is determined by its elements, so every sorting algorithm
      yields `SortDedup`. */
  lemma {:induction false} SortedUnique(a: seq<string>, b: seq<string>)
    requires StrictlySorted(a) && StrictlySorted(b) && forall x :: x in a <==> x in b
    ensures a == b
  {
    if a == [] {
      if b != [] { HeadIsIn(b); }
    } else {
      assert a[0] in a && a[0] in b;
      assert b[0] in b && b[0] in a;
      if a[0] != b[0] {
        var i :| 0 <= i < |b| && b[i] == a[0];
        var j :| 0 <= j < |a| && a[j] == b[0];
        LessTransitive(a[0], b[0], a[0]);
        LessIrreflexive(a[0]);
      }
      forall x
        ensures x in a[1..] <==> x in b[1..]
      {
        SortedTail(a, x);
        SortedTail(b, x);
      }
      SortedUnique(a[1..], b[1..]);
      assert a == [a[0]] + a[1..] && b == [b[0]] + b[1..];
    }
  }

  lemma SortedTail(s: seq<string>, x: string)
    requires s != [] && StrictlySorted(s)
    ensures x in s[1..] <==> x in s && x != s[0]
  {
    if x in s[1..] {
      var i :| 0 <= i < |s[1..]| && s[1..][i] == x;
      assert s[i + 1] == x;
      LessIrreflexive(x);
    }
    if x in s && x != s[0] {
      var i :| 0 <= i < |s| && s[i] == x;
      assert s[1..][i - 1] == x;
    }
  }

  function Keys(es: Entries, path: Path): Option<seq<string>> {
    if ChildKeys(es, path) == [] then None else Some(SortDedup(ChildKeys(es, path)))
  }

  /** `attrset_keys`: none iff nothing is bound below the path; otherwise, strictly sorted,
      exactly the next segments of the bound paths below it. */
  lemma KeysExact(es: Entries, path: Path)
    ensures Keys(es, path).None? <==> forall k :: !Extends(Flatten(es), path + [k])
    ensures Keys(es, path).Some? ==>
      StrictlySorted(Keys(es, path).value) &&
      forall k :: k in Keys(es, path).value <==> Extends(Flatten(es), path + [k])
  {
    var keys := ChildKeys(es, path);
    SortDedupProperties(keys);
    forall k
      ensures k in keys <==> Extends(Flatten(es), path + [k])
    {
      KeysAreNextSegments(es, path, k);
    }
    if keys != [] {
      assert keys[0] in keys;
    }
  }
}
