/** Lookup and editing by attribute path on the lossless tree: what `find_in_attrset`,
    `descend` and the two splices do, and the proof that a byte splice of the text is
    exactly an edit of the tree. */
module NixEdit {
  import opened Options
  import opened NixSyntax
  import opened NixParser
  import opened NixValues
  import opened Strings

  type Path = seq<string>

  predicate Comparable(p: Path, q: Path) { p <= q || q <= p }

  // ---------- lookup ----------

  /** A value node and the offset where its text starts. */
  datatype Node = Node(value: Value, start: nat)

  function EntryLen(e: Entry): nat { |PutEntry(e, "")| }

  /** Where the value of a binding starts, counted from the start of the entry. */
  function ValueOffset(e: Entry): nat
    requires e.Bind?
  {
    |e.lead| + |PutPath(e.path, "")| + |e.pre| + 1 + |e.post|
  }

  /** Where a set's entries start, if its text starts at `at`. */
  function Inside(set_: Value, at: nat): nat
    requires set_.Set?
  {
    at + |set_.recur| + 1
  }

  /** Does the entry's name match the beginning of the path? */
  predicate Leads(e: Entry, path: Path) {
    e.Bind? && Names(e.path) != [] && Names(e.path) <= path
  }

  function Rest(e: Entry, path: Path): Path
    requires Leads(e, path)
  {
    path[|e.path|..]
  }

  /** The value node for `path`, searched for with backtracking over the entries. */
  function FindIn(es: Entries, at: nat, path: Path): Option<Node>
    decreases es
  {
    match es
    case NoEntry => None
    case Cons(e, tail) =>
      var next := at + EntryLen(e);
      if !Leads(e, path) then FindIn(tail, next, path)
      else
        var start := at + ValueOffset(e);
        if Rest(e, path) == [] then Some(Node(e.value, start))
        else if e.value.Set? && FindIn(e.value.entries, Inside(e.value, start), Rest(e, path)).Some? then
          FindIn(e.value.entries, Inside(e.value, start), Rest(e, path))
        else FindIn(tail, next, path)
  }

  function Get(es: Entries, path: Path): Option<Value> {
    match FindIn(es, 0, path)
    case None => None
    case Some(n) => Some(n.value)
  }

  lemma {:induction false} FindShift(es: Entries, at: nat, path: Path)
    ensures FindIn(es, at, path) ==
      (match FindIn(es, 0, path) case None => None case Some(n) => Some(Node(n.value, at + n.start)))
    decreases es
  {
    match es
    case NoEntry =>
    case Cons(e, tail) =>
      hide EntryLen, ValueOffset;
      FindShift(tail, at + EntryLen(e), path);
      FindShift(tail, 0 + EntryLen(e), path);
      if Leads(e, path) && e.value.Set? {
        FindShift(e.value.entries, Inside(e.value, at + ValueOffset(e)), Rest(e, path));
        FindShift(e.value.entries, Inside(e.value, 0 + ValueOffset(e)), Rest(e, path));
      }
  }

  /** `Get` without offsets. */
  lemma GetUnfold(e: Entry, tail: Entries, path: Path)
    ensures Get(Cons(e, tail), path) ==
      if !Leads(e, path) then Get(tail, path)
      else if Rest(e, path) == [] then Some(e.value)
      else if e.value.Set? && Get(e.value.entries, Rest(e, path)).Some? then Get(e.value.entries, Rest(e, path))
      else Get(tail, path)
  {
    hide EntryLen, ValueOffset;
    FindShift(tail, 0 + EntryLen(e), path);
    if Leads(e, path) && e.value.Set? {
      FindShift(e.value.entries, Inside(e.value, 0 + ValueOffset(e)), Rest(e, path));
    }
  }

  // ---------- the place for a new binding ----------

  datatype Meeting = Pass | Block | Enter

  /** What an entry means for a path that is not bound yet. */
  function Meet(e: Entry, path: Path): Meeting {
    if !e.Bind? || Names(e.path) == [] then Pass
    else if |Names(e.path)| > |path| then (if path < Names(e.path) then Block else Pass)
    else if !(Names(e.path) <= path) then Pass
    else if |Names(e.path)| == |path| || !e.value.Set? then Block
    else Enter
  }

  datatype InsertPoint = InsertPoint(target: Value, at: nat, remaining: Path)

  datatype Scan = Here | Blocked | Into(inner: Value, at: nat, rest: Path)

  /** Walks the entries up to the first one that settles where the path goes. */
  function ScanEntries(es: Entries, at: nat, path: Path): (s: Scan)
    ensures s.Into? ==> s.inner.Set? && |s.rest| < |path| && s.rest != []
    decreases es
  {
    match es
    case NoEntry => Here
    case Cons(e, tail) =>
      match Meet(e, path)
      case Pass => ScanEntries(tail, at + EntryLen(e), path)
      case Block => Blocked
      case Enter => Into(e.value, at + ValueOffset(e), Rest(e, path))
  }

  /** Walks as deep as existing sets allow, always into the first matching entry. */
  function Descend(target: Value, at: nat, path: Path): (r: Option<InsertPoint>)
    requires target.Set?
    ensures r.Some? ==> r.value.target.Set? && (path != [] ==> r.value.remaining != [])
    decreases |path|
  {
    match ScanEntries(target.entries, Inside(target, at), path)
    case Here => Some(InsertPoint(target, at, path))
    case Blocked => None
    case Into(inner, a, rest) => Descend(inner, a, rest)
  }

  // ---------- edits of the tree ----------

  function ReplaceIn(es: Entries, path: Path, v: Value): Entries
    decreases es
  {
    match es
    case NoEntry => NoEntry
    case Cons(e, tail) =>
      if !Leads(e, path) then Cons(e, ReplaceIn(tail, path, v))
      else if Rest(e, path) == [] then Cons(e.(value := v), tail)
      else if e.value.Set? && Get(e.value.entries, Rest(e, path)).Some? then
        Cons(e.(value := e.value.(entries := ReplaceIn(e.value.entries, Rest(e, path), v))), tail)
      else Cons(e, ReplaceIn(tail, path, v))
  }

  function Segs(path: Path): (s: seq<Seg>)
    ensures |s| == |path|
  {
    seq(|path|, i requires 0 <= i < |path| => Ident(path[i]))
  }

  function NewEntry(lead: string, path: Path, v: Value): Entry {
    Bind(lead, Segs(path), " ", " ", v, "")
  }

  /** The new binding goes after the last entry of the set the walk ends in. */
  function InsertIn(es: Entries, path: Path, lead: string, v: Value): Entries
    decreases es
  {
    match es
    case NoEntry => Cons(NewEntry(lead, path, v), NoEntry)
    case Cons(e, tail) =>
      match Meet(e, path)
      case Pass => Cons(e, InsertIn(tail, path, lead, v))
      case Block => es
      case Enter =>
        Cons(e.(value := e.value.(entries := InsertIn(e.value.entries, Rest(e, path), lead, v))), tail)
  }

  /** Is the walk for `path` stopped by an existing binding? */
  predicate Stopped(es: Entries, path: Path)
    decreases es
  {
    match es
    case NoEntry => false
    case Cons(e, tail) =>
      match Meet(e, path)
      case Pass => Stopped(tail, path)
      case Block => true
      case Enter => Stopped(e.value.entries, Rest(e, path))
  }

  /** The part of the path that no existing set covers. */
  function Remaining(es: Entries, path: Path): Path
    decreases es
  {
    match es
    case NoEntry => path
    case Cons(e, tail) =>
      match Meet(e, path)
      case Pass => Remaining(tail, path)
      case Block => path
      case Enter => Remaining(e.value.entries, Rest(e, path))
  }

  /** The `rec` part of the set in which the walk for `path` ends, if it starts in a set with
      the given one. */
  function HomeRecur(es: Entries, recur: string, path: Path): string
    decreases es
  {
    match es
    case NoEntry => recur
    case Cons(e, tail) =>
      match Meet(e, path)
      case Pass => HomeRecur(tail, recur, path)
      case Block => recur
      case Enter => HomeRecur(e.value.entries, e.value.recur, Rest(e, path))
  }

  // ---------- texts of edited trees ----------

  /** The text around the value of a binding. */
  lemma BindText(e: Entry, v: Value, rest: string) returns (before: string)
    requires e.Bind?
    ensures |before| == ValueOffset(e)
    ensures PutEntry(e, rest) == before + PutValue(e.value, e.semi + (";" + rest))
    ensures PutEntry(e.(value := v), rest) == before + PutValue(v, e.semi + (";" + rest))
  {
    before := e.lead + (PutPath(e.path, "") + (e.pre + ("=" + e.post)));
    BindBefore(e, before, rest);
    BindBefore(e.(value := v), before, rest);
  }

  lemma BindBefore(e: Entry, before: string, rest: string)
    requires e.Bind? && before == e.lead + (PutPath(e.path, "") + (e.pre + ("=" + e.post)))
    ensures PutEntry(e, rest) == before + PutValue(e.value, e.semi + (";" + rest))
  {
    hide PutPath, PutValue;
    var t := PutValue(e.value, e.semi + (";" + rest));
    var p, m := PutPath(e.path, ""), e.pre + ("=" + e.post);
    PutPathSplit(e.path, e.pre + ("=" + (e.post + t)));
    Glue("=", e.post, t);
    Glue(e.pre, "=" + e.post, t);
    Glue(p, m, t);
    Glue(e.lead, p + m, t);
  }

  lemma SetBefore(target: Value, rest: string)
    requires target.Set?
    ensures PutValue(target, rest) == (target.recur + "{") + PutEntries(target.entries, target.close + ("}" + rest))
  {
    var t := PutEntries(target.entries, target.close + ("}" + rest));
    assert target.recur + ("{" + t) == (target.recur + "{") + t;
  }

  /** The value of a binding whose value is a set, with other entries in the set. */
  function WithInner(e: Entry, es: Entries): Entry
    requires e.Bind? && e.value.Set?
  {
    e.(value := e.value.(entries := es))
  }

  lemma InnerText(e: Entry, es: Entries, rest: string) returns (before: string, after: string)
    requires e.Bind? && e.value.Set?
    ensures |before| == Inside(e.value, ValueOffset(e))
    ensures PutEntry(e, rest) == before + PutEntries(e.value.entries, after)
    ensures PutEntry(WithInner(e, es), rest) == before + PutEntries(es, after)
  {
    var e' := WithInner(e, es);
    var y := e.semi + (";" + rest);
    var b := BindText(e, e'.value, rest);
    SetBefore(e.value, y);
    SetBefore(e'.value, y);
    var c := e.value.recur + "{";
    before, after := b + c, e.value.close + ("}" + y);
    assert b + (c + PutEntries(e.value.entries, after)) == before + PutEntries(e.value.entries, after);
    assert b + (c + PutEntries(es, after)) == before + PutEntries(es, after);
  }

  lemma Glue(a: string, b: string, t: string)
    ensures a + (b + t) == (a + b) + t
  {
  }

  /** Does the search for `path` go on inside the entry's value and find it there? */
  predicate FoundInside(e: Entry, path: Path) {
    Leads(e, path) && Rest(e, path) != [] && e.value.Set? && Get(e.value.entries, Rest(e, path)).Some?
  }

  /** Replacing a value in the tree replaces exactly the text of its node. */
  lemma {:induction false} ReplaceText(es: Entries, at: nat, path: Path, v: Value, rest: string)
    returns (before: string, after: string)
    requires FindIn(es, at, path).Some?
    ensures var n := FindIn(es, at, path).value;
      && n.start == at + |before|
      && PutEntries(es, rest) == before + PutValue(n.value, after)
      && PutEntries(ReplaceIn(es, path, v), rest) == before + PutValue(v, after)
    decreases es
  {
    hide ValueOffset, PutValue, PutPath, PutEntry;
    var e, tail := es.entry, es.tail;
    var n := FindIn(es, at, path).value;
    if Leads(e, path) && Rest(e, path) == [] {
      var x := PutEntries(tail, rest);
      before := BindText(e, v, x);
      after := e.semi + (";" + x);
    } else if FoundInside(e, path) {
      var x := PutEntries(tail, rest);
      var es' := ReplaceIn(e.value.entries, Rest(e, path), v);
      var b, a := InnerText(e, es', x);
      FindShift(e.value.entries, Inside(e.value, at + ValueOffset(e)), Rest(e, path));
      var c;
      c, after := ReplaceText(e.value.entries, Inside(e.value, at + ValueOffset(e)), Rest(e, path), v, a);
      before := b + c;
      Glue(b, c, PutValue(n.value, after));
      Glue(b, c, PutValue(v, after));
    } else {
      if Leads(e, path) && e.value.Set? {
        FindShift(e.value.entries, Inside(e.value, at + ValueOffset(e)), Rest(e, path));
      }
      var b;
      b, after := ReplaceText(tail, at + EntryLen(e), path, v, rest);
      before := PutEntry(e, "") + b;
      PutEntrySplit(e, PutEntries(tail, rest));
      PutEntrySplit(e, PutEntries(ReplaceIn(tail, path, v), rest));
      Glue(PutEntry(e, ""), b, PutValue(n.value, after));
      Glue(PutEntry(e, ""), b, PutValue(v, after));
    }
  }

  /** After a replacement the same search finds the new value at the same place. */
  lemma {:induction false} FindReplaced(es: Entries, at: nat, path: Path, v: Value)
    requires FindIn(es, at, path).Some?
    ensures FindIn(ReplaceIn(es, path, v), at, path) == Some(Node(v, FindIn(es, at, path).value.start))
    decreases es
  {
    hide EntryLen, PutEntry, PutPath;
    var e, tail := es.entry, es.tail;
    if Leads(e, path) && e.value.Set? {
      FindShift(e.value.entries, Inside(e.value, at + ValueOffset(e)), Rest(e, path));
    }
    if Leads(e, path) && Rest(e, path) == [] {
    } else if FoundInside(e, path) {
      FindReplaced(e.value.entries, Inside(e.value, at + ValueOffset(e)), Rest(e, path), v);
    } else {
      FindReplaced(tail, at + EntryLen(e), path, v);
    }
  }

  // ---------- inserting ----------

  function AllEntries(es: Entries): string { PutEntries(es, "") }

  lemma StoppedIsNone(target: Value, at: nat, path: Path)
    requires target.Set?
    ensures Descend(target, at, path).None? <==> Stopped(target.entries, path)
    ensures Descend(target, at, path).Some? ==>
      var ip := Descend(target, at, path).value;
      ip.remaining == Remaining(target.entries, path) &&
      ip.target.recur == HomeRecur(target.entries, target.recur, path)
    decreases |path|
  {
    ScanIsStopped(target.entries, Inside(target, at), path, target.recur);
    match ScanEntries(target.entries, Inside(target, at), path)
    case Into(inner, a, rest) => StoppedIsNone(inner, a, rest);
    case _ =>
  }

  lemma {:induction false} ScanIsStopped(es: Entries, at: nat, path: Path, recur: string)
    ensures match ScanEntries(es, at, path)
      case Here => !Stopped(es, path) && Remaining(es, path) == path && HomeRecur(es, recur, path) == recur
      case Blocked => Stopped(es, path)
      case Into(inner, _, rest) =>
        Stopped(es, path) == Stopped(inner.entries, rest) &&
        Remaining(es, path) == Remaining(inner.entries, rest) &&
        HomeRecur(es, recur, path) == HomeRecur(inner.entries, inner.recur, rest)
    decreases es
  {
    match es
    case NoEntry =>
    case Cons(e, tail) => if Meet(e, path).Pass? { ScanIsStopped(tail, at + EntryLen(e), path, recur); }
  }

  /** Where a new binding is spliced in: after the last entry of the target. */
  function InsertAt(ip: InsertPoint): nat
    requires ip.target.Set?
  {
    Inside(ip.target, ip.at) + |AllEntries(ip.target.entries)|
  }

  /** Inserting a binding in the tree inserts exactly its text, at the insert point. */
  lemma {:induction false} InsertText(target: Value, at: nat, path: Path, lead: string, v: Value, rest: string)
    returns (before: string, after: string)
    requires target.Set? && path != [] && Descend(target, at, path).Some?
    ensures var ip := Descend(target, at, path).value;
      && InsertAt(ip) == Inside(target, at) + |before|
      && PutEntries(target.entries, rest) == before + after
      && PutEntries(InsertIn(target.entries, path, lead, v), rest)
         == before + PutEntry(NewEntry(lead, ip.remaining, v), after)
    decreases |path|, 1
  {
    hide PutEntry, PutPath, PutValue;
    match ScanEntries(target.entries, Inside(target, at), path)
    case Here =>
      AppendText(target.entries, Inside(target, at), path, lead, v, rest);
      before, after := AllEntries(target.entries), rest;
      PutEntriesSplit(target.entries, rest);
      PutEntriesSplit(target.entries, PutEntry(NewEntry(lead, path, v), rest));
    case Into(inner, a, r) =>
      before, after := EnterText(target.entries, Inside(target, at), path, lead, v, rest, InsertPoint(inner, a, r));
  }

  lemma {:induction false} AppendText(es: Entries, at: nat, path: Path, lead: string, v: Value, rest: string)
    requires ScanEntries(es, at, path).Here?
    ensures PutEntries(InsertIn(es, path, lead, v), rest) == PutEntries(es, PutEntry(NewEntry(lead, path, v), rest))
    decreases es
  {
    hide PutEntry;
    match es
    case NoEntry =>
    case Cons(e, tail) => AppendText(tail, at + EntryLen(e), path, lead, v, rest);
  }

  lemma {:induction false} EnterText(
      es: Entries, at: nat, path: Path, lead: string, v: Value, rest: string, into: InsertPoint)
    returns (before: string, after: string)
    requires ScanEntries(es, at, path) == Into(into.target, into.at, into.remaining)
    requires Descend(into.target, into.at, into.remaining).Some?
    ensures var ip := Descend(into.target, into.at, into.remaining).value;
      && InsertAt(ip) == at + |before|
      && PutEntries(es, rest) == before + after
      && PutEntries(InsertIn(es, path, lead, v), rest) == before + PutEntry(NewEntry(lead, ip.remaining, v), after)
    decreases |path|, 0, es
  {
    hide PutEntry, PutPath, PutValue, ValueOffset, InsertAt;
    var e, tail := es.entry, es.tail;
    var ip := Descend(into.target, into.at, into.remaining).value;
    var b, c;
    if Meet(e, path).Enter? {
      var x := PutEntries(tail, rest);
      var es' := InsertIn(e.value.entries, Rest(e, path), lead, v);
      var a;
      b, a := InnerText(e, es', x);
      c, after := InsertText(e.value, at + ValueOffset(e), Rest(e, path), lead, v, a);
    } else {
      b := PutEntry(e, "");
      c, after := EnterText(tail, at + EntryLen(e), path, lead, v, rest, into);
      PutEntrySplit(e, PutEntries(tail, rest));
      PutEntrySplit(e, PutEntries(InsertIn(tail, path, lead, v), rest));
    }
    before := b + c;
    Glue(b, c, after);
    Glue(b, c, PutEntry(NewEntry(lead, ip.remaining, v), after));
  }

  /** The text of a new binding is what the splice writes. */
  lemma NewEntryText(lead: string, path: Path, v: Value, rest: string)
    requires path != []
    ensures PutEntry(NewEntry(lead, path, v), rest)
      == (lead + (Join(path, ".") + (" = " + (PrintValue(v) + ";")))) + rest
  {
    hide PutPath, PutValue, Join;
    var t := ";" + rest;
    var x := PrintValue(v);
    PutValueSplit(v, "" + t);
    assert "" + t == t;
    assert " " + ("=" + (" " + (x + t))) == " = " + (x + t);
    SegsText(path, " = " + (x + t));
    Glue(x, ";", rest);
    Glue(" = ", x + ";", rest);
    Glue(Join(path, "."), " = " + (x + ";"), rest);
    Glue(lead, Join(path, ".") + (" = " + (x + ";")), rest);
  }

  lemma {:induction false} SegsText(path: Path, rest: string)
    requires path != []
    ensures PutPath(Segs(path), rest) == Join(path, ".") + rest
  {
    if |path| > 1 {
      assert Segs(path)[1..] == Segs(path[1..]);
      SegsText(path[1..], rest);
      Glue(".", Join(path[1..], "."), rest);
      Glue(path[0], "." + Join(path[1..], "."), rest);
    }
  }

  lemma NamesOfSegs(path: Path)
    ensures Names(Segs(path)) == path
  {
  }

  // ---------- well-formedness is kept ----------

  predicate AllIdents(path: Path) { forall i :: 0 <= i < |path| ==> IsIdent(path[i]) }

  lemma {:induction false} ReplaceWF(es: Entries, path: Path, v: Value)
    requires WFEntries(es) && WFValue(v)
    ensures WFEntries(ReplaceIn(es, path, v))
    decreases es
  {
    match es
    case NoEntry =>
    case Cons(e, tail) =>
      ReplaceWF(tail, path, v);
      assert WFEntry(e);
      if Leads(e, path) && e.value.Set? {
        assert WFValue(e.value);
        ReplaceWF(e.value.entries, Rest(e, path), v);
      }
  }

  lemma {:induction false} InsertWF(es: Entries, path: Path, lead: string, v: Value)
    requires WFEntries(es) && WFValue(v) && IsTrivia(lead) && path != [] && AllIdents(Remaining(es, path))
    ensures WFEntries(InsertIn(es, path, lead, v))
    decreases es
  {
    match es
    case NoEntry =>
      SpaceIsTrivia();
      assert WFPath(Segs(path)) && IsTrivia("");
    case Cons(e, tail) =>
      match Meet(e, path)
      case Pass => InsertWF(tail, path, lead, v);
      case Block =>
      case Enter =>
        assert WFEntry(e) && WFValue(e.value);
        InsertWF(e.value.entries, Rest(e, path), lead, v);
  }

  // ---------- get after set, and everything else stays ----------

  lemma GetReplaced(es: Entries, path: Path, v: Value)
    requires Get(es, path).Some?
    ensures Get(ReplaceIn(es, path, v), path) == Some(v)
  {
    FindReplaced(es, 0, path, v);
  }

  lemma {:induction false} GetInserted(es: Entries, path: Path, lead: string, v: Value)
    requires Get(es, path).None? && !Stopped(es, path) && path != []
    ensures Get(InsertIn(es, path, lead, v), path) == Some(v)
    decreases es
  {
    match es
    case NoEntry =>
      NamesOfSegs(path);
      GetUnfold(NewEntry(lead, path, v), NoEntry, path);
    case Cons(e, tail) =>
      GetUnfold(e, tail, path);
      match Meet(e, path) {
        case Pass =>
          GetInserted(tail, path, lead, v);
          GetUnfold(e, InsertIn(tail, path, lead, v), path);
        case Enter =>
          var e' := WithInner(e, InsertIn(e.value.entries, Rest(e, path), lead, v));
          GetInserted(e.value.entries, Rest(e, path), lead, v);
          GetUnfold(e', tail, path);
      }
  }

  lemma {:induction false} GetReplacedElsewhere(es: Entries, p: Path, v: Value, q: Path)
    requires !Comparable(p, q)
    ensures Get(ReplaceIn(es, p, v), q) == Get(es, q)
    decreases es
  {
    match es
    case NoEntry =>
    case Cons(e, tail) =>
      GetUnfold(e, tail, q);
      GetReplacedElsewhere(tail, p, v, q);
      if Leads(e, p) && Rest(e, p) == [] {
        GetUnfold(e.(value := v), tail, q);
      } else if FoundInside(e, p) {
        var e' := WithInner(e, ReplaceIn(e.value.entries, Rest(e, p), v));
        GetUnfold(e', tail, q);
        if Leads(e, q) {
          RestComparable(e, p, q);
          GetReplacedElsewhere(e.value.entries, Rest(e, p), v, Rest(e, q));
        }
      } else {
        GetUnfold(e, ReplaceIn(tail, p, v), q);
      }
  }

  lemma {:induction false} GetInsertedElsewhere(es: Entries, p: Path, lead: string, v: Value, q: Path)
    requires !Comparable(p, q) && p != []
    ensures Get(InsertIn(es, p, lead, v), q) == Get(es, q)
    decreases es
  {
    match es
    case NoEntry =>
      NamesOfSegs(p);
      GetUnfold(NewEntry(lead, p, v), NoEntry, q);
    case Cons(e, tail) =>
      GetUnfold(e, tail, q);
      match Meet(e, p) {
        case Pass =>
          GetInsertedElsewhere(tail, p, lead, v, q);
          GetUnfold(e, InsertIn(tail, p, lead, v), q);
        case Block =>
        case Enter =>
          var e' := WithInner(e, InsertIn(e.value.entries, Rest(e, p), lead, v));
          GetUnfold(e', tail, q);
          if Leads(e, q) {
            RestComparable(e, p, q);
            GetInsertedElsewhere(e.value.entries, Rest(e, p), lead, v, Rest(e, q));
          }
      }
  }

  lemma RestComparable(e: Entry, p: Path, q: Path)
    requires Leads(e, p) && Leads(e, q)
    ensures Comparable(Rest(e, p), Rest(e, q)) == Comparable(p, q)
  {
    var n := |e.path|;
    assert p == Names(e.path) + p[n..] && q == Names(e.path) + q[n..];
  }

  // ---------- the way to other paths stays the same ----------

  /** The walks for `q` through two sets end alike: stopped or not, with the same part of the
      path left, in a `rec` set or not. */
  ghost predicate SameWalk(es: Entries, es': Entries, q: Path) {
    Stopped(es, q) == Stopped(es', q) && Remaining(es, q) == Remaining(es', q) &&
    forall recur :: HomeRecur(es, recur, q) == HomeRecur(es', recur, q)
  }

  /** A name that is `p` says nothing about a path apart from `p`. */
  lemma MeetApart(e: Entry, p: Path, q: Path)
    requires e.Bind? && Names(e.path) == p && !Comparable(p, q)
    ensures Meet(e, q).Pass?
  {
  }

  /** An insertion at `p` does not change the walk for a path apart from `p`. */
  lemma {:induction false} WalkAfterInsert(es: Entries, p: Path, lead: string, v: Value, q: Path)
    requires !Comparable(p, q)
    ensures SameWalk(es, InsertIn(es, p, lead, v), q)
    decreases es
  {
    match es
    case NoEntry =>
      NamesOfSegs(p);
      MeetApart(NewEntry(lead, p, v), p, q);
    case Cons(e, tail) =>
      match Meet(e, p) {
        case Pass => WalkAfterInsert(tail, p, lead, v, q);
        case Block =>
        case Enter =>
          if Meet(e, q).Enter? {
            RestComparable(e, p, q);
            WalkAfterInsert(e.value.entries, Rest(e, p), lead, v, Rest(e, q));
          }
      }
  }

  /** Nor does a replacement at `p`. */
  lemma {:induction false} WalkAfterReplace(es: Entries, p: Path, v: Value, q: Path)
    requires !Comparable(p, q)
    ensures SameWalk(es, ReplaceIn(es, p, v), q)
    decreases es
  {
    match es
    case NoEntry =>
    case Cons(e, tail) =>
      WalkAfterReplace(tail, p, v, q);
      if Leads(e, p) && Rest(e, p) == [] {
        assert p == Names(e.path);
        MeetApart(e, p, q);
        MeetApart(e.(value := v), p, q);
      } else if FoundInside(e, p) && Meet(e, q).Enter? {
        RestComparable(e, p, q);
        WalkAfterReplace(e.value.entries, Rest(e, p), v, Rest(e, q));
      }
  }
}
