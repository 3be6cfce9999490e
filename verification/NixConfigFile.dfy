/** The config file as the dashboard holds it: a text.  Reading and editing parse the text
    anew each time and splice text; the lemmas say what that does in terms of the tree. */
module NixConfigFile {
  import opened Options
  import opened NixSyntax
  import opened NixParser
  import opened NixValues
  import opened NixEdit
  import opened NixTable
  import opened Strings

  // ---------- from the file down to its top-level set ----------

  /** Through function headers, `let … in` and parentheses down to the attribute set. */
  function SetOf(r: Root, at: nat): (n: Option<Node>)
    ensures n.Some? ==> n.value.value.Set?
  {
    match r
    case Bare(lead, v) => if v.Set? then Some(Node(v, at + |lead|)) else None
    case Lambda(lead, param, body) => SetOf(body, at + |lead| + |param| + 1)
    case LetIn(lead, entries, close, body) =>
      SetOf(body, at + |lead| + 3 + |AllEntries(entries)| + |close| + 2)
    case Paren(lead, body, _) => SetOf(body, at + |lead| + 1)
  }

  function WithEntries(r: Root, es: Entries): Root {
    match r
    case Bare(lead, v) => if v.Set? then Bare(lead, v.(entries := es)) else r
    case Lambda(lead, param, body) => Lambda(lead, param, WithEntries(body, es))
    case LetIn(lead, entries, close, body) => LetIn(lead, entries, close, WithEntries(body, es))
    case Paren(lead, body, close) => Paren(lead, WithEntries(body, es), close)
  }

  function FindFile(f: File, path: Path): Option<Node> {
    match SetOf(f.root, 0)
    case None => None
    case Some(n) => FindIn(n.value.entries, Inside(n.value, n.start), path)
  }

  function PointFile(f: File, path: Path): (r: Option<InsertPoint>)
    ensures r.Some? ==> r.value.target.Set? && (path != [] ==> r.value.remaining != [])
  {
    match SetOf(f.root, 0)
    case None => None
    case Some(n) => Descend(n.value, n.start, path)
  }

  /** The bindings of the file's top-level set, if it has one. */
  function Top(f: File): Option<Entries> {
    match SetOf(f.root, 0)
    case None => None
    case Some(n) => Some(n.value.entries)
  }

  function WithTop(f: File, es: Entries): File { File(WithEntries(f.root, es), f.tail) }

  lemma {:induction false} SetOfShift(r: Root, at: nat)
    ensures SetOf(r, at) == (match SetOf(r, 0) case None => None case Some(n) => Some(Node(n.value, at + n.start)))
  {
    match r
    case Bare(_, _) =>
    case Lambda(lead, param, body) =>
      SetOfShift(body, at + |lead| + |param| + 1);
      SetOfShift(body, 0 + |lead| + |param| + 1);
    case LetIn(lead, entries, close, body) =>
      SetOfShift(body, at + |lead| + 3 + |AllEntries(entries)| + |close| + 2);
      SetOfShift(body, 0 + |lead| + 3 + |AllEntries(entries)| + |close| + 2);
    case Paren(lead, body, _) =>
      SetOfShift(body, at + |lead| + 1);
      SetOfShift(body, 0 + |lead| + 1);
  }

  lemma {:induction false} SetOfEdited(r: Root, es: Entries)
    requires SetOf(r, 0).Some?
    ensures var n := SetOf(r, 0).value;
      SetOf(WithEntries(r, es), 0) == Some(Node(n.value.(entries := es), n.start))
  {
    match r
    case Bare(_, _) =>
    case Lambda(lead, param, body) =>
      SetOfShift(body, |lead| + |param| + 1);
      SetOfShift(WithEntries(body, es), |lead| + |param| + 1);
      SetOfEdited(body, es);
    case LetIn(lead, entries, close, body) =>
      var k := |lead| + 3 + |AllEntries(entries)| + |close| + 2;
      SetOfShift(body, k);
      SetOfShift(WithEntries(body, es), k);
      SetOfEdited(body, es);
    case Paren(lead, body, _) =>
      SetOfShift(body, |lead| + 1);
      SetOfShift(WithEntries(body, es), |lead| + 1);
      SetOfEdited(body, es);
  }

  lemma TopEdited(f: File, es: Entries)
    requires Top(f).Some?
    ensures Top(WithTop(f, es)) == Some(es)
  {
    SetOfEdited(f.root, es);
  }

  /** The text around the entries of the top-level set. */
  lemma {:induction false} RootText(r: Root, es: Entries, rest: string) returns (before: string, after: string)
    requires SetOf(r, 0).Some?
    ensures var n := SetOf(r, 0).value;
      && |before| == Inside(n.value, n.start)
      && PutRoot(r, rest) == before + PutEntries(n.value.entries, after)
      && PutRoot(WithEntries(r, es), rest) == before + PutEntries(es, after)
  {
    hide PutEntries, AllEntries;
    var old_ := SetOf(r, 0).value.value.entries;
    var a, b, k;
    match r {
      case Bare(lead, v) =>
        a, b, after := lead, v.recur + "{", v.close + ("}" + rest);
        SetBefore(v, rest);
        SetBefore(v.(entries := es), rest);
      case Lambda(lead, param, body) =>
        k := |lead| + |param| + 1;
        SetOfShift(body, k);
        b, after := RootText(body, es, rest);
        a := lead + (param + ":");
        LambdaText(lead, param, body, rest);
        LambdaText(lead, param, WithEntries(body, es), rest);
      case LetIn(lead, entries, close, body) =>
        k := |lead| + 3 + |AllEntries(entries)| + |close| + 2;
        SetOfShift(body, k);
        b, after := RootText(body, es, rest);
        a := lead + ("let" + (AllEntries(entries) + (close + "in")));
        LetText(lead, entries, close, body, rest);
        LetText(lead, entries, close, WithEntries(body, es), rest);
      case Paren(lead, body, close) =>
        SetOfShift(body, |lead| + 1);
        b, after := RootText(body, es, close + (")" + rest));
        a := lead + "(";
        Glue(lead, "(", PutRoot(body, close + (")" + rest)));
        Glue(lead, "(", PutRoot(WithEntries(body, es), close + (")" + rest)));
    }
    before := a + b;
    Glue(a, b, PutEntries(old_, after));
    Glue(a, b, PutEntries(es, after));
  }

  lemma LambdaText(lead: string, param: string, body: Root, rest: string)
    ensures PutRoot(Lambda(lead, param, body), rest) == (lead + (param + ":")) + PutRoot(body, rest)
  {
    var t := PutRoot(body, rest);
    Glue(param, ":", t);
    Glue(lead, param + ":", t);
  }

  lemma LetText(lead: string, entries: Entries, close: string, body: Root, rest: string)
    ensures PutRoot(LetIn(lead, entries, close, body), rest)
      == (lead + ("let" + (AllEntries(entries) + (close + "in")))) + PutRoot(body, rest)
  {
    hide PutEntries;
    var t := PutRoot(body, rest);
    PutEntriesSplit(entries, close + ("in" + t));
    Glue(close, "in", t);
    Glue(PutEntries(entries, ""), close + "in", t);
    Glue("let", PutEntries(entries, "") + (close + "in"), t);
    Glue(lead, "let" + (PutEntries(entries, "") + (close + "in")), t);
  }

  // ---------- the edited file is well formed ----------

  /** Scanning for a lambda pattern stops at a character that closes none. */
  predicate NoPattern(s: string) {
    var n := Run(s, IsParamChar);
    n < |s| && s[n] != '}'
  }

  lemma {:induction false} NoPatternAppend(a: string, rest: string)
    requires All(a, IsParamChar) && NoPattern(rest)
    ensures NoPattern(a + rest)
  {
    if a == "" {
      assert a + rest == rest;
    } else {
      assert (a + rest)[1..] == a[1..] + rest;
      NoPatternAppend(a[1..], rest);
    }
  }

  lemma NoPatternStop(c: char, rest: string)
    requires !IsParamChar(c) && c != '}'
    ensures NoPattern([c] + rest)
  {
  }

  lemma {:induction false} NoPatternTrivia(t: string, rest: string)
    requires IsTrivia(t) && NoPattern(rest)
    ensures NoPattern(t + rest)
    decreases |t|
  {
    if t == "" {
      assert t + rest == rest;
    } else if IsSpace(t[0]) {
      assert PieceLen(t) == 1;
      NoPatternTrivia(t[1..], rest);
      assert t + rest == [t[0]] + (t[1..] + rest);
      assert All([t[0]], IsParamChar);
      NoPatternAppend([t[0]], t[1..] + rest);
    } else if t[0] == '#' {
      assert t + rest == ['#'] + (t[1..] + rest);
      NoPatternStop('#', t[1..] + rest);
    } else {
      assert t + rest == ['/'] + (['*'] + (t[2..] + rest));
      NoPatternStop('*', t[2..] + rest);
      assert All(['/'], IsParamChar);
      NoPatternAppend(['/'], ['*'] + (t[2..] + rest));
    }
  }

  lemma {:induction false} IdentIsParam(s: string, p: char -> bool)
    requires forall c :: p(c) ==> IsParamChar(c)
    requires All(s, p)
    ensures All(s, IsParamChar)
  {
    if s == "" {
    } else {
      IdentIsParam(s[1..], p);
    }
  }

  lemma {:induction false} NoPatternPath(path: seq<Seg>, rest: string)
    requires WFPath(path) && NoPattern(rest)
    ensures NoPattern(PutPath(path, rest))
  {
    var t := if |path| == 1 then rest else "." + PutPath(path[1..], rest);
    if |path| > 1 {
      NoPatternPath(path[1..], rest);
      assert All(".", IsParamChar);
      NoPatternAppend(".", PutPath(path[1..], rest));
    }
    match path[0]
    case Ident(name) =>
      IdentIsParam(name, IsIdentChar);
      NoPatternAppend(name, t);
    case Quoted(parts) =>
      assert PutPath(path, rest) == ['"'] + PutParts(parts, t);
      NoPatternStop('"', PutParts(parts, t));
  }

  lemma NoPatternEntry(e: Entry, rest: string)
    requires WFEntry(e)
    ensures NoPattern(PutEntry(e, rest))
  {
    match e
    case Bind(lead, path, pre, post, value, semi) => NoPatternBind(e, rest);
    case Inherit(lead, body) =>
      InheritNoPattern(body, rest);
      NoPatternTrivia(lead, "inherit" + (body + (";" + rest)));
  }

  /** Whatever the value: the scan stops at the equals sign. */
  lemma NoPatternBind(e: Entry, rest: string)
    requires e.Bind? && IsTrivia(e.lead) && WFPath(e.path) && IsTrivia(e.pre)
    ensures NoPattern(PutEntry(e, rest))
  {
    var t := e.post + PutValue(e.value, e.semi + (";" + rest));
    NoPatternStop('=', t);
    NoPatternTrivia(e.pre, "=" + t);
    NoPatternPath(e.path, e.pre + ("=" + t));
    NoPatternTrivia(e.lead, PutPath(e.path, e.pre + ("=" + t)));
  }

  lemma {:induction false} BodyNoPattern(body: string, rest: string)
    requires All(body, IsInheritChar) && NoPattern(rest)
    ensures NoPattern(body + rest)
  {
    if body == "" {
      assert body + rest == rest;
    } else {
      var c, t := body[0], body[1..] + rest;
      BodyNoPattern(body[1..], rest);
      assert body + rest == [c] + t;
      if IsParamChar(c) {
        assert [c][1..] == "";
        assert All([c], IsParamChar);
        NoPatternAppend([c], t);
      } else {
        NoPatternStop(c, t);
      }
    }
  }

  lemma InheritNoPattern(body: string, rest: string)
    requires All(body, IsInheritChar)
    ensures NoPattern("inherit" + (body + (";" + rest)))
  {
    NoPatternStop(';', rest);
    BodyNoPattern(body, ";" + rest);
    assert All("inherit", IsParamChar);
    NoPatternAppend("inherit", body + (";" + rest));
  }

  /** A set with a binding in it does not look like a function's argument pattern. */
  lemma SetNotSpecial(v: Value, rest: string)
    requires v.Set? && WFValue(v) && v.entries.Cons?
    ensures NotSpecial(PutValue(v, rest))
  {
    var x := v.close + ("}" + rest);
    var body := PutEntries(v.entries, x);
    if v.recur == "" {
      NoPatternEntry(v.entries.entry, PutEntries(v.entries.tail, x));
      BraceNotSpecial(body);
    } else {
      RecStarts(v.recur, body);
      RecNotSpecial(PutValue(v, rest));
    }
  }

  lemma BraceNotSpecial(body: string)
    requires NoPattern(body)
    ensures NotSpecial("" + ("{" + body))
  {
    var t := "{" + body;
    assert "" + t == t && t[1..] == body;
    assert IdentLen(t) == 0 && ParamLen(t) == 0;
  }

  lemma RecNotSpecial(t: string)
    requires AtomLen(t) == 3 && t[..3] == "rec" && AtomEnds(t[3..])
    ensures NotSpecial(t)
  {
    assert t == "rec" + t[3..];
    IdentAppend("rec", t[3..]);
  }

  lemma {:induction false} SameStart(r: Root, es: Entries, rest: string)
    requires WFRoot(r, rest)
    ensures var s, t := PutRoot(r, rest), PutRoot(WithEntries(r, es), rest);
      s != "" && t != "" && s[0] == t[0]
  {
    match r
    case Bare(lead, v) => if lead == "" && !v.Set? { ValueStart(v, rest); }
    case _ =>
  }

  lemma SameStartAfterLet(entries: Entries, close: string, x: string, y: string)
    ensures StartsIdent(PutEntries(entries, close + ("in" + x))) == StartsIdent(PutEntries(entries, close + ("in" + y)))
  {
    PutEntriesSplit(entries, close + ("in" + x));
    PutEntriesSplit(entries, close + ("in" + y));
  }

  lemma {:induction false} EditedRootWF(r: Root, es: Entries, rest: string)
    requires WFRoot(r, rest) && WFEntries(es) && es.Cons?
    ensures WFRoot(WithEntries(r, es), rest)
  {
    match r
    case Bare(lead, v) =>
      if v.Set? { SetNotSpecial(v.(entries := es), rest); }
    case Lambda(lead, param, body) => EditedRootWF(body, es, rest);
    case LetIn(lead, entries, close, body) =>
      EditedRootWF(body, es, rest);
      SameStart(body, es, rest);
      SameStartAfterLet(entries, close, PutRoot(body, rest), PutRoot(WithEntries(body, es), rest));
    case Paren(lead, body, close) => EditedRootWF(body, es, close + (")" + rest));
  }

  lemma {:induction false} TopWF(r: Root, rest: string)
    requires WFRoot(r, rest) && SetOf(r, 0).Some?
    ensures WFValue(SetOf(r, 0).value.value) && WFEntries(SetOf(r, 0).value.value.entries)
  {
    match r
    case Bare(_, v) => assert WFValue(v);
    case Lambda(lead, param, body) =>
      SetOfShift(body, |lead| + |param| + 1);
      TopWF(body, rest);
    case LetIn(lead, entries, close, body) =>
      SetOfShift(body, |lead| + 3 + |AllEntries(entries)| + |close| + 2);
      TopWF(body, rest);
    case Paren(lead, body, close) =>
      SetOfShift(body, |lead| + 1);
      TopWF(body, close + (")" + rest));
  }

  // ---------- splicing ----------

  function Spaces(n: nat): string { seq(n, _ => ' ') }

  function LastNewline(s: string): Option<nat>
    ensures LastNewline(s).Some? ==> LastNewline(s).value < |s|
  {
    if s == "" then None
    else if s[|s| - 1] == '\n' then Some(|s| - 1)
    else LastNewline(s[..|s| - 1])
  }

  /** Indentation for a new entry: that of the last line before the insert point, or two
      spaces if there is none or it is blank. */
  function EntryIndent(body: string): string {
    match LastNewline(body)
    case None => "  "
    case Some(i) =>
      var line := body[i + 1..];
      var n := Run(line, IsWhitespace);
      if n < |line| then Spaces(n) else "  "
  }

  function Lead(source: string, ip: InsertPoint): string
    requires ip.target.Set? && ip.at <= InsertAt(ip) <= |source|
  {
    "\n" + EntryIndent(source[ip.at..InsertAt(ip)])
  }

  method SpliceSpan(source: string, n: Node, replacement: string) returns (candidate: string)
    requires n.start + |PrintValue(n.value)| <= |source|
    ensures candidate == source[..n.start] + (replacement + source[n.start + |PrintValue(n.value)|..])
  {
    var start, end := n.start, n.start + |PrintValue(n.value)|;
    candidate := "";
    candidate := candidate + source[..start];
    candidate := candidate + replacement;
    candidate := candidate + source[end..];
  }

  method SpliceEntry(source: string, ip: InsertPoint, replacement: string) returns (candidate: string)
    requires ip.target.Set? && ip.remaining != [] && ip.at <= InsertAt(ip) <= |source|
    ensures candidate == source[..InsertAt(ip)]
      + ((Lead(source, ip) + (Join(ip.remaining, ".") + (" = " + (replacement + ";")))) + source[InsertAt(ip)..])
  {
    var insertAt := InsertAt(ip);
    var indent := EntryIndent(source[ip.at..insertAt]);
    var dotted := Join(ip.remaining, ".");
    var addition := "\n" + indent + dotted + " = " + replacement + ";";
    assert addition == Lead(source, ip) + (dotted + (" = " + (replacement + ";")));
    candidate := "";
    candidate := candidate + source[..insertAt];
    candidate := candidate + addition;
    candidate := candidate + source[insertAt..];
  }

  lemma {:induction false} SpacesAreTrivia(n: nat)
    ensures IsTrivia(Spaces(n)) && IsTrivia("\n" + Spaces(n))
  {
    if n == 0 {
    } else {
      SpacesAreTrivia(n - 1);
      assert Spaces(n)[1..] == Spaces(n - 1);
    }
    assert ("\n" + Spaces(n))[1..] == Spaces(n);
  }

  lemma LeadIsTrivia(body: string)
    ensures IsTrivia("\n" + EntryIndent(body))
  {
    SpacesAreTrivia(2);
    assert "  " == Spaces(2);
    match LastNewline(body)
    case None =>
    case Some(i) => SpacesAreTrivia(Run(body[i + 1..], IsWhitespace));
  }

  // ---------- byte splices are tree edits ----------

  lemma CutAt(before: string, middle: string, after: string)
    ensures var s := before + (middle + after);
      && s[..|before|] == before
      && s[|before| + |middle|..] == after
      && s[|before|..|before| + |middle|] == middle
      && |before| + |middle| <= |s|
  {
    var s := before + (middle + after);
    assert s[|before| + |middle|..] == (middle + after)[|middle|..];
    assert s[|before|..|before| + |middle|] == (middle + after)[..|middle|];
  }

  /** Splicing text over the node found for a path prints the tree with that value replaced;
      what lies before and after the node is untouched. */
  lemma SpliceIsReplace(f: File, path: Path, v: Value)
    requires FindFile(f, path).Some?
    ensures var n, s := FindFile(f, path).value, Print(f);
      var end := n.start + |PrintValue(n.value)|;
      && end <= |s|
      && s[n.start..end] == PrintValue(n.value)
      && Print(WithTop(f, ReplaceIn(Top(f).value, path, v))) == s[..n.start] + (PrintValue(v) + s[end..])
      && FindFile(WithTop(f, ReplaceIn(Top(f).value, path, v)), path) == Some(Node(v, n.start))
  {
    hide PutRoot, PutEntries, PutValue, ReplaceIn, FindIn, SetOf, WithEntries;
    var m := SetOf(f.root, 0).value;
    var n := FindFile(f, path).value;
    var es := m.value.entries;
    var es' := ReplaceIn(es, path, v);
    FindReplaced(es, Inside(m.value, m.start), path, v);
    SetOfEdited(f.root, es');
    var b, a := RootText(f.root, es', f.tail);
    var c, d := ReplaceText(es, Inside(m.value, m.start), path, v, a);
    Glue(b, c, PutValue(n.value, d));
    Glue(b, c, PutValue(v, d));
    PutValueSplit(n.value, d);
    PutValueSplit(v, d);
    CutAt(b + c, PrintValue(n.value), d);
  }

  /** Splicing an entry at the insert point prints the tree with one binding added. */
  lemma SpliceIsInsert(f: File, path: Path, v: Value)
    requires PointFile(f, path).Some? && path != []
    ensures var ip, s := PointFile(f, path).value, Print(f);
      && ip.at <= InsertAt(ip) <= |s| && ip.remaining == Remaining(Top(f).value, path)
      && Print(WithTop(f, InsertIn(Top(f).value, path, Lead(s, ip), v)))
         == s[..InsertAt(ip)]
          + ((Lead(s, ip) + (Join(ip.remaining, ".") + (" = " + (PrintValue(v) + ";")))) + s[InsertAt(ip)..])
  {
    var m := SetOf(f.root, 0).value;
    StoppedIsNone(m.value, m.start, path);
    var ip := PointFile(f, path).value;
    PointInBounds(f, path);
    var lead := Lead(Print(f), ip);
    var es' := InsertIn(m.value.entries, path, lead, v);
    var b, a := RootText(f.root, es', f.tail);
    var c, d := InsertText(m.value, m.start, path, lead, v, a);
    hide PutRoot, PutEntries, PutEntry, PutValue, InsertIn, Descend, SetOf, EntryIndent, Lead;
    var x := lead + (Join(ip.remaining, ".") + (" = " + (PrintValue(v) + ";")));
    NewEntryText(lead, ip.remaining, v, d);
    Glue(b, c, d);
    Glue(b, c, x + d);
    CutAt(b + c, "", d);
    assert "" + d == d;
  }

  lemma PointInBounds(f: File, path: Path)
    requires PointFile(f, path).Some? && path != []
    ensures InsertAt(PointFile(f, path).value) <= |Print(f)|
  {
    var m := SetOf(f.root, 0).value;
    var b, a := RootText(f.root, m.value.entries, f.tail);
    var c, d := InsertText(m.value, m.start, path, "", Atom(""), a);
  }

  // ---------- the operations, on texts ----------

  /** A value found at a path: what it means, its span and its raw text. */
  datatype Located = Located(value: NixValue, start: nat, end: nat, raw: string)

  function FindText(source: string, path: Path): Option<Located> {
    match ParseFile(source)
    case None => None
    case Some(f) =>
      match FindFile(f, path)
      case None => None
      case Some(n) =>
        var raw := PrintValue(n.value);
        Some(Located(Interpret(n.value), n.start, n.start + |raw|, raw))
  }

  function KeysText(source: string, path: Path): Option<seq<string>> {
    match ParseFile(source)
    case None => None
    case Some(f) =>
      match Top(f)
      case None => None
      case Some(es) => Keys(es, path)
  }

  /** `Panicked`: the insert target is a `rec` set, on which the splice's assertion fails. */
  datatype SetResult = Done | NotFound | InvalidValue | Panicked

  predicate IsLiteralSet(v: Value) { PrintValue(v) != "" && PrintValue(v)[0] == '{' }

  function Candidate(source: string, f: File, path: Path, replacement: string): (c: (SetResult, string))
    requires ParseFile(source) == Some(f) && path != []
  {
    PrintParse(source);
    match FindFile(f, path)
    case Some(n) =>
      SpliceIsReplace(f, path, n.value);
      (Done, source[..n.start] + (replacement + source[n.start + |PrintValue(n.value)|..]))
    case None =>
      match PointFile(f, path)
      case None => (NotFound, source)
      case Some(ip) =>
        if !IsLiteralSet(ip.target) then (Panicked, source)
        else
          SpliceIsInsert(f, path, Atom(""));
          (Done, source[..InsertAt(ip)]
            + ((Lead(source, ip) + (Join(ip.remaining, ".") + (" = " + (replacement + ";")))) + source[InsertAt(ip)..]))
  }

  /** The outcome of setting `path` to the raw text `replacement`, and the resulting text. */
  function SetText(source: string, path: Path, replacement: string): (SetResult, string)
    requires path != []
  {
    match ParseFile(source)
    case None => (InvalidValue, source)
    case Some(f) =>
      var (r, candidate) := Candidate(source, f, path, replacement);
      if r != Done then (r, source)
      else if ParseFile(candidate).None? then (InvalidValue, source)
      else (Done, candidate)
  }

  /** The file as an object: it owns only its text. */
  class ConfigFile {
    var source: string

    ghost predicate Valid() reads this { ParseFile(source).Some? }

    constructor (source: string)
      requires ParseFile(source).Some?
      ensures Valid() && this.source == source
    {
      this.source := source;
    }

    static method Parse(source: string) returns (file: ConfigFile?)
      ensures file == null <==> ParseFile(source).None?
      ensures file != null ==> fresh(file) && file.Valid() && file.source == source
    {
      if ParseFile(source).None? { return null; }
      file := new ConfigFile(source);
    }

    method FindAttrpath(path: Path) returns (r: Option<Located>)
      requires Valid()
      ensures r == FindText(source, path)
      ensures r.Some? ==> r.value.start <= r.value.end <= |source| && source[r.value.start..r.value.end] == r.value.raw
      ensures path == [] ==> r == None
    {
      if path == [] {
        EmptyPath(source);
        return None;
      }
      hide ParseFile, PutValue, SetOf, FindFile, Interpret;
      var f := ParseFile(source).value;
      var n := FindFile(f, path);
      if n.None? { return None; }
      NodeText(source, f, path);
      var start, end := n.value.start, n.value.start + |PrintValue(n.value.value)|;
      r := Some(Located(Interpret(n.value.value), start, end, source[start..end]));
    }

    method AttrsetKeys(path: Path) returns (r: Option<seq<string>>)
      requires Valid()
      ensures r == KeysText(source, path)
    {
      var top := Top(ParseFile(source).value);
      if top.None? { return None; }
      var keys, found := CollectChildKeys(top.value, path, []);
      assert keys == ChildKeys(top.value, path);
      r := if found then Some(SortDedup(keys)) else None;
    }

    method SetAttrpath(path: Path, replacement: string) returns (r: SetResult)
      requires Valid() && path != []
      modifies this
      ensures Valid() && (r, source) == SetText(old(source), path, replacement)
      ensures r != Done ==> source == old(source)
    {
      hide ParseFile, PutValue, ReplaceIn, InsertIn, SetOf, FindFile, PointFile, InsertAt, Join, Lead, WithTop, Print;
      PrintParse(source);
      var f := ParseFile(source).value;
      var found := FindFile(f, path);
      var candidate;
      if found.Some? {
        SpliceIsReplace(f, path, found.value.value);
        candidate := SpliceSpan(source, found.value, replacement);
      } else {
        var point := PointFile(f, path);
        if point.None? { return NotFound; }
        if !IsLiteralSet(point.value.target) { return Panicked; }
        SpliceIsInsert(f, path, Atom(""));
        candidate := SpliceEntry(source, point.value, replacement);
      }
      if ParseFile(candidate).None? { return InvalidValue; }
      source := candidate;
      r := Done;
    }
  }

  /** The span of a found node holds the node's text. */
  lemma NodeText(source: string, f: File, path: Path)
    requires ParseFile(source) == Some(f) && FindFile(f, path).Some?
    ensures var n := FindFile(f, path).value;
      var end := n.start + |PrintValue(n.value)|;
      end <= |source| && source[n.start..end] == PrintValue(n.value)
  {
    hide ParseFile, PutValue, SetOf, FindFile, ReplaceIn, WithTop;
    PrintParse(source);
    SpliceIsReplace(f, path, FindFile(f, path).value.value);
  }

  lemma {:induction false} NothingAtEmpty(es: Entries, at: nat)
    ensures FindIn(es, at, []).None?
    decreases es
  {
    if es.Cons? { NothingAtEmpty(es.tail, at + EntryLen(es.entry)); }
  }

  lemma EmptyPath(source: string)
    ensures FindText(source, []).None?
  {
    if ParseFile(source).Some? && SetOf(ParseFile(source).value.root, 0).Some? {
      var n := SetOf(ParseFile(source).value.root, 0).value;
      NothingAtEmpty(n.value.entries, Inside(n.value, n.start));
    }
  }
}
