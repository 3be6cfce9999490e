/** A text that is read as no value makes a file unparsable wherever it is spliced in, and so
    does a dotted text that is read as no attribute path.  The tree with that text as an atom or
    as a name is well formed but for this place; the parser takes it apart so far and fails. */
module NixReject {
  import opened EditorLaws
  import opened NixBind
  import opened NixConfigFile
  import opened NixEdit
  import opened NixParser
  import opened NixSyntax
  import opened NixValues
  import opened Options
  import opened Strings

  /** Starts like a string or a list, and is read as none whatever follows. */
  ghost predicate Unreadable(x: string) {
    x != "" && (x[0] == '"' || x[0] == '[') && forall rest :: ParseValue(x + rest).None?
  }

  /** What joined segments must not hold if nothing but a name is to be made of them: quotes,
      white space, and what ends a name, a binding, a set or the text before a comment. */
  predicate IsPlainChar(c: char) {
    !IsWhitespace(c) && c != '"' && c != '=' && c != '#' && c != '/' && c != '$' && c != ';' && c != '}'
  }

  predicate Plain(s: string) { All(s, IsPlainChar) }

  /** A binding's text from its name on. */
  function NameThen(name: string, rest: string): string { name + (" " + ("=" + rest)) }

  /** Holds nothing but a name, and is read as none whatever follows the equals sign. */
  ghost predicate Unnameable(x: string) {
    x != "" && Plain(x) && forall lead, rest :: ParseEntry(lead, NameThen(x, rest)).None?
  }

  // ---------- trees that are well formed but for one place ----------

  ghost predicate BrokenValue(v: Value, x: string)
    decreases v
  {
    (v == Atom(x) && Unreadable(x)) || (v.Set? && WFRecur(v.recur) && BrokenEntries(v.entries, x))
  }

  ghost predicate BrokenEntry(e: Entry, x: string)
    decreases e
  {
    BrokenName(e, x) ||
    (e.Bind? && IsTrivia(e.lead) && WFPath(e.path) && IsTrivia(e.pre) && IsTrivia(e.post) && BrokenValue(e.value, x))
  }

  ghost predicate BrokenName(e: Entry, x: string) {
    e.Bind? && IsTrivia(e.lead) && e.path == [Ident(x)] && e.pre == " " && Unnameable(x)
  }

  /** Well formed up to and except for the broken entry; what comes after it does not matter. */
  ghost predicate BrokenEntries(es: Entries, x: string)
    decreases es
  {
    match es
    case NoEntry => false
    case Cons(e, tail) => BrokenEntry(e, x) || (WFEntry(e) && BrokenEntries(tail, x))
  }

  ghost predicate BrokenRoot(r: Root, rest: string, x: string) {
    match r
    case Bare(lead, v) => IsTrivia(lead) && v.Set? && BrokenValue(v, x)
    case Lambda(lead, param, body) => IsTrivia(lead) && WFParam(param) && BrokenRoot(body, rest, x)
    case LetIn(lead, entries, close, body) =>
      IsTrivia(lead) && WFEntries(entries) && IsTrivia(close) &&
      !StartsIdent(PutEntries(entries, close + ("in" + PutRoot(body, rest)))) &&
      !StartsIdent(PutRoot(body, rest)) && BrokenRoot(body, rest, x)
    case Paren(lead, body, close) => IsTrivia(lead) && BrokenRoot(body, close + (")" + rest), x)
  }

  // ---------- their texts do not parse ----------

  lemma BrokenStart(v: Value, x: string, rest: string)
    requires BrokenValue(v, x)
    ensures PutValue(v, rest) != "" && PieceLen(PutValue(v, rest)) == 0 && PutValue(v, rest)[0] != '('
  {
    if v == Atom(x) {
      assert (x + rest)[0] == x[0];
    } else {
      var body := PutEntries(v.entries, v.close + ("}" + rest));
      if v.recur == "" {
        assert PutValue(v, rest) == "{" + body;
      } else {
        assert (v.recur + ("{" + body))[0] == v.recur[..3][0];
      }
    }
  }

  lemma {:induction false} BrokenValueFails(v: Value, x: string, rest: string)
    requires BrokenValue(v, x)
    ensures ParseValue(PutValue(v, rest)).None?
    decreases v
  {
    hide PutEntries, ParseEntries;
    if v == Atom(x) {
      assert PutValue(v, rest) == x + rest;
    } else {
      var body := PutEntries(v.entries, v.close + ("}" + rest));
      BraceComplete(v.recur, body);
      BrokenEntriesFail(v.entries, x, v.close + ("}" + rest));
    }
  }

  lemma {:induction false} BrokenEntriesFail(es: Entries, x: string, rest: string)
    requires BrokenEntries(es, x)
    ensures ParseEntries(PutEntries(es, rest), false).None?
    decreases es
  {
    hide ParseEntry, PutEntry, TriviaLen, WFEntry, BrokenEntry, Unreadable, AtEnd;
    var e, tail := es.entry, es.tail;
    if BrokenEntry(e, x) {
      BrokenEntryFails(e, x, PutEntries(tail, rest));
    } else {
      ParseEntryComplete(e, PutEntries(tail, rest));
      BrokenEntriesFail(tail, x, rest);
    }
  }

  lemma {:induction false} BrokenEntryFails(e: Entry, x: string, rest: string)
    requires BrokenEntry(e, x)
    ensures var s, k := PutEntry(e, rest), |e.lead|;
      TriviaLen(s) == k && s[..k] == e.lead && !AtEnd(s[k..], false) && ParseEntry(e.lead, s[k..]).None?
    decreases e, 1
  {
    hide TriviaLen, PieceLen, IsTrivia, ParsePath, ParseBinding, PutPath, PutValue, WFPath, BrokenValue, Unreadable,
      BrokenName, AtEnd;
    if BrokenName(e, x) {
      BrokenNameFails(e, x, rest);
    } else {
      var w := PutValue(e.value, e.semi + (";" + rest));
      var t := e.post + w;
      var u := e.pre + ("=" + t);
      BrokenStart(e.value, x, e.semi + (";" + rest));
      BrokenValueFails(e.value, x, e.semi + (";" + rest));
      TriviaAppend(e.post, w);
      TriviaThen(e.pre, '=', t);
      StartsEntry(e.path, u);
      ParsePathComplete(e.path, u);
      BindingFails(e, u, t, w);
      TriviaAppend(e.lead, PutPath(e.path, u));
    }
  }

  lemma StartsEntry(path: seq<Seg>, rest: string)
    requires WFPath(path) && AtomEnds(rest)
    ensures var s := PutPath(path, rest);
      PieceLen(s) == 0 && s != "" && !AtEnd(s, false) && s[..IdentLen(s)] != "inherit"
  {
    hide PieceLen, PutPath, IdentLen;
    PathStart(path, rest);
  }

  lemma BrokenNameFails(e: Entry, x: string, rest: string)
    requires BrokenName(e, x)
    ensures var s, k := PutEntry(e, rest), |e.lead|;
      TriviaLen(s) == k && s[..k] == e.lead && !AtEnd(s[k..], false) && ParseEntry(e.lead, s[k..]).None?
  {
    hide TriviaLen, IsTrivia, ParseEntry, PutValue;
    var t := NameThen(x, e.post + PutValue(e.value, e.semi + (";" + rest)));
    assert t[0] == x[0] && IsPlainChar(x[0]);
    TriviaAppend(e.lead, t);
    assert PutEntry(e, rest) == e.lead + t;
  }

  lemma BindingFails(e: Entry, s: string, t: string, w: string)
    requires e.Bind?
    requires TriviaLen(s) == |e.pre| < |s| && s[|e.pre|] == '=' && s[|e.pre| + 1..] == t
    requires TriviaLen(t) == |e.post| && t[|e.post|..] == w && ParseValue(w).None?
    ensures ParseBinding(e.lead, e.path, s).None?
  {
    hide TriviaLen, ParseValue;
  }

  lemma {:induction false} BrokenRootFails(r: Root, rest: string, x: string)
    requires BrokenRoot(r, rest, x)
    ensures ParseRoot(PutRoot(r, rest)).None?
  {
    hide TriviaLen, PieceLen, IsTrivia, Unreadable;
    match r
    case Bare(lead, v) => BrokenBareFails(lead, v, rest, x);
    case Lambda(lead, param, body) =>
      BrokenRootFails(body, rest, x);
      LambdaFails(lead, param, PutRoot(body, rest));
    case LetIn(lead, entries, close, body) =>
      BrokenRootFails(body, rest, x);
      LetInFails(lead, entries, close, PutRoot(body, rest));
    case Paren(lead, body, close) =>
      BrokenRootFails(body, close + (")" + rest), x);
      ParenFails(lead, PutRoot(body, close + (")" + rest)));
  }

  lemma LambdaFails(lead: string, param: string, x: string)
    requires IsTrivia(lead) && WFParam(param) && ParseRoot(x).None?
    ensures ParseRoot(lead + (param + (":" + x))).None?
  {
    hide TriviaLen, PieceLen, IsTrivia;
    var t := param + (":" + x);
    IsLambdaText(param, x);
    TriviaAppend(lead, t);
    assert ParseLambda(lead, t).None?;
    assert ParseRoot(lead + t) == ParseHead(lead, t);
  }

  lemma LetInFails(lead: string, entries: Entries, close: string, x: string)
    requires IsTrivia(lead) && WFEntries(entries) && IsTrivia(close) && ParseRoot(x).None?
    requires !StartsIdent(PutEntries(entries, close + ("in" + x))) && !StartsIdent(x)
    ensures ParseRoot(lead + ("let" + PutEntries(entries, close + ("in" + x)))).None?
  {
    hide TriviaLen, PieceLen, IsTrivia;
    var y := PutEntries(entries, close + ("in" + x));
    KeywordText("in", x);
    KeywordText("let", y);
    ParseEntriesComplete(entries, close, "in" + x, true);
    TriviaAppend(lead, "let" + y);
    assert ParseLetIn(lead, "let" + y).None?;
    assert ParseRoot(lead + ("let" + y)) == ParseHead(lead, "let" + y);
  }

  lemma ParenFails(lead: string, x: string)
    requires IsTrivia(lead) && ParseRoot(x).None?
    ensures ParseRoot(lead + ("(" + x)).None?
  {
    hide TriviaLen, IsTrivia, ParseRoot;
    ParenAt(lead, "(" + x);
    assert ("(" + x)[1..] == x;
  }

  lemma BrokenBareFails(lead: string, v: Value, rest: string, x: string)
    requires IsTrivia(lead) && v.Set? && BrokenValue(v, x)
    ensures ParseRoot(lead + PutValue(v, rest)).None?
  {
    hide TriviaLen, PieceLen, IsTrivia, Unreadable, ParseValue, PutValue;
    BrokenStart(v, x, rest);
    BrokenNotSpecial(v, x, rest);
    BrokenValueFails(v, x, rest);
    TriviaAppend(lead, PutValue(v, rest));
    assert ParseRoot(lead + PutValue(v, rest)) == ParseHead(lead, PutValue(v, rest));
  }

  lemma BrokenNotSpecial(v: Value, x: string, rest: string)
    requires v.Set? && BrokenValue(v, x)
    ensures NotSpecial(PutValue(v, rest))
  {
    hide Unreadable;
    var body := PutEntries(v.entries, v.close + ("}" + rest));
    if v.recur == "" {
      var e := v.entries.entry;
      if BrokenName(e, x) {
        NoPatternName(e, x, PutEntries(v.entries.tail, v.close + ("}" + rest)));
      } else if BrokenEntry(e, x) {
        NoPatternBind(e, PutEntries(v.entries.tail, v.close + ("}" + rest)));
      } else {
        NoPatternEntry(e, PutEntries(v.entries.tail, v.close + ("}" + rest)));
      }
      BraceNotSpecial(body);
    } else {
      RecStarts(v.recur, body);
      RecNotSpecial(PutValue(v, rest));
    }
  }

  lemma {:induction false} PlainNoPattern(x: string, rest: string)
    requires Plain(x) && NoPattern(rest)
    ensures NoPattern(x + rest)
  {
    if x == "" {
      assert x + rest == rest;
    } else {
      var c, t := x[0], x[1..] + rest;
      PlainNoPattern(x[1..], rest);
      assert x + rest == [c] + t;
      if IsParamChar(c) {
        assert [c][1..] == "";
        assert All([c], IsParamChar);
        NoPatternAppend([c], t);
      } else {
        NoPatternStop(c, t);
      }
    }
  }

  lemma NoPatternName(e: Entry, x: string, rest: string)
    requires BrokenName(e, x)
    ensures NoPattern(PutEntry(e, rest))
  {
    hide IsTrivia, PutValue, Unnameable;
    var t := e.post + PutValue(e.value, e.semi + (";" + rest));
    NoPatternStop('=', t);
    SpaceIsTrivia();
    NoPatternTrivia(" ", "=" + t);
    PlainIfUnnameable(x);
    PlainNoPattern(x, " " + ("=" + t));
    NoPatternTrivia(e.lead, NameThen(x, t));
    assert PutEntry(e, rest) == e.lead + NameThen(x, t);
  }

  lemma PlainIfUnnameable(x: string)
    requires Unnameable(x)
    ensures x != "" && Plain(x)
  {
  }

  // ---------- splicing breaks the tree ----------

  lemma {:induction false} ReplaceBreaks(es: Entries, path: Path, x: string)
    requires WFEntries(es) && Get(es, path).Some? && Unreadable(x)
    ensures BrokenEntries(ReplaceIn(es, path, Atom(x)), x)
    decreases es
  {
    hide WFPath, IsTrivia, Unreadable;
    var e, tail := es.entry, es.tail;
    GetUnfold(e, tail, path);
    assert WFEntry(e);
    if Leads(e, path) && Rest(e, path) == [] {
      assert BrokenValue(Atom(x), x);
      assert BrokenEntry(e.(value := Atom(x)), x);
    } else if FoundInside(e, path) {
      assert WFValue(e.value);
      ReplaceBreaks(e.value.entries, Rest(e, path), x);
      assert BrokenEntry(WithInner(e, ReplaceIn(e.value.entries, Rest(e, path), Atom(x))), x);
    } else {
      ReplaceBreaks(tail, path, x);
    }
  }

  lemma {:induction false} BindBreaks(es: Entries, path: Path, names: Path, lead: string, v: Value, x: string)
    requires WFEntries(es) && !Stopped(es, path)
    requires BrokenEntry(NewEntry(lead, names, v), x)
    ensures BrokenEntries(BindIn(es, path, names, lead, v), x)
    decreases es
  {
    hide BrokenName, IsTrivia, WFPath;
    match es
    case NoEntry =>
    case Cons(e, tail) =>
      assert WFEntry(e);
      match Meet(e, path) {
        case Pass => BindBreaks(tail, path, names, lead, v, x);
        case Enter =>
          assert WFValue(e.value);
          BindBreaks(e.value.entries, Rest(e, path), names, lead, v, x);
          assert BrokenEntry(WithInner(e, BindIn(e.value.entries, Rest(e, path), names, lead, v)), x);
      }
  }

  lemma {:induction false} RootBreaks(r: Root, es: Entries, rest: string, x: string)
    requires WFRoot(r, rest) && SetOf(r, 0).Some? && BrokenEntries(es, x)
    ensures BrokenRoot(WithEntries(r, es), rest, x)
  {
    match r
    case Bare(lead, v) => assert WFValue(v);
    case Lambda(lead, param, body) =>
      SetOfShift(body, |lead| + |param| + 1);
      RootBreaks(body, es, rest, x);
    case LetIn(lead, entries, close, body) =>
      SetOfShift(body, |lead| + 3 + |AllEntries(entries)| + |close| + 2);
      RootBreaks(body, es, rest, x);
      SameStart(body, es, rest);
      SameStartAfterLet(entries, close, PutRoot(body, rest), PutRoot(WithEntries(body, es), rest));
    case Paren(lead, body, close) =>
      SetOfShift(body, |lead| + 1);
      RootBreaks(body, es, close + (")" + rest), x);
  }

  // ---------- insertions under the names that their text spells ----------

  /** The names that the text of a new binding for the path spells: the pieces of the rest of
      the path, joined by dots. */
  function Spelled(source: string, path: Path): Path {
    if ToWrite(source, path) == [] then [] else Pieces(Join(ToWrite(source, path), "."))
  }

  lemma {:induction false} SameRootText(r: Root, a: Entries, b: Entries, rest: string)
    requires forall t :: PutEntries(a, t) == PutEntries(b, t)
    ensures PutRoot(WithEntries(r, a), rest) == PutRoot(WithEntries(r, b), rest)
  {
    match r
    case Bare(lead, v) =>
      if v.Set? {
        SetBefore(v.(entries := a), rest);
        SetBefore(v.(entries := b), rest);
      }
    case Lambda(lead, param, body) => SameRootText(body, a, b, rest);
    case LetIn(lead, entries, close, body) => SameRootText(body, a, b, rest);
    case Paren(lead, body, close) => SameRootText(body, a, b, close + (")" + rest));
  }

  /** Is a new binding for the path put somewhere, in this file with bindings at its top? */
  predicate HasPlace(source: string, f: File, path: Path) {
    ParseFile(source) == Some(f) && Top(f).Some? && path != [] &&
    Get(Top(f).value, path).None? && !Stopped(Top(f).value, path)
  }

  function LeadAt(source: string, f: File, path: Path): string
    requires HasPlace(source, f, path)
  {
    PrintParse(source);
    PointIsNotStopped(f, path);
    SpliceIsInsert(f, path, Atom(""));
    Lead(source, PointFile(f, path).value)
  }

  /** The text of an insertion is that of the binding under any names that are joined alike. */
  lemma EditedText(source: string, f: File, path: Path, names: Path, v: Value)
    requires HasPlace(source, f, path) && names != [] && Join(names, ".") == Join(ToWrite(source, path), ".")
    ensures IsTrivia(LeadAt(source, f, path))
    ensures Print(Edited(source, f, path, v))
      == Print(WithTop(f, BindIn(Top(f).value, path, names, LeadAt(source, f, path), v)))
  {
    hide PutEntries, PutRoot, WithEntries, Join, Stopped, Get, InsertIn, BindIn, IsTrivia, ParseFile, EntryIndent;
    var es, lead := Top(f).value, LeadAt(source, f, path);
    PrintParse(source);
    PointIsNotStopped(f, path);
    SpliceIsInsert(f, path, v);
    var ip := PointFile(f, path).value;
    LeadIsTrivia(source[ip.at..InsertAt(ip)]);
    assert lead == "\n" + EntryIndent(source[ip.at..InsertAt(ip)]);
    InsertIsBind(es, path, lead, v);
    forall t ensures PutEntries(InsertIn(es, path, lead, v), t) == PutEntries(BindIn(es, path, names, lead, v), t) {
      SameText(es, path, Remaining(es, path), names, lead, v, t);
    }
    SameRootText(f.root, InsertIn(es, path, lead, v), BindIn(es, path, names, lead, v), f.tail);
  }

  /** Binding something broken in the tree gives a text that does not parse. */
  lemma BrokenBindFails(source: string, f: File, path: Path, names: Path, v: Value, x: string)
    requires HasPlace(source, f, path) && names != [] && Join(names, ".") == Join(ToWrite(source, path), ".")
    requires forall lead :: IsTrivia(lead) ==> BrokenEntry(NewEntry(lead, names, v), x)
    ensures ParseFile(Print(Edited(source, f, path, v))).None?
  {
    hide Unreadable, ParseRoot, PutRoot, BrokenRoot, BrokenEntries, BrokenEntry, Join, LeadAt, BindIn, Edited, ToWrite,
      Stopped, Get, NewEntry;
    PrintParse(source);
    EditedText(source, f, path, names, v);
    var es' := BindIn(Top(f).value, path, names, LeadAt(source, f, path), v);
    TopWF(f.root, f.tail);
    BindBreaks(Top(f).value, path, names, LeadAt(source, f, path), v, x);
    RootBreaks(f.root, es', f.tail, x);
    BrokenRootFails(WithEntries(f.root, es'), f.tail, x);
  }

  lemma BrokenReplaceFails(source: string, f: File, path: Path, x: string)
    requires ParseFile(source) == Some(f) && Top(f).Some? && path != [] && Get(Top(f).value, path).Some?
    requires Unreadable(x)
    ensures ParseFile(Print(Edited(source, f, path, Atom(x)))).None?
  {
    hide Unreadable, ParseRoot, PutRoot, BrokenRoot, BrokenEntries;
    PrintParse(source);
    TopWF(f.root, f.tail);
    var es' := ReplaceIn(Top(f).value, path, Atom(x));
    ReplaceBreaks(Top(f).value, path, x);
    RootBreaks(f.root, es', f.tail, x);
    BrokenRootFails(WithEntries(f.root, es'), f.tail, x);
  }

  /** An edit is accepted only if its candidate, the text of the edited tree, parses. */
  lemma AcceptedParses(source: string, path: Path, x: string)
    requires path != [] && SetText(source, path, x).0 == Done
    ensures ParseFile(source).Some? && Top(ParseFile(source).value).Some?
    ensures var f := ParseFile(source).value;
      (Get(Top(f).value, path).Some? || HasPlace(source, f, path)) &&
      ParseFile(Print(Edited(source, f, path, Atom(x)))).Some? &&
      SetText(source, path, x).1 == Print(Edited(source, f, path, Atom(x)))
  {
    var f := ParseFile(source).value;
    hide ParseFile, Edited;
    assert PrintValue(Atom(x)) == x;
    FoundIsGet(f, path);
    CandidateText(source, f, path, Atom(x));
  }

  /** A text that is read as no value is never accepted. */
  lemma UnreadableIsRejected(source: string, path: Path, x: string)
    requires path != [] && AllIdents(Spelled(source, path)) && Unreadable(x)
    ensures SetText(source, path, x).0 != Done
  {
    if SetText(source, path, x).0 == Done {
      AcceptedParses(source, path, x);
      var f := ParseFile(source).value;
      hide ParseFile, Unreadable, Edited, SetText, Pieces;
      if Get(Top(f).value, path).Some? {
        BrokenReplaceFails(source, f, path, x);
      } else {
        var names := Spelled(source, path);
        RestIsThere(source, f, path);
        JoinPieces(Join(ToWrite(source, path), "."));
        forall lead | IsTrivia(lead) ensures BrokenEntry(NewEntry(lead, names, Atom(x)), x) {
          SpaceIsTrivia();
          assert WFPath(Segs(names));
        }
        BrokenBindFails(source, f, path, names, Atom(x), x);
      }
    }
  }

  lemma RestIsThere(source: string, f: File, path: Path)
    requires HasPlace(source, f, path)
    ensures ToWrite(source, path) == Remaining(Top(f).value, path) != []
  {
    PointIsNotStopped(f, path);
    var n := SetOf(f.root, 0).value;
    StoppedIsNone(n.value, n.start, path);
  }

  /** Nor is anything accepted for a path whose rest is read as no name. */
  lemma UnnameableIsRejected(source: string, path: Path, x: string)
    requires path != [] && Unnameable(Join(ToWrite(source, path), "."))
    ensures SetText(source, path, x).0 != Done
  {
    if SetText(source, path, x).0 == Done {
      AcceptedParses(source, path, x);
      var f := ParseFile(source).value;
      hide ParseFile, Unnameable, Edited, SetText;
      var name := Join(ToWrite(source, path), ".");
      assert name != "" by { PlainIfUnnameable(name); }
      assert Get(Top(f).value, path).None?;
      BrokenBindFails(source, f, path, [name], Atom(x), name);
    }
  }

  // ---------- written values ----------

  lemma UnreadIsUnreadable(v: NixValue)
    requires !v.Other? && NodeRead(v).None?
    ensures Unreadable(ToSource(v))
  {
    hide ReadParts, ReadItems, Quote, ParseValue;
    forall rest ensures ParseValue(ToSource(v) + rest).None? {
      WrittenIsReadAs(v, rest);
    }
    WrittenStart(v);
  }

  lemma WrittenStart(v: NixValue)
    requires v.Text? || v.TextList?
    ensures ToSource(v) != "" && (ToSource(v)[0] == '"' || ToSource(v)[0] == '[')
  {
  }

  /** Identifiers are spelled as they are. */
  lemma IdentsAreSpelled(source: string, path: Path)
    requires AllIdents(ToWrite(source, path))
    ensures Spelled(source, path) == ToWrite(source, path)
  {
    hide ToWrite, Pieces;
    if ToWrite(source, path) != [] { PiecesOfJoin(ToWrite(source, path)); }
  }

  /** Whatever its strings hold: if a written value was set at all, it is read as one value. */
  lemma AcceptedIsRead(source: string, path: Path, v: NixValue)
    requires path != [] && AllIdents(Spelled(source, path)) && !v.Other?
    requires SetText(source, path, ToSource(v)).0 == Done
    ensures NodeRead(v).Some? && WFValue(NodeRead(v).value) && PrintValue(NodeRead(v).value) == ToSource(v)
  {
    hide SetText, Spelled, ToSource, NodeRead, Unreadable;
    if NodeRead(v).None? {
      UnreadIsUnreadable(v);
      UnreadableIsRejected(source, path, ToSource(v));
    } else {
      ReadAsExactly(v);
    }
  }

  /** Where only identifiers are written it was set as that value. */
  lemma WrittenIsSetAsRead(source: string, path: Path, v: NixValue, after: string)
    requires path != [] && AllIdents(ToWrite(source, path)) && !v.Other?
    requires SetText(source, path, ToSource(v)) == (Done, after)
    ensures NodeRead(v).Some? && SetTo(source, path, NodeRead(v).value, after)
  {
    hide SetText, ToWrite, ToSource, NodeRead, Unreadable, Spelled;
    IdentsAreSpelled(source, path);
    AcceptedIsRead(source, path, v);
  }
}
