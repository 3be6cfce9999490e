/** The laws of `set_attrpath`, on texts: which outcome it has, what is read afterwards at
    the path that was set and at all others, and that it can be repeated and undone. */
module EditorLaws {
  import opened Options
  import opened NixSyntax
  import opened NixParser
  import opened NixValues
  import opened NixEdit
  import opened NixTable
  import opened NixLaws
  import opened NixConfigFile
  import opened Strings

  /** The value node that a text is read to have at a path. */
  function ValueAt(source: string, path: Path): Option<Value> {
    match ParseFile(source)
    case None => None
    case Some(f) =>
      match Top(f)
      case None => None
      case Some(es) => Get(es, path)
  }

  /** The part of the path that an insertion would have to write; empty if the path is bound. */
  function ToWrite(source: string, path: Path): Path {
    match ParseFile(source)
    case None => []
    case Some(f) =>
      match Top(f)
      case None => []
      case Some(es) => if Get(es, path).Some? then [] else Remaining(es, path)
  }

  lemma FoundIsGet(f: File, path: Path)
    ensures FindFile(f, path).Some? <==> Top(f).Some? && Get(Top(f).value, path).Some?
    ensures FindFile(f, path).Some? ==> Get(Top(f).value, path) == Some(FindFile(f, path).value.value)
  {
    if Top(f).Some? {
      var n := SetOf(f.root, 0).value;
      FindShift(n.value.entries, Inside(n.value, n.start), path);
    }
  }

  lemma PointIsNotStopped(f: File, path: Path)
    requires Top(f).Some?
    ensures PointFile(f, path).Some? <==> !Stopped(Top(f).value, path)
  {
    var n := SetOf(f.root, 0).value;
    StoppedIsNone(n.value, n.start, path);
  }

  /** `find_attrpath` reads the node, in its own words and verbatim. */
  lemma FindTextIsValueAt(source: string, path: Path)
    ensures FindText(source, path).Some? <==> ValueAt(source, path).Some?
    ensures FindText(source, path).Some? ==>
      var l, v := FindText(source, path).value, ValueAt(source, path).value;
      l.raw == PrintValue(v) && l.value == Interpret(v)
  {
    if ParseFile(source).Some? { FoundIsGet(ParseFile(source).value, path); }
  }

  /** The tree after setting `path` to the value `v`. */
  function Edited(source: string, f: File, path: Path, v: Value): File
    requires ParseFile(source) == Some(f) && Top(f).Some? && path != []
    requires Get(Top(f).value, path).Some? || !Stopped(Top(f).value, path)
  {
    var es := Top(f).value;
    if Get(es, path).Some? then WithTop(f, ReplaceIn(es, path, v))
    else
      PrintParse(source);
      PointIsNotStopped(f, path);
      SpliceIsInsert(f, path, v);
      WithTop(f, InsertIn(es, path, Lead(source, PointFile(f, path).value), v))
  }

  lemma EditedWF(source: string, f: File, path: Path, v: Value)
    requires ParseFile(source) == Some(f) && Top(f).Some? && path != [] && WFValue(v)
    requires Get(Top(f).value, path).Some? || !Stopped(Top(f).value, path)
    requires AllIdents(ToWrite(source, path))
    ensures ParseFile(Print(Edited(source, f, path, v))) == Some(Edited(source, f, path, v))
  {
    PrintParse(source);
    var es := Top(f).value;
    TopWF(f.root, f.tail);
    var es';
    if Get(es, path).Some? {
      es' := ReplaceIn(es, path, v);
      ReplaceWF(es, path, v);
    } else {
      PointIsNotStopped(f, path);
      SpliceIsInsert(f, path, v);
      var ip := PointFile(f, path).value;
      LeadIsTrivia(source[ip.at..InsertAt(ip)]);
      es' := InsertIn(es, path, Lead(source, ip), v);
      InsertWF(es, path, Lead(source, ip), v);
    }
    EditedRootWF(f.root, es', f.tail);
    ParsePrint(WithTop(f, es'));
  }

  /** Must the walk for the path stop before it finds a place? */
  predicate Refused(f: File, path: Path) {
    Top(f).None? || (Get(Top(f).value, path).None? && Stopped(Top(f).value, path))
  }

  /** Is the path unbound, and the set that a binding for it would go into a `rec` set? */
  predicate NeedsRec(f: File, path: Path) {
    FindFile(f, path).None? && PointFile(f, path).Some? && !IsLiteralSet(PointFile(f, path).value.target)
  }

  /** Setting a path to the text of one value is never invalid when the segments it has to
      write are identifiers: it is refused exactly when the walk is stopped, it panics exactly
      when the path is unbound and its target is a `rec` set, and otherwise the new text is
      that of the edited tree. */
  lemma SetOutcome(source: string, f: File, path: Path, v: Value)
    requires ParseFile(source) == Some(f) && path != [] && WFValue(v)
    requires AllIdents(ToWrite(source, path))
    ensures var (r, after) := SetText(source, path, PrintValue(v));
      && (r == NotFound <==> Refused(f, path))
      && (r == Panicked <==> NeedsRec(f, path))
      && r != InvalidValue
      && (r == Done ==> after == Print(Edited(source, f, path, v)) &&
                        ParseFile(after) == Some(Edited(source, f, path, v)))
      && (r != Done ==> after == source)
  {
    FoundIsGet(f, path);
    if Top(f).Some? {
      PointIsNotStopped(f, path);
      hide ParseFile, PutValue, Stopped, FindFile, Get, SetOf, PointFile;
      CandidateIsEdited(source, f, path, v);
      if Get(Top(f).value, path).Some? || !Stopped(Top(f).value, path) {
        EditedWF(source, f, path, v);
      }
    }
  }

  function RecFile(): File { File(Bare("", Set("rec", NoEntry, "")), "") }

  lemma RecFileText()
    ensures PutValue(RecFile().root.value, "") == "rec{}" && NotSpecial("rec{}") && WFRecur("rec")
  {
    hide NotSpecial;
    EmptyTrivia();
    RecStarts("rec", "}");
    assert "rec" + ("{" + "}") == "rec{}";
    RecNotSpecial("rec{}");
  }

  lemma RecFilePrints()
    ensures Print(RecFile()) == "rec{}"
  {
    RecFileText();
    hide PutValue;
    assert Print(RecFile()) == "" + PutValue(RecFile().root.value, "");
  }

  lemma RecFileIsWF()
    ensures WFFile(RecFile())
  {
    RecFileText();
    EmptyTrivia();
    hide NotSpecial, WFRecur, IsTrivia, PutValue;
    assert WFValue(RecFile().root.value);
  }

  lemma RecFileParses()
    ensures ParseFile("rec{}") == Some(RecFile())
  {
    hide *;
    RecFilePrints();
    RecFileIsWF();
    ParsePrint(RecFile());
  }

  /** For example: binding `a` in `rec{}` fails the assertion. */
  lemma RecCanHappen(replacement: string)
    ensures ParseFile("rec{}").Some? && NeedsRec(ParseFile("rec{}").value, ["a"])
    ensures SetText("rec{}", ["a"], replacement) == (Panicked, "rec{}")
  {
    hide ParseFile, IsLiteralSet;
    RecFileParses();
    var target := RecFile().root.value;
    assert PointFile(RecFile(), ["a"]) == Some(InsertPoint(target, 0, ["a"]));
    RecIsNotLiteral(target);
  }

  lemma RecIsNotLiteral(v: Value)
    requires v.Set? && v.recur == "rec"
    ensures !IsLiteralSet(v)
  {
    SetBefore(v, "");
  }

  lemma CandidateIsEdited(source: string, f: File, path: Path, v: Value)
    requires ParseFile(source) == Some(f) && path != [] && Top(f).Some?
    ensures var (r, c) := Candidate(source, f, path, PrintValue(v));
      && (r == NotFound <==> Refused(f, path))
      && (r == Panicked <==> NeedsRec(f, path))
      && r != InvalidValue
      && (r == Done ==> c == Print(Edited(source, f, path, v)))
  {
    FoundIsGet(f, path);
    PointIsNotStopped(f, path);
    if Candidate(source, f, path, PrintValue(v)).0 == Done {
      CandidateText(source, f, path, v);
    }
    hide ParseFile, Stopped, FindFile, Get, PointFile, InsertAt, Lead, PrintValue, Print, Edited, Top, IsLiteralSet;
  }

  lemma CandidateText(source: string, f: File, path: Path, v: Value)
    requires ParseFile(source) == Some(f) && path != [] && Top(f).Some?
    requires Candidate(source, f, path, PrintValue(v)).0 == Done
    ensures Get(Top(f).value, path).Some? || !Stopped(Top(f).value, path)
    ensures Candidate(source, f, path, PrintValue(v)).1 == Print(Edited(source, f, path, v))
  {
    FoundIsGet(f, path);
    PointIsNotStopped(f, path);
    hide ParseFile, PutValue, Stopped, FindFile, Get, SetOf, PointFile, InsertAt, Lead, InsertIn, ReplaceIn, WithTop,
      Print, PrintValue, Top, IsLiteralSet;
    PrintParse(source);
    if FindFile(f, path).Some? {
      SpliceIsReplace(f, path, v);
    } else {
      SpliceIsInsert(f, path, v);
    }
  }

  /** The table of the file after a successful edit, as an edit of the top-level bindings. */
  lemma EditedTop(source: string, f: File, path: Path, v: Value) returns (lead: string)
    requires ParseFile(source) == Some(f) && Top(f).Some? && path != []
    requires Get(Top(f).value, path).Some? || !Stopped(Top(f).value, path)
    ensures var es := Top(f).value;
      Top(Edited(source, f, path, v)) ==
        Some(if Get(es, path).Some? then ReplaceIn(es, path, v) else InsertIn(es, path, lead, v))
  {
    var es := Top(f).value;
    lead := "";
    if Get(es, path).Some? {
      TopEdited(f, ReplaceIn(es, path, v));
    } else {
      PrintParse(source);
      PointIsNotStopped(f, path);
      SpliceIsInsert(f, path, v);
      lead := Lead(source, PointFile(f, path).value);
      TopEdited(f, InsertIn(es, path, lead, v));
    }
  }

  ghost predicate SetTo(source: string, path: Path, v: Value, after: string) {
    path != [] && WFValue(v) && AllIdents(ToWrite(source, path)) &&
    SetText(source, path, PrintValue(v)) == (Done, after)
  }

  lemma SetParses(source: string, path: Path, v: Value, after: string)
    requires SetTo(source, path, v, after)
    ensures ParseFile(source).Some? && Top(ParseFile(source).value).Some?
    ensures var f := ParseFile(source).value;
      (Get(Top(f).value, path).Some? || !Stopped(Top(f).value, path)) &&
      ParseFile(after) == Some(Edited(source, f, path, v))
  {
    SetOutcome(source, ParseFile(source).value, path, v);
  }

  /** Get after set: the path is read as exactly the value that was set. */
  lemma GetAfterSet(source: string, path: Path, v: Value, after: string)
    requires SetTo(source, path, v, after)
    ensures ValueAt(after, path) == Some(v)
    ensures FindText(after, path).Some? && FindText(after, path).value.raw == PrintValue(v) &&
      FindText(after, path).value.value == Interpret(v)
  {
    hide ParseFile, SetText, Edited;
    SetParses(source, path, v, after);
    var f := ParseFile(source).value;
    var es := Top(f).value;
    var lead := EditedTop(source, f, path, v);
    if Get(es, path).Some? {
      GetReplaced(es, path, v);
    } else {
      GetInserted(es, path, lead, v);
    }
    FindTextIsValueAt(after, path);
  }

  /** Frame: every path that is neither a prefix nor an extension of the one that was set is
      read as before. */
  lemma OthersAfterSet(source: string, path: Path, v: Value, after: string, q: Path)
    requires SetTo(source, path, v, after) && !Comparable(path, q)
    ensures ValueAt(after, q) == ValueAt(source, q)
  {
    hide ParseFile, SetText, Edited;
    SetParses(source, path, v, after);
    var f := ParseFile(source).value;
    var es := Top(f).value;
    var lead := EditedTop(source, f, path, v);
    if Get(es, path).Some? {
      GetReplacedElsewhere(es, path, v, q);
    } else {
      GetInsertedElsewhere(es, path, lead, v, q);
    }
  }

  /** Setting the same value again changes nothing. */
  lemma SetAgain(source: string, path: Path, v: Value, after: string)
    requires SetTo(source, path, v, after)
    ensures SetText(after, path, PrintValue(v)) == (Done, after)
  {
    hide SetText, Candidate;
    SetParses(source, path, v, after);
    GetAfterSet(source, path, v, after);
    SpliceSame(after, path);
  }

  /** Splicing a value's own text over it changes nothing. */
  lemma SpliceSame(source: string, path: Path)
    requires path != [] && ValueAt(source, path).Some?
    ensures SetText(source, path, PrintValue(ValueAt(source, path).value)) == (Done, source)
  {
    hide PutValue, Get, PointFile;
    var f := ParseFile(source).value;
    FoundIsGet(f, path);
    hide SetText, FindFile;
    NodeText(source, f, path);
    var n := FindFile(f, path).value;
    SetParts(source, path, PrintValue(n.value), f, n);
    PasteBack(source, n.start, PrintValue(n.value));
  }

  /** The text with `len` characters from `at` on replaced. */
  function Spliced(source: string, at: nat, len: nat, replacement: string): string
    requires at + len <= |source|
  {
    source[..at] + (replacement + source[at + len..])
  }

  lemma PasteBack(source: string, at: nat, raw: string)
    requires at + |raw| <= |source| && source[at..at + |raw|] == raw
    ensures Spliced(source, at, |raw|, raw) == source
  {
    assert source[at..] == raw + source[at + |raw|..];
  }

  /** After a replacement, setting the old raw text back restores the file byte for byte. */
  lemma Undo(source: string, path: Path, v: Value, after: string)
    requires SetTo(source, path, v, after) && FindText(source, path).Some?
    ensures SetText(after, path, FindText(source, path).value.raw) == (Done, source)
  {
    FoundInText(source, path);
    hide ParseFile, SetText, FindText, PutValue, ReplaceIn, Get, Edited, FindFile, Spliced, Stopped, Refused,
      WFValue, AllIdents, ToWrite;
    var f := ParseFile(source).value;
    SetParses(source, path, v, after);
    var n := FindFile(f, path).value;
    var f' := Edited(source, f, path, v);
    ReplacedNode(source, f, path, v);
    SetParts(source, path, PrintValue(v), f, n);
    NodeText(source, f, path);
    SpliceBack(source, n.start, PrintValue(n.value), PrintValue(v), after);
    SetParts(after, path, PrintValue(n.value), f', Node(v, n.start));
  }

  lemma FoundInText(source: string, path: Path)
    requires FindText(source, path).Some?
    ensures ParseFile(source).Some? && FindFile(ParseFile(source).value, path).Some?
    ensures FindText(source, path).value.raw == PrintValue(FindFile(ParseFile(source).value, path).value.value)
  {
  }

  lemma ReplacedNode(source: string, f: File, path: Path, v: Value)
    requires ParseFile(source) == Some(f) && Top(f).Some? && path != [] && FindFile(f, path).Some?
    requires Get(Top(f).value, path).Some? || !Stopped(Top(f).value, path)
    ensures FindFile(Edited(source, f, path, v), path) == Some(Node(v, FindFile(f, path).value.start))
  {
    FoundIsGet(f, path);
    SpliceIsReplace(f, path, v);
  }

  lemma SetParts(source: string, path: Path, r: string, f: File, n: Node)
    requires ParseFile(source) == Some(f) && FindFile(f, path) == Some(n) && path != []
    ensures n.start + |PrintValue(n.value)| <= |source|
    ensures var c := Spliced(source, n.start, |PrintValue(n.value)|, r);
      SetText(source, path, r) == if ParseFile(c).None? then (InvalidValue, source) else (Done, c)
  {
    hide ParseFile, PutValue, FindFile, PointFile, InsertAt, Lead, Join;
    NodeText(source, f, path);
  }

  lemma SpliceBack(source: string, at: nat, x: string, y: string, after: string)
    requires at + |x| <= |source| && source[at..at + |x|] == x
    requires after == Spliced(source, at, |x|, y)
    ensures at + |y| <= |after| && Spliced(after, at, |y|, x) == source
  {
    CutAt(source[..at], y, source[at + |x|..]);
    assert source == source[..at] + (source[at..at + |x|] + source[at + |x|..]);
  }

  // ---------- lists of edits ----------

  datatype Edit = Edit(path: Path, value: Value)

  /** The texts that a list of edits goes through, each edit applied to the result of the last. */
  ghost predicate Applied(texts: seq<string>, edits: seq<Edit>) {
    |texts| == |edits| + 1 &&
    forall i :: 0 <= i < |edits| ==> SetTo(texts[i], edits[i].path, edits[i].value, texts[i + 1])
  }

  predicate PairwiseApart(edits: seq<Edit>) {
    forall i, j :: 0 <= i < j < |edits| ==> !Comparable(edits[i].path, edits[j].path)
  }

  /** Paths that no edit touches are read as before the first edit. */
  lemma {:induction false} UntouchedAfterAll(texts: seq<string>, edits: seq<Edit>, q: Path)
    requires Applied(texts, edits)
    requires forall i :: 0 <= i < |edits| ==> !Comparable(edits[i].path, q)
    ensures ValueAt(texts[|edits|], q) == ValueAt(texts[0], q)
    decreases |edits|
  {
    if edits == [] {
    } else {
      var n := |edits| - 1;
      UntouchedAfterAll(texts[..n + 1], edits[..n], q);
      OthersAfterSet(texts[n], edits[n].path, edits[n].value, texts[n + 1], q);
    }
  }

  /** A list of pairwise incomparable edits takes full effect: each of its paths is finally
      read as the value it was set to. */
  lemma {:induction false} AllTakeEffect(texts: seq<string>, edits: seq<Edit>, i: nat)
    requires Applied(texts, edits) && PairwiseApart(edits) && i < |edits|
    ensures ValueAt(texts[|edits|], edits[i].path) == Some(edits[i].value)
    decreases |edits|
  {
    var n := |edits| - 1;
    var e := edits[n];
    if i == n {
      GetAfterSet(texts[n], e.path, e.value, texts[n + 1]);
    } else {
      AllTakeEffect(texts[..n + 1], edits[..n], i);
      OthersAfterSet(texts[n], e.path, e.value, texts[n + 1], edits[i].path);
    }
  }

  // ---------- in any order ----------

  /** Can the path be set to the value? */
  ghost predicate Settable(source: string, path: Path, v: Value) {
    path != [] && WFValue(v) && AllIdents(ToWrite(source, path)) && SetText(source, path, PrintValue(v)).0 == Done
  }

  /** Is the set that a binding for the path would go into a plain one? */
  predicate PlainHome(f: File, path: Path)
    requires Top(f).Some?
  {
    var top := SetOf(f.root, 0).value.value;
    var recur := HomeRecur(top.entries, top.recur, path);
    recur == "" || recur[0] == '{'
  }

  lemma NeedsRecIsHome(f: File, path: Path)
    requires Top(f).Some?
    ensures NeedsRec(f, path) <==>
      Get(Top(f).value, path).None? && !Stopped(Top(f).value, path) && !PlainHome(f, path)
  {
    FoundIsGet(f, path);
    PointIsNotStopped(f, path);
    var n := SetOf(f.root, 0).value;
    StoppedIsNone(n.value, n.start, path);
    if PointFile(f, path).Some? {
      LiteralIsPlain(PointFile(f, path).value.target);
    }
  }

  lemma LiteralIsPlain(v: Value)
    requires v.Set?
    ensures IsLiteralSet(v) <==> v.recur == "" || v.recur[0] == '{'
  {
    SetBefore(v, "");
    if v.recur != "" {
      assert PrintValue(v)[0] == v.recur[0];
    }
  }

  /** What it takes to be settable, on the tree. */
  lemma SettableOnTree(source: string, path: Path, v: Value)
    requires path != [] && WFValue(v) && AllIdents(ToWrite(source, path))
    ensures Settable(source, path, v) <==>
      ParseFile(source).Some? && Top(ParseFile(source).value).Some? &&
      var f := ParseFile(source).value;
      Get(Top(f).value, path).Some? || (!Stopped(Top(f).value, path) && PlainHome(f, path))
  {
    if ParseFile(source).Some? {
      var f := ParseFile(source).value;
      SetOutcome(source, f, path, v);
      if Top(f).Some? {
        NeedsRecIsHome(f, path);
      }
    }
  }

  /** A set at one path neither enables nor prevents a set at a path apart from it, and leaves
      what that one would have to write as it is. */
  lemma SettableElsewhere(source: string, path: Path, v: Value, after: string, q: Path, w: Value)
    requires SetTo(source, path, v, after) && !Comparable(path, q)
    ensures ToWrite(after, q) == ToWrite(source, q)
    ensures Settable(after, q, w) <==> Settable(source, q, w)
  {
    WalkAfterSet(source, path, v, after, q);
    OthersAfterSet(source, path, v, after, q);
    hide ParseFile, SetText, SetOf, Get, Stopped, Remaining, HomeRecur;
    if q != [] && WFValue(w) && AllIdents(ToWrite(source, q)) {
      SettableOnTree(source, q, w);
      SettableOnTree(after, q, w);
    }
  }

  lemma WalkAfterSet(source: string, path: Path, v: Value, after: string, q: Path)
    requires SetTo(source, path, v, after) && !Comparable(path, q)
    ensures ParseFile(source).Some? && Top(ParseFile(source).value).Some?
    ensures ParseFile(after).Some? && Top(ParseFile(after).value).Some?
    ensures var f, g := ParseFile(source).value, ParseFile(after).value;
      && Stopped(Top(g).value, q) == Stopped(Top(f).value, q)
      && Remaining(Top(g).value, q) == Remaining(Top(f).value, q)
      && PlainHome(g, q) == PlainHome(f, q)
  {
    hide ParseFile, SetText;
    SetParses(source, path, v, after);
    var f := ParseFile(source).value;
    var es := Top(f).value;
    var lead := EditedTop(source, f, path, v);
    if Get(es, path).Some? {
      WalkAfterReplace(es, path, v, q);
      SetOfEdited(f.root, ReplaceIn(es, path, v));
    } else {
      WalkAfterInsert(es, path, lead, v, q);
      PrintParse(source);
      PointIsNotStopped(f, path);
      SpliceIsInsert(f, path, v);
      SetOfEdited(f.root, InsertIn(es, path, Lead(source, PointFile(f, path).value), v));
      WalkAfterInsert(es, path, Lead(source, PointFile(f, path).value), v, q);
    }
  }

  ghost predicate AllSettable(source: string, edits: seq<Edit>) {
    forall i :: 0 <= i < |edits| ==> Settable(source, edits[i].path, edits[i].value)
  }

  /** The texts that a list of edits goes through, as far as their paths are not empty. */
  ghost function TextsOf(source: string, edits: seq<Edit>): seq<string>
    decreases |edits|
  {
    if edits == [] || edits[0].path == [] then [source]
    else [source] + TextsOf(AfterEdit(source, edits[0]), edits[1..])
  }

  ghost function AfterEdit(source: string, e: Edit): string
    requires e.path != []
  {
    SetText(source, e.path, PrintValue(e.value)).1
  }

  /** If pairwise incomparable edits were applied, each of them could have come first. */
  lemma {:induction false} AppliedAreSettable(texts: seq<string>, edits: seq<Edit>)
    requires Applied(texts, edits) && PairwiseApart(edits)
    ensures AllSettable(texts[0], edits)
    decreases |edits|
  {
    hide SetText, ParseFile, ToWrite;
    if edits == [] {
    } else {
      var e := edits[0];
      AppliedAreSettable(texts[1..], edits[1..]);
      forall i | 0 <= i < |edits| ensures Settable(texts[0], edits[i].path, edits[i].value) {
        if i > 0 {
          assert edits[1..][i - 1] == edits[i];
          SettableElsewhere(texts[0], e.path, e.value, texts[1], edits[i].path, edits[i].value);
        }
      }
    }
  }

  /** If each of pairwise incomparable edits can be set, they can be applied one after the
      other. */
  lemma {:induction false} SettableAreApplied(source: string, edits: seq<Edit>)
    requires AllSettable(source, edits) && PairwiseApart(edits)
    ensures Applied(TextsOf(source, edits), edits) && TextsOf(source, edits)[0] == source
    decreases |edits|
  {
    hide SetText, ParseFile, ToWrite;
    if edits == [] {
    } else {
      var e, rest := edits[0], edits[1..];
      assert Settable(source, e.path, e.value);
      var mid := AfterEdit(source, e);
      assert SetTo(source, e.path, e.value, mid);
      forall i | 0 <= i < |rest| ensures Settable(mid, rest[i].path, rest[i].value) {
        assert rest[i] == edits[i + 1];
        SettableElsewhere(source, e.path, e.value, mid, rest[i].path, rest[i].value);
      }
      SettableAreApplied(mid, rest);
      var texts := TextsOf(source, edits);
      forall i | 0 <= i < |edits| ensures SetTo(texts[i], edits[i].path, edits[i].value, texts[i + 1]) {
        if i > 0 { assert edits[i] == rest[i - 1] && texts[i] == TextsOf(mid, rest)[i - 1]; }
      }
    }
  }

  /** A list of pairwise incomparable edits can be applied exactly if each of them could be
      applied alone. */
  lemma AppliesExactly(source: string, edits: seq<Edit>)
    requires PairwiseApart(edits)
    ensures (exists texts :: Applied(texts, edits) && texts[0] == source) <==> AllSettable(source, edits)
  {
    if AllSettable(source, edits) { SettableAreApplied(source, edits); }
    if texts :| Applied(texts, edits) && texts[0] == source { AppliedAreSettable(texts, edits); }
  }

  lemma PermutedIsApart(edits: seq<Edit>, edits': seq<Edit>)
    requires PairwiseApart(edits) && multiset(edits') == multiset(edits)
    ensures PairwiseApart(edits')
  {
    forall i, j | 0 <= i < j < |edits'| ensures !Comparable(edits'[i].path, edits'[j].path) {
      assert edits'[i] in multiset(edits) && edits'[j] in multiset(edits);
      var a :| 0 <= a < |edits| && edits[a] == edits'[i];
      var b :| 0 <= b < |edits| && edits[b] == edits'[j];
      if a == b { OnlyOnce(edits, a, edits', i, j); }
    }
  }

  lemma OnlyOnce(edits: seq<Edit>, a: nat, edits': seq<Edit>, i: nat, j: nat)
    requires PairwiseApart(edits) && a < |edits| && i < j < |edits'|
    requires edits'[i] == edits[a] && edits'[j] == edits[a]
    ensures multiset(edits') != multiset(edits)
  {
    forall k | 0 <= k < |edits| && k != a ensures edits[k] != edits[a] {
      assert if k < a then !Comparable(edits[k].path, edits[a].path) else !Comparable(edits[a].path, edits[k].path);
    }
    CountOnce(edits, a);
    CountTwice(edits', i, j);
  }

  lemma CountOnce<T>(s: seq<T>, a: nat)
    requires a < |s| && forall k :: 0 <= k < |s| && k != a ==> s[k] != s[a]
    ensures multiset(s)[s[a]] == 1
  {
    assert s == s[..a] + ([s[a]] + s[a + 1..]);
    assert s[a] !in s[..a] && s[a] !in s[a + 1..];
  }

  lemma CountTwice<T>(s: seq<T>, i: nat, j: nat)
    requires i < j < |s| && s[i] == s[j]
    ensures multiset(s)[s[j]] >= 2
  {
    assert s == s[..j] + ([s[j]] + s[j + 1..]);
    assert s[..j][i] == s[j];
  }

  /** … in any order: if pairwise incomparable edits can be applied in one order, they can be
      applied in every other, each takes full effect there, and every path that is one of
      theirs or comparable with none of them is read alike at the end. */
  lemma AnyOrder(texts: seq<string>, edits: seq<Edit>, edits': seq<Edit>, q: Path)
    requires Applied(texts, edits) && PairwiseApart(edits) && multiset(edits') == multiset(edits)
    requires (exists i :: 0 <= i < |edits| && edits[i].path == q) ||
             (forall i :: 0 <= i < |edits| ==> !Comparable(edits[i].path, q))
    ensures var texts' := TextsOf(texts[0], edits');
      Applied(texts', edits') && ValueAt(texts'[|edits'|], q) == ValueAt(texts[|edits|], q)
  {
    hide SetTo, Settable;
    PermutedIsApart(edits, edits');
    AppliedAreSettable(texts, edits);
    AllSettablePermuted(texts[0], edits, edits');
    SettableAreApplied(texts[0], edits');
    ReadAlike(texts, edits, TextsOf(texts[0], edits'), edits', q);
  }

  lemma AllSettablePermuted(source: string, edits: seq<Edit>, edits': seq<Edit>)
    requires AllSettable(source, edits) && multiset(edits') == multiset(edits)
    ensures AllSettable(source, edits')
  {
    hide SetText, ToWrite, WFValue;
    forall i | 0 <= i < |edits'|
      ensures Settable(source, edits'[i].path, edits'[i].value)
    {
      assert edits'[i] in multiset(edits);
      var a :| 0 <= a < |edits| && edits[a] == edits'[i];
    }
  }

  lemma ReadAlike(texts: seq<string>, edits: seq<Edit>, texts': seq<string>, edits': seq<Edit>, q: Path)
    requires Applied(texts, edits) && PairwiseApart(edits)
    requires Applied(texts', edits') && PairwiseApart(edits')
    requires texts[0] == texts'[0] && multiset(edits') == multiset(edits)
    requires (exists i :: 0 <= i < |edits| && edits[i].path == q) ||
             (forall i :: 0 <= i < |edits| ==> !Comparable(edits[i].path, q))
    ensures ValueAt(texts[|edits|], q) == ValueAt(texts'[|edits'|], q)
  {
    hide SetTo, ValueAt;
    if i :| 0 <= i < |edits| && edits[i].path == q {
      assert edits[i] in multiset(edits');
      var j :| 0 <= j < |edits'| && edits'[j] == edits[i];
      AllTakeEffect(texts, edits, i);
      AllTakeEffect(texts', edits', j);
    } else {
      UntouchedAfterAll(texts, edits, q);
      forall j | 0 <= j < |edits'|
        ensures !Comparable(edits'[j].path, q)
      {
        assert edits'[j] in multiset(edits);
      }
      UntouchedAfterAll(texts', edits', q);
    }
  }

  // ---------- conflicts and keys, on texts ----------

  /** In a file without conflicts a binding below a set that is there spells out at most what
      comes below it. */
  lemma OnlyTheRestIsWritten(source: string, p: Path, q: Path)
    requires ConflictFreeText(source) && ValueAt(source, p).Some? && ValueAt(source, p).value.Set?
    requires q != [] && AllIdents(q)
    ensures AllIdents(ToWrite(source, p + q))
  {
    var es := Top(ParseFile(source).value).value;
    WalkThroughSet(es, p, q);
    RemainingIdents(Get(es, p).value.entries, q);
  }

  lemma {:induction false} RemainingIdents(es: Entries, path: Path)
    requires AllIdents(path)
    ensures AllIdents(Remaining(es, path))
    decreases es
  {
    match es
    case NoEntry =>
    case Cons(e, tail) =>
      match Meet(e, path)
      case Pass => RemainingIdents(tail, path);
      case Block =>
      case Enter => RemainingIdents(e.value.entries, Rest(e, path));
  }

  lemma IdentsCanBeWritten(source: string, path: Path)
    requires AllIdents(path)
    ensures AllIdents(ToWrite(source, path))
  {
    if ParseFile(source).Some? && Top(ParseFile(source).value).Some? {
      RemainingIdents(Top(ParseFile(source).value).value, path);
    }
  }

  ghost predicate ConflictFreeText(source: string) {
    ParseFile(source).Some? && Top(ParseFile(source).value).Some? && ConflictFree(Top(ParseFile(source).value).value)
  }

  /** A successful edit never creates a conflict. */
  lemma SetKeepsConflictFree(source: string, path: Path, v: Value, after: string)
    requires SetTo(source, path, v, after) && ConflictFreeText(source)
    requires v.Set? ==> ConflictFree(v.entries)
    ensures ConflictFreeText(after)
  {
    hide ParseFile, SetText, Edited;
    SetParses(source, path, v, after);
    var f := ParseFile(source).value;
    var es := Top(f).value;
    var lead := EditedTop(source, f, path, v);
    if Get(es, path).Some? {
      ReplaceKeepsConflictFree(es, path, v);
    } else {
      InsertKeepsConflictFree(es, path, lead, v);
    }
  }

  /** The bindings of the file that the walk for a path gets to see. */
  function SeenIn(source: string, path: Path): Table {
    match ParseFile(source)
    case None => []
    case Some(f) => if Top(f).None? then [] else Seen(Top(f).value, path)
  }

  predicate IsSetFile(source: string) { ParseFile(source).Some? && Top(ParseFile(source).value).Some? }

  /** Whatever the replacement text: `NotFound` is returned exactly when the file parses and
      has no set at its top, or when the path is not bound and, among the bindings that the
      walk sees, a proper prefix of it is bound to something that is no set, or it is itself a
      proper prefix of a bound path. */
  lemma NotFoundExactly(source: string, path: Path, replacement: string)
    requires path != []
    ensures SetText(source, path, replacement).0 == NotFound <==>
      ParseFile(source).Some? &&
      (!IsSetFile(source) || (ValueAt(source, path).None? && Obstructed(SeenIn(source, path), path)))
  {
    NotFoundIsRefused(source, path, replacement);
    hide SetText, ParseFile;
    if IsSetFile(source) && ValueAt(source, path).None? {
      RefusedExactly(Top(ParseFile(source).value).value, path);
    }
  }

  lemma NotFoundIsRefused(source: string, path: Path, replacement: string)
    requires path != []
    ensures SetText(source, path, replacement).0 == NotFound <==>
      ParseFile(source).Some? && Refused(ParseFile(source).value, path)
    ensures SetText(source, path, replacement).0 == Panicked <==>
      ParseFile(source).Some? && NeedsRec(ParseFile(source).value, path)
  {
    if ParseFile(source).Some? {
      var f := ParseFile(source).value;
      FoundIsGet(f, path);
      if Top(f).Some? { PointIsNotStopped(f, path); }
      hide ParseFile, Stopped, FindFile, Get, InsertAt, Lead, PrintValue, Print, IsLiteralSet, Join, SetOf, Descend;
    }
  }

  /** Whatever the replacement text: the assertion on the insert target fails exactly when the
      path is not bound, nothing stops the walk, and it ends in a `rec` set. */
  lemma PanicsExactly(source: string, path: Path, replacement: string)
    requires path != []
    ensures SetText(source, path, replacement).0 == Panicked <==>
      IsSetFile(source) && ValueAt(source, path).None? &&
      var f := ParseFile(source).value; !Stopped(Top(f).value, path) && !PlainHome(f, path)
  {
    NotFoundIsRefused(source, path, replacement);
    hide SetText, ParseFile, Stopped, Get, SetOf;
    if ParseFile(source).Some? {
      var f := ParseFile(source).value;
      if Top(f).Some? { NeedsRecIsHome(f, path); } else { NoTopNoPoint(f, path); }
    }
  }

  lemma NoTopNoPoint(f: File, path: Path)
    requires Top(f).None?
    ensures !NeedsRec(f, path)
  {
  }

  /** Of all bindings in the way of an unbound path those that are overlooked are let through:
      if none is, the path is refused exactly when it is obstructed. */
  lemma ObstructedIsRefused(source: string, path: Path, replacement: string)
    requires path != [] && IsSetFile(source) && ValueAt(source, path).None?
    ensures var es := Top(ParseFile(source).value).value;
      Obstructed(Flatten(es), path) <==>
        SetText(source, path, replacement).0 == NotFound || Overlooked(es, path)
    ensures ConflictFreeText(source) ==> !Overlooked(Top(ParseFile(source).value).value, path)
  {
    NotFoundIsRefused(source, path, replacement);
    var es := Top(ParseFile(source).value).value;
    ObstructedExactly(es, path);
    if ConflictFree(es) { NothingIsOverlooked(es, path); }
  }

  ghost function KeySetAt(source: string, q: Path): set<string> {
    if KeysText(source, q).Some? then (set k | k in KeysText(source, q).value) else {}
  }

  lemma KeySetIsKeySet(source: string, q: Path)
    requires ParseFile(source).Some? && Top(ParseFile(source).value).Some?
    ensures KeySetAt(source, q) == KeySet(Top(ParseFile(source).value).value, q)
  {
    SortDedupProperties(ChildKeys(Top(ParseFile(source).value).value, q));
  }

  /** The names below a path that the edited path is not part of stay the same; below a
      proper prefix of it they gain at most its next segment. */
  lemma KeysAfterSet(source: string, path: Path, v: Value, after: string, q: Path)
    requires SetTo(source, path, v, after) && (!Comparable(path, q) || q < path)
    ensures KeySetAt(after, q) == KeySetAt(source, q) + (if q < path then {path[|q|]} else {})
  {
    hide ParseFile, SetText, Edited;
    SetParses(source, path, v, after);
    var f := ParseFile(source).value;
    var es := Top(f).value;
    var lead := EditedTop(source, f, path, v);
    KeySetIsKeySet(source, q);
    KeySetIsKeySet(after, q);
    if Get(es, path).Some? {
      if q < path {
        KeysReplacedBelow(es, path, v, q);
        BoundIsKey(es, path, q);
      } else {
        KeysReplacedElsewhere(es, path, v, q);
      }
    } else {
      if q < path {
        KeysInsertedBelow(es, path, lead, v, q);
      } else {
        KeysInsertedElsewhere(es, path, lead, v, q);
      }
    }
  }

  // ---------- which paths an insertion can write ----------

  lemma {:induction false} PartsTextLen(ps: seq<Part>)
    ensures |PartsText(ps)| + 1 <= |PutParts(ps, "")|
  {
    if ps == [] {
    } else {
      PartsTextLen(ps[1..]);
    }
  }

  function NamesLen(names: Path): nat {
    if names == [] then 0 else |names[0]| + NamesLen(names[1..])
  }

  lemma {:induction false} JoinLen(path: Path)
    requires path != []
    ensures |Join(path, ".")| == NamesLen(path) + |path| - 1
  {
    if |path| > 1 { JoinLen(path[1..]); }
  }

  lemma {:induction false} PathLen(path: seq<Seg>)
    requires path != []
    ensures |PutPath(path, "")| >= NamesLen(Names(path)) + |path| - 1
    ensures |PutPath(path, "")| == NamesLen(Names(path)) + |path| - 1 ==>
      forall i :: 0 <= i < |path| ==> path[i].Ident?
  {
    var tail := if |path| == 1 then "" else "." + PutPath(path[1..], "");
    assert Names(path)[1..] == Names(path[1..]);
    if |path| > 1 { PathLen(path[1..]); }
    if path[0].Quoted? {
      PartsTextLen(path[0].parts);
      PutPartsSplit(path[0].parts, tail);
    }
  }

  /** The insertion joins its segments with dots and quotes none of them.  What it writes is
      read back as the path it stands for if and only if all segments are identifiers. */
  lemma DottedReadsBack(path: Path, rest: string)
    requires path != [] && AtomEnds(rest)
    ensures (exists segs :: ParsePath(Join(path, ".") + rest) == Some((segs, rest)) && Names(segs) == path)
       <==> AllIdents(path)
  {
    var s := Join(path, ".") + rest;
    if AllIdents(path) {
      SegsText(path, rest);
      NamesOfSegs(path);
      assert WFPath(Segs(path));
      ParsePathComplete(Segs(path), rest);
    }
    if segs :| ParsePath(s) == Some((segs, rest)) && Names(segs) == path {
      ParsePathSound(s);
      PutPathSplit(segs, rest);
      JoinLen(path);
      PathLen(segs);
      forall i | 0 <= i < |path|
        ensures IsIdent(path[i])
      {
        assert WFSeg(segs[i]) && path[i] == Names(segs)[i];
      }
    }
  }
}
