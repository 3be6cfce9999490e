/** What the dashboard reads out of a value node and what it writes for a value:
    string literals with their escapes, `interpret`, and the printer `to_source`. */
module NixValues {
  import opened Options
  import opened NixSyntax
  import opened NixParser
  import opened Strings

  datatype NixValue = Bool(b: bool) | Text(s: string) | TextList(items: seq<string>) | Other(raw: string)

  // ---------- reading ----------

  function Unescape(c: char): char {
    if c == 'n' then '\n' else if c == 't' then '\t' else if c == 'r' then '\r' else c
  }

  function PartText(p: Part): string {
    match p
    case Chr(c) => [c]
    case Esc(c) => [Unescape(c)]
    case Pair(c) => ['$', c]
    case Dollar => "$"
    case Interp(_) => ""
  }

  function PartsText(ps: seq<Part>): string {
    if ps == [] then "" else PartText(ps[0]) + PartsText(ps[1..])
  }

  /** The literal value of a string node; none if it is interpolated. */
  function LiteralString(ps: seq<Part>): Option<string> {
    if HasInterp(ps) then None else Some(PartsText(ps))
  }

  function SegName(g: Seg): string {
    match g
    case Ident(name) => name
    case Quoted(parts) => PartsText(parts)
  }

  function Names(path: seq<Seg>): (names: seq<string>)
    ensures |names| == |path|
  {
    seq(|path|, i requires 0 <= i < |path| => SegName(path[i]))
  }

  /** The strings of a list, if all its items are plain string literals. */
  function ItemTexts(items: Items): Option<seq<string>> {
    match items
    case NoItem => Some([])
    case Item(_, item, tail) =>
      if !item.Str? || LiteralString(item.parts).None? || ItemTexts(tail).None? then None
      else Some([LiteralString(item.parts).value] + ItemTexts(tail).value)
  }

  function Interpret(v: Value): NixValue {
    match v
    case Atom(text) =>
      if text == "true" then Bool(true) else if text == "false" then Bool(false) else Other(PrintValue(v))
    case Str(parts) =>
      (match LiteralString(parts)
       case None => Other(PrintValue(v))
       case Some(s) => Text(s))
    case Group(square, items, _) =>
      if square && ItemTexts(items).Some? then TextList(ItemTexts(items).value) else Other(PrintValue(v))
    case Set(_, _, _) => Other(PrintValue(v))
  }

  // ---------- writing ----------

  predicate IsEscaped(c: char) { c == '"' || c == '\\' || c == '\n' || c == '\t' || c == '\r' }

  function EscapeLetter(c: char): char
    requires IsEscaped(c)
  {
    if c == '\n' then 'n' else if c == '\t' then 't' else if c == '\r' then 'r' else c
  }

  function QuoteChar(c: char): string {
    if IsEscaped(c) then ['\\', EscapeLetter(c)] else [c]
  }

  function QuoteBody(s: string): string {
    if s == "" then "" else QuoteChar(s[0]) + QuoteBody(s[1..])
  }

  function Quote(s: string): string { "\"" + (QuoteBody(s) + "\"") }

  /** The printer's loop over the characters of the string. */
  method QuoteNixString(s: string) returns (out: string)
    ensures out == Quote(s)
  {
    out := "\"";
    assert s[0..] == s;
    for i := 0 to |s|
      invariant out + (QuoteBody(s[i..]) + "\"") == Quote(s)
    {
      QuoteLoopStep(out, s, i);
      var c := s[i];
      var piece;
      if c == '"' { piece := "\\\""; }
      else if c == '\\' { piece := "\\\\"; }
      else if c == '\n' { piece := "\\n"; }
      else if c == '\t' { piece := "\\t"; }
      else if c == '\r' { piece := "\\r"; }
      else { piece := [c]; }
      assert piece == QuoteChar(c);
      out := out + piece;
    }
    assert QuoteBody(s[|s|..]) + "\"" == "\"";
    out := out + "\"";
  }

  lemma QuoteLoopStep(out: string, s: string, i: nat)
    requires i < |s|
    ensures out + (QuoteBody(s[i..]) + "\"") == (out + QuoteChar(s[i])) + (QuoteBody(s[i + 1..]) + "\"")
  {
    assert s[i..][0] == s[i] && s[i..][1..] == s[i + 1..];
  }

  lemma JoinCons(x: string, more: seq<string>, sep: string, rest: string)
    ensures Join([x] + more, sep) + rest == x + (if more == [] then rest else sep + (Join(more, sep) + rest))
  {
    assert ([x] + more)[1..] == more;
    if more != [] {
      var j := Join(more, sep);
      assert (x + (sep + j)) + rest == x + (sep + (j + rest));
    }
  }

  function QuoteAll(items: seq<string>): (r: seq<string>)
    ensures |r| == |items|
  {
    if items == [] then [] else [Quote(items[0])] + QuoteAll(items[1..])
  }

  function ToSource(v: NixValue): string {
    match v
    case Bool(b) => if b then "true" else "false"
    case Text(s) => Quote(s)
    case TextList(items) => "[ " + (Join(QuoteAll(items), " ") + " ]")
    case Other(raw) => raw
  }

  // ---------- the node that a written value is read back as ----------

  /** A dollar sign is read together with the character after it, unless that one is escaped. */
  predicate PairsUp(s: string) { |s| > 1 && s[0] == '$' && !IsEscaped(s[1]) }

  /** How many characters the first part of a quoted `s` stands for. */
  function Step(s: string): (n: nat)
    requires s != ""
    ensures 1 <= n <= |s|
  {
    if PairsUp(s) then 2 else 1
  }

  function HeadPart(s: string): Part
    requires s != ""
  {
    if IsEscaped(s[0]) then Esc(EscapeLetter(s[0]))
    else if s[0] != '$' then Chr(s[0])
    else if PairsUp(s) then Pair(s[1])
    else Dollar
  }

  /** No `${` of `s` starts an interpolation once `s` is quoted: reading from the left and
      taking a dollar sign together with the unescaped character after it, `{` never comes
      right after a dollar sign. */
  predicate NoInterp(s: string) {
    s == "" || (!(PairsUp(s) && s[1] == '{') && NoInterp(s[Step(s)..]))
  }

  function PartsOf(s: string): seq<Part> {
    if s == "" then [] else [HeadPart(s)] + PartsOf(s[Step(s)..])
  }

  function ItemsOf(items: seq<string>): Items {
    if items == [] then NoItem else Item(" ", Str(PartsOf(items[0])), ItemsOf(items[1..]))
  }

  function NodeOf(v: NixValue): Value
    requires !v.Other?
  {
    match v
    case Bool(b) => Atom(if b then "true" else "false")
    case Text(s) => Str(PartsOf(s))
    case TextList(items) => Group(true, ItemsOf(items), if items == [] then "  " else " ")
  }

  /** The values whose strings can be written without starting an interpolation. */
  predicate Writable(v: NixValue) {
    match v
    case Bool(_) => true
    case Text(s) => NoInterp(s)
    case TextList(items) => forall i :: 0 <= i < |items| ==> NoInterp(items[i])
    case Other(_) => false
  }

  lemma QuoteStep(s: string, rest: string)
    requires s != ""
    ensures QuoteBody(s) + rest == PutPart(HeadPart(s), QuoteBody(s[Step(s)..]) + rest)
    ensures PartText(HeadPart(s)) == s[..Step(s)]
  {
    var n := Step(s);
    var u := QuoteBody(s[n..]);
    if n == 2 {
      assert s[1..][1..] == s[2..] && s[1..][0] == s[1];
      assert QuoteBody(s) == [s[0]] + ([s[1]] + u);
      assert ([s[0]] + ([s[1]] + u)) + rest == "$" + ([s[1]] + (u + rest));
    } else if IsEscaped(s[0]) {
      assert (['\\', EscapeLetter(s[0])] + u) + rest == "\\" + ([EscapeLetter(s[0])] + (u + rest));
    } else {
      assert ([s[0]] + u) + rest == [s[0]] + (u + rest);
    }
  }

  lemma {:induction false} PartsOfQuote(s: string, rest: string)
    requires NoInterp(s)
    ensures PutParts(PartsOf(s), rest) == QuoteBody(s) + ("\"" + rest)
    ensures WFParts(PartsOf(s)) && LiteralString(PartsOf(s)) == Some(s)
  {
    hide QuoteBody, PutPart, PartText, Step, HeadPart, WFPart, PairsUp;
    if s == "" {
      EmptyQuote();
      assert "" + ("\"" + rest) == "\"" + rest;
    } else {
      QuoteStep(s, "\"" + rest);
      var n, ps := Step(s), PartsOf(s);
      PartsOfQuote(s[n..], rest);
      assert ps[1..] == PartsOf(s[n..]);
      HeadIsWF(s);
      DollarThenEscape(s);
      NoInterpCons(ps);
      assert s == s[..n] + s[n..];
    }
  }

  lemma HeadIsWF(s: string)
    requires s != "" && NoInterp(s)
    ensures WFPart(HeadPart(s)) && !HeadPart(s).Interp? && NoInterp(s[Step(s)..])
  {
  }

  lemma DollarThenEscape(s: string)
    requires s != ""
    ensures HeadPart(s).Dollar? && Step(s) < |s| ==> HeadPart(s[Step(s)..]).Esc?
    ensures Step(s) == |s| ==> PartsOf(s) == [HeadPart(s)]
  {
    if Step(s) == |s| {
      assert s[|s|..] == "";
    } else {
      assert s[Step(s)..][0] == s[Step(s)];
    }
  }

  lemma NoInterpCons(ps: seq<Part>)
    requires ps != [] && !ps[0].Interp? && !HasInterp(ps[1..])
    ensures !HasInterp(ps)
  {
    forall i | 0 <= i < |ps|
      ensures !ps[i].Interp?
    {
      if i > 0 { assert ps[i] == ps[1..][i - 1]; }
    }
  }

  lemma {:induction false} ItemsOfQuote(items: seq<string>, rest: string)
    requires forall i :: 0 <= i < |items| ==> NoInterp(items[i])
    ensures PutItems(ItemsOf(items), rest) == (if items == [] then rest else " " + (Join(QuoteAll(items), " ") + rest))
    ensures WFItems(ItemsOf(items)) && ItemTexts(ItemsOf(items)) == Some(items)
  {
    hide PartsOf, WFParts, PartsText, HasInterp, IsTrivia, PutParts, QuoteBody, NoInterp, Quote, Join, QuoteAll;
    if items == [] {
    } else {
      var x, more := items[0], items[1..];
      var tail := PutItems(ItemsOf(more), rest);
      PartsOfQuote(x, tail);
      ItemsOfQuote(more, rest);
      SpaceIsTrivia();
      assert items == [x] + more;
      QuoteText(x, tail);
      JoinStep(items, rest);
      ListText(items, rest, tail);
    }
  }

  lemma JoinStep(items: seq<string>, rest: string)
    requires items != []
    ensures var x, more := Quote(items[0]), items[1..];
      Join(QuoteAll(items), " ") + rest ==
      x + (if more == [] then rest else " " + (Join(QuoteAll(more), " ") + rest))
  {
    hide Quote, Join;
    JoinCons(Quote(items[0]), QuoteAll(items[1..]), " ", rest);
  }

  lemma ListText(items: seq<string>, rest: string, tail: string)
    requires items != [] && tail == PutItems(ItemsOf(items[1..]), rest)
    requires PutParts(PartsOf(items[0]), tail) == QuoteBody(items[0]) + ("\"" + tail)
    ensures PutItems(ItemsOf(items), rest) == " " + (Quote(items[0]) + tail)
  {
    hide PartsOf, QuoteBody, Quote;
    QuoteText(items[0], tail);
  }

  lemma QuoteText(s: string, rest: string)
    ensures "\"" + (QuoteBody(s) + ("\"" + rest)) == Quote(s) + rest
  {
    var b := QuoteBody(s);
    assert "\"" + (b + ("\"" + rest)) == ("\"" + (b + "\"")) + rest;
  }

  lemma SpaceIsTrivia()
    ensures IsTrivia(" ") && IsTrivia("  ")
  {
    assert " "[1..] == "" && "  "[1..] == " ";
  }

  /** Printer and reader are inverse: the text written for a value is the text of one node,
      and that node is interpreted as the value. */
  lemma WrittenIsRead(v: NixValue)
    requires Writable(v)
    ensures PrintValue(NodeOf(v)) == ToSource(v) && WFValue(NodeOf(v)) && Interpret(NodeOf(v)) == v
  {
    match v
    case Bool(b) => BoolIsAtom(b);
    case Text(s) =>
      hide PartsOf, WFParts, PartsText, HasInterp, PutParts, QuoteBody, NoInterp;
      PartsOfQuote(s, "");
      assert "\"" + "" == "\"";
    case TextList(items) => WrittenListIsRead(items);
  }

  lemma BoolIsAtom(b: bool)
    ensures var text := if b then "true" else "false"; IsAtom(text) && text + "" == text
  {
    assert AtomLen("true") == 4 && AtomLen("false") == 5;
  }

  lemma WrittenListIsRead(items: seq<string>)
    requires forall i :: 0 <= i < |items| ==> NoInterp(items[i])
    ensures var v := TextList(items);
      PrintValue(NodeOf(v)) == ToSource(v) && WFValue(NodeOf(v)) && Interpret(NodeOf(v)) == v
  {
    hide ItemsOf, WFItems, PutItems, ItemTexts, Join, QuoteAll, NoInterp, IsTrivia;
    var close := if items == [] then "  " else " ";
    ItemsOfQuote(items, close + ("]" + ""));
    SpaceIsTrivia();
    if items == [] {
      assert Join(QuoteAll(items), " ") == "" by { EmptyJoin(); }
      assert "[" + ("  " + ("]" + "")) == "[ " + ("" + " ]");
    } else {
      var j := Join(QuoteAll(items), " ");
      assert "[" + (" " + (j + (" " + ("]" + "")))) == "[ " + (j + " ]");
    }
  }

  lemma EmptyJoin()
    ensures Join(QuoteAll([]), " ") == ""
  {
  }

  // ---------- what any written string is read as ----------

  /** The parts that a quoted `s` is read as, if it is read at all. */
  function ReadParts(s: string): Option<seq<Part>> {
    if s == "" then Some([])
    else if PairsUp(s) && s[1] == '{' then
      var n := Run(s[2..], IsInterpChar);
      if n == 0 || |s| <= n + 2 || s[n + 2] != '}' then None
      else
        match ReadParts(s[n + 3..])
        case None => None
        case Some(ps) => Some([Interp(s[2..n + 2])] + ps)
    else
      match ReadParts(s[Step(s)..])
      case None => None
      case Some(ps) => Some([HeadPart(s)] + ps)
  }

  /** What a quoted `s` leaves behind its closing quote, as it is read where `rest` follows. */
  function Closed(s: string, rest: string): string { QuoteBody(s) + ("\"" + rest) }

  /** A run of unescaped characters is the same in a string and in its quoted form. */
  lemma {:induction false} RunInQuote(s: string, rest: string)
    ensures var n := Run(s, IsInterpChar);
      && Run(Closed(s, rest), IsInterpChar) == n < |Closed(s, rest)|
      && Closed(s, rest)[..n] == s[..n]
      && Closed(s, rest)[n..] == Closed(s[n..], rest)
  {
    hide Closed;
    if s == "" || !IsInterpChar(s[0]) {
      NoRunInQuote(s, rest);
    } else {
      var n := Run(s[1..], IsInterpChar);
      RunInQuote(s[1..], rest);
      assert s == [s[0]] + s[1..];
      ClosedCons(s[0], s[1..], rest);
      CutBehind(s[0], s[1..], n);
      CutBehind(s[0], Closed(s[1..], rest), n);
    }
  }

  lemma NoRunInQuote(s: string, rest: string)
    requires s == "" || !IsInterpChar(s[0])
    ensures Run(s, IsInterpChar) == Run(Closed(s, rest), IsInterpChar) == 0 < |Closed(s, rest)|
    ensures s[0..] == s && Closed(s, rest)[0..] == Closed(s, rest)
  {
    ClosedStart(s, rest);
  }

  lemma ClosedCons(c: char, s: string, rest: string)
    requires !IsEscaped(c)
    ensures Closed([c] + s, rest) == [c] + Closed(s, rest)
  {
    assert ([c] + s)[1..] == s;
    assert ([c] + QuoteBody(s)) + ("\"" + rest) == [c] + (QuoteBody(s) + ("\"" + rest));
  }

  lemma CutBehind(c: char, t: string, n: nat)
    requires n <= |t|
    ensures ([c] + t)[1..] == t && ([c] + t)[..n + 1] == [c] + t[..n] && ([c] + t)[n + 1..] == t[n..]
  {
  }

  lemma ClosedStart(s: string, rest: string)
    ensures var t := Closed(s, rest);
      t != "" && t[0] == (if s == "" then '"' else if IsEscaped(s[0]) then '\\' else s[0])
  {
    if s != "" {
      assert QuoteBody(s)[0] == QuoteChar(s[0])[0];
    }
  }

  /** Wherever a quoted string is read, what is read depends on the string alone, and what
      follows its closing quote is left over. */
  lemma {:induction false} QuotedIsRead(s: string, rest: string)
    ensures ParseParts(Closed(s, rest)) ==
      match ReadParts(s) case None => None case Some(ps) => Some((ps, rest))
    decreases |s|
  {
    hide Run, QuoteBody;
    var t := Closed(s, rest);
    ClosedStart(s, rest);
    if s == "" {
      assert t == "\"" + rest by { EmptyQuote(); }
      assert t[1..] == rest;
    } else if PairsUp(s) && s[1] == '{' {
      var n := Run(s[2..], IsInterpChar);
      RunInQuote(s[2..], rest);
      InterpInQuote(s, rest, n);
      ClosedStart(s[2..][n..], rest);
      if n + 2 < |s| {
        assert s[2..][n..][0] == s[n + 2];
        if n > 0 && s[n + 2] == '}' {
          QuotedIsRead(s[n + 3..], rest);
          assert s[2..][n..][1..] == s[n + 3..];
          BraceInQuote(s[2..][n..], rest);
        }
      }
    } else {
      var u := Closed(s[Step(s)..], rest);
      QuotedIsRead(s[Step(s)..], rest);
      QuoteStep(s, "\"" + rest);
      HeadStart(s, rest);
      HeadParses(s, u);
    }
  }

  lemma EmptyQuote()
    ensures QuoteBody("") == ""
  {
  }

  lemma HeadStart(s: string, rest: string)
    requires s != ""
    ensures var u := Closed(s[Step(s)..], rest);
      u != "" && (Step(s) < |s| ==> u[0] == QuoteChar(s[Step(s)])[0]) && (Step(s) == |s| ==> u[0] == '"')
  {
    ClosedStart(s[Step(s)..], rest);
  }

  lemma InterpInQuote(s: string, rest: string, n: nat)
    requires PairsUp(s) && s[1] == '{' && n == Run(s[2..], IsInterpChar)
    requires var b := Closed(s[2..], rest);
      Run(b, IsInterpChar) == n < |b| && b[..n] == s[2..][..n] && b[n..] == Closed(s[2..][n..], rest)
    ensures var t, b := Closed(s, rest), Closed(s[2..], rest);
      ParsePart(t) == if n == 0 || b[n] != '}' then None else Some((Interp(s[2..n + 2]), b[n + 1..]))
    ensures Closed(s, rest)[0] == '$' && Closed(s[2..], rest)[n] == Closed(s[2..][n..], rest)[0]
    ensures Closed(s[2..], rest)[n + 1..] == Closed(s[2..][n..], rest)[1..]
  {
    var b := Closed(s[2..], rest);
    ClosedCons('{', s[2..], rest);
    ClosedCons('$', "{" + s[2..], rest);
    assert s == "$" + ("{" + s[2..]);
    hide Run, Closed, IsInterpChar;
    AfterDollarBrace(b, n);
    assert s[2..][..n] == s[2..n + 2];
  }

  lemma AfterDollarBrace(b: string, n: nat)
    requires n < |b|
    ensures var t := "$" + ("{" + b);
      |t| == |b| + 2 && t[0] == '$' && t[1] == '{' && t[2..] == b &&
      t[n + 2] == b[n] && t[n + 3..] == b[n + 1..] && t[2..n + 2] == b[..n]
  {
  }

  lemma BraceInQuote(s: string, rest: string)
    requires s != "" && s[0] == '}'
    ensures Closed(s, rest)[1..] == Closed(s[1..], rest)
  {
    assert s == ['}'] + s[1..];
    ClosedCons('}', s[1..], rest);
    CutBehind('}', Closed(s[1..], rest), 0);
  }

  /** It is read as itself, with no interpolation in it, exactly if none starts in it. */
  lemma {:induction false} ReadPartsExactly(s: string)
    ensures NoInterp(s) ==> ReadParts(s) == Some(PartsOf(s))
    ensures !NoInterp(s) && ReadParts(s).Some? ==> HasInterp(ReadParts(s).value)
    decreases |s|
  {
    hide Run;
    if s == "" {
    } else if PairsUp(s) && s[1] == '{' {
      if ReadParts(s).Some? { assert ReadParts(s).value[0].Interp?; }
    } else {
      ReadPartsExactly(s[Step(s)..]);
      if !NoInterp(s) && ReadParts(s).Some? {
        var ps := ReadParts(s[Step(s)..]).value;
        var i :| 0 <= i < |ps| && ps[i].Interp?;
        assert ReadParts(s).value[i + 1].Interp?;
      }
    }
  }

  /** The exact condition for a string.  Wherever a quoted string is spliced in, reading it
      there gives the string back, with everything after the closing quote left over, if and
      only if no interpolation starts in it; otherwise the text does not parse there or is
      read as one interpolated string. */
  lemma QuotedRoundTrip(s: string, rest: string)
    ensures var r := ParseParts(Closed(s, rest));
      && (r.Some? ==> r.value.1 == rest)
      && (NoInterp(s) <==> r.Some? && LiteralString(r.value.0) == Some(s))
      && (!NoInterp(s) ==> r.None? || HasInterp(r.value.0))
  {
    hide ReadParts, PartsOf, QuoteBody, Closed, PartsText;
    QuotedIsRead(s, rest);
    ReadPartsExactly(s);
    if NoInterp(s) { PartsOfQuote(s, rest); }
  }

  lemma HeadParses(s: string, u: string)
    requires s != "" && !(PairsUp(s) && s[1] == '{') && u != ""
    requires Step(s) < |s| ==> u[0] == QuoteChar(s[Step(s)])[0]
    requires Step(s) == |s| ==> u[0] == '"'
    ensures var t := PutPart(HeadPart(s), u); ParsePart(t) == Some((HeadPart(s), u)) && t[0] != '"'
  {
    ParsePartComplete(HeadPart(s), u);
  }

  // ---------- what any written value is read as ----------

  function ReadItems(items: seq<string>): Option<Items> {
    if items == [] then Some(NoItem)
    else if ReadParts(items[0]).None? || ReadItems(items[1..]).None? then None
    else Some(Item(" ", Str(ReadParts(items[0]).value), ReadItems(items[1..]).value))
  }

  /** The node that the text written for a value is read as, if it is read at all; not told
      for raw text. */
  function NodeRead(v: NixValue): Option<Value> {
    match v
    case Bool(b) => Some(Atom(if b then "true" else "false"))
    case Text(s) => if ReadParts(s).None? then None else Some(Str(ReadParts(s).value))
    case TextList(items) =>
      if ReadItems(items).None? then None
      else Some(Group(true, ReadItems(items).value, if items == [] then "  " else " "))
    case Other(_) => None
  }

  /** The items of a list as they are written, each after a space. */
  function Spaced(items: seq<string>, rest: string): string {
    if items == [] then rest else " " + (Quote(items[0]) + Spaced(items[1..], rest))
  }

  lemma {:induction false} SpacedText(items: seq<string>, rest: string)
    ensures Spaced(items, rest) == if items == [] then rest else " " + (Join(QuoteAll(items), " ") + rest)
  {
    hide Quote, Join, QuoteAll;
    if items == [] {
    } else {
      SpacedText(items[1..], rest);
      JoinStep(items, rest);
    }
  }

  lemma {:induction false} SpacedIsRead(items: seq<string>, close: string, rest: string)
    requires IsTrivia(close)
    ensures ParseItems(Spaced(items, close + ("]" + rest)), true) ==
      match ReadItems(items) case None => None case Some(found) => Some((found, close, rest))
  {
    hide ReadParts, Quote, ParseParts, TriviaLen, PieceLen, IsTrivia;
    var s := Spaced(items, close + ("]" + rest));
    if items == [] {
      NoPiece(']', rest);
      TriviaAppend(close, "]" + rest);
      assert ("]" + rest)[1..] == rest;
    } else {
      var u := Spaced(items[1..], close + ("]" + rest));
      SpacedIsRead(items[1..], close, rest);
      QuoteIsRead(items[0], u);
      SpaceIsTrivia();
      NoPiece('"', (Quote(items[0]) + u)[1..]);
      assert Quote(items[0]) + u == "\"" + (Quote(items[0]) + u)[1..];
      TriviaAppend(" ", Quote(items[0]) + u);
      assert s[1..] == Quote(items[0]) + u && s[..1] == " ";
    }
  }

  lemma QuoteIsRead(s: string, rest: string)
    ensures Quote(s) + rest != "" && (Quote(s) + rest)[0] == '"'
    ensures ParseValue(Quote(s) + rest) ==
      if ReadParts(s).None? then None else Some((Str(ReadParts(s).value), rest))
  {
    hide ReadParts;
    QuotedIsRead(s, rest);
    QuoteText(s, rest);
    assert (Quote(s) + rest)[1..] == Closed(s, rest);
  }

  /** Wherever the text written for a value is read, what is read depends on the value alone. */
  lemma WrittenIsReadAs(v: NixValue, rest: string)
    requires !v.Other? && (v.Bool? ==> AtomEnds(rest))
    ensures ParseValue(ToSource(v) + rest) ==
      match NodeRead(v) case None => None case Some(n) => Some((n, rest))
  {
    hide ReadParts, ReadItems, ParseItems, ParseParts, Quote, Join, QuoteAll;
    match v
    case Bool(b) =>
      BoolIsAtom(b);
      ParseValueComplete(Atom(if b then "true" else "false"), rest);
    case Text(s) => QuoteIsRead(s, rest);
    case TextList(items) =>
      var close := if items == [] then "  " else " ";
      SpaceIsTrivia();
      SpacedIsRead(items, close, rest);
      ListIsSpaced(items, close, rest);
      var t := Spaced(items, close + ("]" + rest));
      assert ("[" + t)[1..] == t;
  }

  lemma ListIsSpaced(items: seq<string>, close: string, rest: string)
    requires close == if items == [] then "  " else " "
    ensures ToSource(TextList(items)) + rest == "[" + Spaced(items, close + ("]" + rest))
  {
    hide Join, QuoteAll, Spaced;
    SpacedText(items, close + ("]" + rest));
    var j := Join(QuoteAll(items), " ");
    if items == [] {
      EmptyJoin();
      Bracketed("", rest);
      assert " " + ("" + (" " + ("]" + rest))) == "  " + ("]" + rest);
    } else {
      Bracketed(j, rest);
    }
  }

  lemma Bracketed(j: string, rest: string)
    ensures ("[ " + (j + " ]")) + rest == "[" + (" " + (j + (" " + ("]" + rest))))
  {
    assert (j + " ]") + rest == j + (" " + ("]" + rest));
  }

  /** What a value reads back as: itself, if its strings start no interpolation. */
  function ReadAs(v: NixValue): NixValue
    requires NodeRead(v).Some?
  {
    Interpret(NodeRead(v).value)
  }

  /** A written value that is read at all is one well-formed node with that very text, and
      reads as the value exactly if its strings start no interpolation; otherwise as neither
      a string nor a list of strings. */
  lemma ReadAsExactly(v: NixValue)
    requires !v.Other?
    ensures NodeRead(v).Some? ==> WFValue(NodeRead(v).value) && PrintValue(NodeRead(v).value) == ToSource(v)
    ensures Writable(v) ==> NodeRead(v) == Some(NodeOf(v)) && ReadAs(v) == v
    ensures NodeRead(v).Some? && !Writable(v) ==> ReadAs(v).Other?
  {
    hide ReadParts, ReadItems, PutValue, Interpret, ToSource, NodeOf, PartsOf, ItemsOf, NoInterp, WFValue;
    assert AtomEnds("");
    WrittenIsReadAs(v, "");
    assert ToSource(v) + "" == ToSource(v);
    if NodeRead(v).Some? { ParseValueSound(ToSource(v)); }
    if Writable(v) {
      WrittenIsRead(v);
      ParseValueComplete(NodeOf(v), "");
    } else if NodeRead(v).Some? {
      UnwritableIsOther(v);
    }
  }

  lemma UnwritableIsOther(v: NixValue)
    requires !Writable(v) && NodeRead(v).Some?
    ensures ReadAs(v).Other?
  {
    hide ReadParts, NoInterp, PartsText;
    match v
    case Text(s) => ReadPartsExactly(s);
    case TextList(items) => InterpInList(items);
  }

  lemma {:induction false} InterpInList(items: seq<string>)
    requires ReadItems(items).Some? && !(forall i :: 0 <= i < |items| ==> NoInterp(items[i]))
    ensures ItemTexts(ReadItems(items).value).None?
  {
    hide ReadParts, NoInterp, PartsText;
    if items == [] {
    } else if NoInterp(items[0]) {
      assert forall i :: 0 < i < |items| ==> items[i] == items[1..][i - 1];
      InterpInList(items[1..]);
    } else {
      ReadPartsExactly(items[0]);
    }
  }

  /** The printer does not escape a dollar sign: a hostname `${x}` is written as an
      interpolation and is not read back as a string. */
  lemma DollarBraceIsNotEscaped()
    ensures var s := "${x}";
      ToSource(Text(s)) == "\"${x}\"" && !NoInterp(s) &&
      ParseValue(ToSource(Text(s))) == Some((Str([Interp("x")]), "")) &&
      Interpret(Str([Interp("x")])) == Other("\"${x}\"")
  {
    var s := "${x}";
    DollarBraceText();
    assert PairsUp(s) && s[1] == '{';
    hide QuoteBody, ParseValue, Interpret;
    InterpParses();
  }

  lemma DollarBraceText()
    ensures QuoteBody("${x}") == "${x}"
  {
    assert "${x}"[1..] == "{x}" && "{x}"[1..] == "x}" && "x}"[1..] == "}" && "}"[1..] == "";
    assert QuoteBody("x}") == "x}";
    assert QuoteBody("{x}") == "{x}";
  }

  lemma InterpParses()
    ensures ParseValue("\"${x}\"") == Some((Str([Interp("x")]), ""))
    ensures Interpret(Str([Interp("x")])) == Other("\"${x}\"")
  {
    var t := "${x}\"";
    assert "\"${x}\""[1..] == t;
    assert t[2..] == "x}\"" && "x}\""[1..] == "}\"" && t[4..] == "\"" && "\""[1..] == "" && t[2..3] == "x";
    assert Run("x}\"", IsInterpChar) == 1;
    assert ParsePart(t) == Some((Interp("x"), "\""));
    var ps := [Interp("x")];
    assert ps + [] == ps;
    assert ps[0].Interp?;
    assert ps[1..] == [];
    assert PrintValue(Str(ps)) == "\"${x}\"";
  }
}
