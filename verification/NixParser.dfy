/** A recursive-descent parser for the fragment, and the proof that it and the printer are
    inverse: it accepts exactly the texts of well-formed trees, and each of those texts has
    one tree.  This is what the editor takes from rnix. */
module NixParser {
  import opened Options
  import opened NixSyntax

  // ---------- trivia: white space and comments ----------

  /** The length of a line comment at the start of `s`, its newline not included. */
  function LineLen(s: string): (n: nat)
    ensures n <= |s|
  {
    Run(s, c => c != '\n')
  }

  /** The length of `s` up to and including the first `*` `/`, if there is one. */
  function BlockEnd(s: string): (n: Option<nat>)
    ensures n.Some? ==> 2 <= n.value <= |s|
  {
    if |s| < 2 then None
    else if s[0] == '*' && s[1] == '/' then Some(2)
    else match BlockEnd(s[1..])
      case None => None
      case Some(n) => Some(n + 1)
  }

  /** The length of the comment or white-space character at the start of `s`; 0 if none. */
  function PieceLen(s: string): (n: nat)
    ensures n <= |s|
  {
    if s == "" then 0
    else if IsSpace(s[0]) then 1
    else if s[0] == '#' then LineLen(s)
    else if IsBlockStart(s) then
      match BlockEnd(s[2..])
      case None => 0
      case Some(n) => n + 2
    else 0
  }

  function TriviaLen(s: string): (n: nat)
    ensures n <= |s|
  {
    var k := PieceLen(s);
    if k == 0 then 0 else k + TriviaLen(s[k..])
  }

  /** Trivia that another token may follow: a line comment in it has its newline. */
  predicate IsTrivia(t: string)
    decreases |t|
  {
    t == "" ||
    (PieceLen(t) > 0 && (t[0] == '#' ==> PieceLen(t) < |t|) && IsTrivia(t[PieceLen(t)..]))
  }

  lemma {:induction false} BlockEndAppend(s: string, rest: string)
    requires BlockEnd(s).Some?
    ensures BlockEnd(s + rest) == BlockEnd(s)
  {
    if !(s[0] == '*' && s[1] == '/') {
      assert (s + rest)[1..] == s[1..] + rest;
      BlockEndAppend(s[1..], rest);
    }
  }

  lemma {:induction false} BlockEndTake(s: string)
    requires BlockEnd(s).Some?
    ensures BlockEnd(s[..BlockEnd(s).value]) == BlockEnd(s)
  {
    if !(s[0] == '*' && s[1] == '/') {
      var n := BlockEnd(s).value;
      assert s[..n][1..] == s[1..][..n - 1];
      BlockEndTake(s[1..]);
    }
  }

  lemma {:induction false} PieceAppend(t: string, rest: string)
    requires t != "" && PieceLen(t) > 0 && (t[0] == '#' ==> PieceLen(t) < |t|)
    ensures PieceLen(t + rest) == PieceLen(t)
  {
    if IsSpace(t[0]) {
    } else if t[0] == '#' {
      var n := LineLen(t);
      RunTake(t, c => c != '\n');
      assert t + rest == t[..n] + (t[n..] + rest);
      RunAppend(t[..n], t[n..] + rest, c => c != '\n');
    } else {
      assert (t + rest)[2..] == t[2..] + rest;
      BlockEndAppend(t[2..], rest);
    }
  }

  lemma {:induction false} TriviaAppend(t: string, rest: string)
    requires IsTrivia(t) && PieceLen(rest) == 0
    ensures TriviaLen(t + rest) == |t|
    ensures (t + rest)[..|t|] == t && (t + rest)[|t|..] == rest
    decreases |t|
  {
    if t == "" {
      assert t + rest == rest;
    } else {
      var k := PieceLen(t);
      PieceAppend(t, rest);
      assert (t + rest)[k..] == t[k..] + rest;
      TriviaAppend(t[k..], rest);
    }
  }

  lemma TriviaThen(t: string, c: char, rest: string)
    requires IsTrivia(t) && !IsSpace(c) && c != '#' && c != '/'
    ensures var s := t + ([c] + rest);
      TriviaLen(s) == |t| < |s| && s[|t|] == c && s[..|t|] == t && s[|t| + 1..] == rest
    ensures AtomEnds([c] + rest) ==> AtomEnds(t + ([c] + rest))
  {
    TriviaAppend(t, [c] + rest);
    if t == "" { assert t + ([c] + rest) == [c] + rest; } else { TriviaStarts(t, [c] + rest); }
  }

  lemma NoPiece(c: char, rest: string)
    requires !IsSpace(c) && c != '#' && c != '/'
    ensures PieceLen([c] + rest) == 0
  {
  }

  lemma TriviaStarts(t: string, rest: string)
    requires IsTrivia(t) && t != ""
    ensures AtomEnds(t + rest)
  {
  }

  lemma {:induction false} PieceTake(s: string)
    requires 0 < PieceLen(s) < |s|
    ensures forall m :: PieceLen(s) < m <= |s| ==> PieceLen(s[..m]) == PieceLen(s)
    ensures s[0] != '#' ==> PieceLen(s[..PieceLen(s)]) == PieceLen(s)
  {
    var k := PieceLen(s);
    forall m | k <= m <= |s| && (s[0] == '#' ==> k < m)
      ensures PieceLen(s[..m]) == k
    {
      if s[0] == '#' {
        assert s[..m] == s[..k] + s[k..m];
        RunTake(s, c => c != '\n');
        RunAppend(s[..k], s[k..m], c => c != '\n');
      } else if IsBlockStart(s) {
        BlockEndTake(s[2..]);
        assert s[..m][2..] == s[2..][..m - 2];
        assert s[2..][..m - 2] == s[2..][..k - 2] + s[k..m];
        BlockEndAppend(s[2..][..k - 2], s[k..m]);
      }
    }
  }

  /** What the scan skips is trivia, unless it runs to the end of the text. */
  lemma {:induction false} TriviaTake(s: string)
    ensures TriviaLen(s) < |s| ==> IsTrivia(s[..TriviaLen(s)])
    ensures PieceLen(s[TriviaLen(s)..]) == 0
  {
    hide IsTrivia, PieceLen, Run;
    var k := PieceLen(s);
    if k > 0 {
      var u := s[k..];
      TriviaTake(u);
      var n := TriviaLen(s);
      var m := TriviaLen(u);
      assert s[n..] == u[m..];
      if n < |s| {
        if s[0] == '#' {
          LineThenNewline(s);
        }
        assert s[k..n] == u[..m];
        TriviaJoin(s, k, n);
      }
    } else {
      assert s[0..] == s;
      EmptyTrivia();
      assert s[..0] == "";
    }
  }

  lemma LineThenNewline(s: string)
    requires s != "" && s[0] == '#' && PieceLen(s) < |s|
    ensures TriviaLen(s[PieceLen(s)..]) > 0
  {
    RunTake(s, c => c != '\n');
  }

  lemma EmptyTrivia()
    ensures IsTrivia("")
  {
  }

  lemma TriviaJoin(s: string, k: nat, n: nat)
    requires k == PieceLen(s) && 0 < k <= n <= |s| && (s[0] == '#' ==> k < n) && k < |s|
    requires IsTrivia(s[k..n])
    ensures IsTrivia(s[..n])
  {
    PieceTake(s);
    assert s[..n][k..] == s[k..n];
  }

  /** The trivia at the start of `s`, cut off before the character `c`. */
  lemma TriviaCut(s: string, k: nat, c: char)
    requires k == TriviaLen(s) < |s| && s[k] == c
    ensures IsTrivia(s[..k]) && s == s[..k] + ([c] + s[k + 1..])
  {
    hide PieceLen, TriviaLen, IsTrivia;
    TriviaTake(s);
  }

  lemma TriviaSkip(s: string, k: nat)
    requires k == TriviaLen(s) && s[k..] != ""
    ensures IsTrivia(s[..k]) && s == s[..k] + s[k..]
  {
    TriviaTake(s);
  }

  // ---------- atoms and identifiers ----------

  function AtomLen(s: string): (n: nat)
    ensures n <= |s|
  {
    if s == "" || !IsAtomChar(s[0]) || IsBlockStart(s) then 0 else 1 + AtomLen(s[1..])
  }

  function IdentLen(s: string): (n: nat)
    ensures n <= |s|
  {
    if s == "" || !IsIdentStart(s[0]) then 0 else Run(s, IsIdentChar)
  }

  predicate IsIdent(name: string) {
    name != "" && IdentLen(name) == |name| && name !in KEYWORDS
  }

  /** An atom or an identifier that stops before `rest` stops where it should. */
  predicate AtomEnds(rest: string) {
    rest == "" || IsBlockStart(rest) || (!IsAtomChar(rest[0]) && rest[0] != '*')
  }

  predicate IsAtom(text: string) {
    text != "" && AtomLen(text) == |text| && text !in KEYWORDS
  }

  lemma {:induction false} AtomAppend(a: string, rest: string)
    requires AtomLen(a) == |a| && AtomEnds(rest)
    ensures AtomLen(a + rest) == |a|
  {
    if a == "" {
      assert a + rest == rest;
    } else {
      assert (a + rest)[1..] == a[1..] + rest;
      AtomAppend(a[1..], rest);
    }
  }

  lemma {:induction false} AtomTake(s: string)
    ensures AtomLen(s[..AtomLen(s)]) == AtomLen(s)
  {
    var n := AtomLen(s);
    if n == 0 {
    } else {
      AtomTake(s[1..]);
      assert s[..n][1..] == s[1..][..n - 1];
    }
  }

  lemma {:induction false} AtomRestStops(s: string)
    ensures var r := s[AtomLen(s)..]; r == "" || IsBlockStart(r) || !IsAtomChar(r[0])
  {
    if AtomLen(s) == 0 {
    } else {
      AtomRestStops(s[1..]);
      assert s[AtomLen(s)..] == s[1..][AtomLen(s) - 1..];
    }
  }

  lemma {:induction false} IdentAppend(a: string, rest: string)
    requires a != "" && IdentLen(a) == |a| && (rest == "" || !IsIdentChar(rest[0]))
    ensures IdentLen(a + rest) == |a|
  {
    RunAppend(a, rest, IsIdentChar);
  }

  lemma {:induction false} IdentTake(s: string)
    requires IdentLen(s) > 0
    ensures IdentLen(s[..IdentLen(s)]) == IdentLen(s)
    ensures var r := s[IdentLen(s)..]; r == "" || !IsIdentChar(r[0])
  {
    RunTake(s, IsIdentChar);
  }

  lemma TriviaEnds(t: string, rest: string)
    requires IsTrivia(t) && (t == "" ==> AtomEnds(rest))
    ensures AtomEnds(t + rest)
  {
    if t == "" { assert t + rest == rest; }
  }

  // ---------- well-formed trees ----------

  ghost predicate WFPart(p: Part) {
    match p
    case Chr(c) => c != '"' && c != '\\' && c != '$'
    case Esc(c) => true
    case Pair(c) => c != '"' && c != '\\' && c != '{'
    case Dollar => true
    case Interp(body) => body != "" && All(body, IsInterpChar)
  }

  ghost predicate WFParts(ps: seq<Part>) {
    ps == [] ||
    (WFPart(ps[0]) && (ps[0].Dollar? && |ps| > 1 ==> ps[1].Esc?) && WFParts(ps[1..]))
  }

  predicate HasInterp(ps: seq<Part>) { exists i :: 0 <= i < |ps| && ps[i].Interp? }

  ghost predicate WFSeg(g: Seg) {
    match g
    case Ident(name) => IsIdent(name)
    case Quoted(parts) => WFParts(parts) && !HasInterp(parts)
  }

  ghost predicate WFPath(path: seq<Seg>) {
    path != [] && forall i :: 0 <= i < |path| ==> WFSeg(path[i])
  }

  /** Does the value's text start with an atom character? */
  predicate StartsAtom(v: Value) { v.Atom? || (v.Set? && v.recur != "") }

  ghost predicate WFRecur(recur: string) {
    recur == "" || (|recur| >= 3 && recur[..3] == "rec" && IsTrivia(recur[3..]))
  }

  ghost predicate WFValue(v: Value)
    decreases v
  {
    match v
    case Atom(text) => IsAtom(text)
    case Str(parts) => WFParts(parts)
    case Group(square, items, close) => WFItems(items) && IsTrivia(close)
    case Set(recur, entries, close) => WFRecur(recur) && WFEntries(entries) && IsTrivia(close)
  }

  ghost predicate WFItems(items: Items)
    decreases items
  {
    match items
    case NoItem => true
    case Item(lead, item, tail) =>
      IsTrivia(lead) && WFValue(item) && WFItems(tail) &&
      (item.Atom? && tail.Item? && tail.lead == "" ==> !StartsAtom(tail.item))
  }

  ghost predicate WFEntry(e: Entry)
    decreases e
  {
    match e
    case Bind(lead, path, pre, post, value, semi) =>
      IsTrivia(lead) && WFPath(path) && IsTrivia(pre) && IsTrivia(post) && WFValue(value) && IsTrivia(semi)
    case Inherit(lead, body) =>
      IsTrivia(lead) && All(body, IsInheritChar) &&
      (body == "" || !IsIdentChar(body[0]))
  }

  ghost predicate WFEntries(es: Entries)
    decreases es
  {
    match es
    case NoEntry => true
    case Cons(entry, tail) => WFEntry(entry) && WFEntries(tail)
  }

  // ---------- the parser ----------

  function ParsePart(s: string): (r: Option<(Part, string)>)
    ensures r.Some? ==> |r.value.1| < |s|
  {
    if s == "" || s[0] == '"' then None
    else if s[0] == '\\' then
      if |s| < 2 then None else Some((Esc(s[1]), s[2..]))
    else if s[0] != '$' then Some((Chr(s[0]), s[1..]))
    else if |s| == 1 || s[1] == '"' || s[1] == '\\' then Some((Dollar, s[1..]))
    else if s[1] != '{' then Some((Pair(s[1]), s[2..]))
    else
      var n := Run(s[2..], IsInterpChar);
      if n == 0 || |s| <= n + 2 || s[n + 2] != '}' then None
      else Some((Interp(s[2..n + 2]), s[n + 3..]))
  }

  /** Reads string parts up to and over the closing quote. */
  function ParseParts(s: string): (r: Option<(seq<Part>, string)>)
    ensures r.Some? ==> |r.value.1| < |s|
    decreases |s|
  {
    if s != "" && s[0] == '"' then Some(([], s[1..]))
    else match ParsePart(s)
      case None => None
      case Some((p, t)) =>
        match ParseParts(t)
        case None => None
        case Some((ps, u)) => Some(([p] + ps, u))
  }

  function ParseSeg(s: string): (r: Option<(Seg, string)>)
    ensures r.Some? ==> |r.value.1| < |s|
  {
    if s != "" && s[0] == '"' then
      match ParseParts(s[1..])
      case None => None
      case Some((ps, t)) => if HasInterp(ps) then None else Some((Quoted(ps), t))
    else
      var n := IdentLen(s);
      if n == 0 || s[..n] in KEYWORDS then None else Some((Ident(s[..n]), s[n..]))
  }

  function ParsePath(s: string): (r: Option<(seq<Seg>, string)>)
    ensures r.Some? ==> |r.value.1| < |s|
    decreases |s|
  {
    match ParseSeg(s)
    case None => None
    case Some((g, t)) =>
      if t == "" || t[0] != '.' then Some(([g], t))
      else match ParsePath(t[1..])
        case None => None
        case Some((gs, u)) => Some(([g] + gs, u))
  }

  function ParseSetBody(recur: string, s: string): (r: Option<(Value, string)>)
    ensures r.Some? ==> |r.value.1| < |s|
    decreases |s|, 3
  {
    match ParseEntries(s, false)
    case None => None
    case Some((es, close, t)) => Some((Set(recur, es, close), t[1..]))
  }

  function ParseValue(s: string): (r: Option<(Value, string)>)
    ensures r.Some? ==> |r.value.1| < |s|
    decreases |s|, 0
  {
    if s == "" then None
    else if s[0] == '"' then
      match ParseParts(s[1..])
      case None => None
      case Some((ps, t)) => Some((Str(ps), t))
    else if s[0] == '[' || s[0] == '(' then
      match ParseItems(s[1..], s[0] == '[')
      case None => None
      case Some((items, close, t)) => Some((Group(s[0] == '[', items, close), t))
    else if s[0] == '{' then ParseSetBody("", s[1..])
    else
      var n := AtomLen(s);
      var t := s[n..];
      if n == 0 || !AtomEnds(t) then None
      else if s[..n] == "rec" then
        var k := TriviaLen(t);
        if k < |t| && t[k] == '{' then ParseSetBody(s[..n + k], t[k + 1..]) else None
      else if s[..n] in KEYWORDS then None
      else Some((Atom(s[..n]), t))
  }

  /** Reads values up to and over the closing bracket. */
  function ParseItems(s: string, square: bool): (r: Option<(Items, string, string)>)
    ensures r.Some? ==> |r.value.2| < |s|
    decreases |s|, 1
  {
    var k := TriviaLen(s);
    var t := s[k..];
    if t == "" then None
    else if t[..1] == Closer(square) then Some((NoItem, s[..k], t[1..]))
    else match ParseValue(t)
      case None => None
      case Some((v, u)) =>
        match ParseItems(u, square)
        case None => None
        case Some((items, close, w)) => Some((Item(s[..k], v, items), close, w))
  }

  /** What follows the attribute path of a binding, from `=` to `;`. */
  function ParseBinding(lead: string, path: seq<Seg>, s: string): (r: Option<(Entry, string)>)
    ensures r.Some? ==> |r.value.1| < |s|
    decreases |s|, 1
  {
    var k := TriviaLen(s);
    if k == |s| || s[k] != '=' then None
    else
      var t := s[k + 1..];
      var m := TriviaLen(t);
      match ParseValue(t[m..])
      case None => None
      case Some((v, u)) =>
        var q := TriviaLen(u);
        if q == |u| || u[q] != ';' then None
        else Some((Bind(lead, path, s[..k], t[..m], v, u[..q]), u[q + 1..]))
  }

  function ParseInherit(lead: string, s: string): (r: Option<(Entry, string)>)
    ensures r.Some? ==> |r.value.1| < |s|
  {
    var n := Run(s, IsInheritChar);
    if n < |s| && s[n] == ';' then Some((Inherit(lead, s[..n]), s[n + 1..])) else None
  }

  function ParseEntry(lead: string, s: string): (r: Option<(Entry, string)>)
    ensures r.Some? ==> |r.value.1| < |s|
    decreases |s|, 1
  {
    if s[..IdentLen(s)] == "inherit" then ParseInherit(lead, s[IdentLen(s)..])
    else match ParsePath(s)
      case None => None
      case Some((path, t)) => ParseBinding(lead, path, t)
  }

  /** The bindings of a set end at `}`, those of a `let` at `in`. */
  predicate AtEnd(t: string, inLet: bool) {
    if inLet then t[..IdentLen(t)] == "in" else t != "" && t[0] == '}'
  }

  /** Reads bindings up to the end marker, which it leaves in place. */
  function ParseEntries(s: string, inLet: bool): (r: Option<(Entries, string, string)>)
    ensures r.Some? ==> |r.value.2| <= |s| && AtEnd(r.value.2, inLet) && r.value.2 != ""
    decreases |s|, 2
  {
    var k := TriviaLen(s);
    var t := s[k..];
    if AtEnd(t, inLet) then
      Some((NoEntry, s[..k], t))
    else match ParseEntry(s[..k], t)
      case None => None
      case Some((e, u)) =>
        match ParseEntries(u, inLet)
        case None => None
        case Some((es, close, w)) => Some((Cons(e, es), close, w))
  }

  /** The length of a lambda parameter at the start of `t`: an identifier or `{ a, … }`. */
  function ParamLen(t: string): (n: nat)
    ensures n <= |t|
  {
    if t != "" && t[0] == '{' then
      var n := 1 + Run(t[1..], IsParamChar);
      if n < |t| && t[n] == '}' then n + 1 else 0
    else if t[..IdentLen(t)] in KEYWORDS then 0
    else IdentLen(t)
  }

  predicate IsLambda(t: string) {
    var p := ParamLen(t);
    0 < p < |t| && t[p] == ':'
  }

  function ParseLambda(lead: string, t: string): (r: Option<(Root, string)>)
    requires IsLambda(t)
    ensures r.Some? ==> |r.value.1| < |t|
    decreases |t|, 0
  {
    var p := ParamLen(t);
    match ParseRoot(t[p + 1..])
    case None => None
    case Some((body, u)) => Some((Lambda(lead, t[..p], body), u))
  }

  function ParseLetIn(lead: string, t: string): (r: Option<(Root, string)>)
    requires t[..IdentLen(t)] == "let"
    ensures r.Some? ==> |r.value.1| < |t|
    decreases |t|, 0
  {
    assert |t[..IdentLen(t)]| == 3;
    match ParseEntries(t[3..], true)
    case None => None
    case Some((es, close, u)) =>
      assert |u[..IdentLen(u)]| == 2;
      match ParseRoot(u[2..])
      case None => None
      case Some((body, w)) => Some((LetIn(lead, es, close, body), w))
  }

  function ParseParen(lead: string, t: string): (r: Option<(Root, string)>)
    requires t != ""
    ensures r.Some? ==> |r.value.1| < |t|
    decreases |t|, 0
  {
    match ParseRoot(t[1..])
    case None => None
    case Some((body, u)) =>
      var m := TriviaLen(u);
      if m < |u| && u[m] == ')' then Some((Paren(lead, body, u[..m]), u[m + 1..])) else None
  }

  function ParseRoot(s: string): (r: Option<(Root, string)>)
    ensures r.Some? ==> |r.value.1| < |s|
    decreases |s|, 2
  {
    ParseHead(s[..TriviaLen(s)], s[TriviaLen(s)..])
  }

  /** Reads the file's expression after the trivia before it. */
  function ParseHead(lead: string, t: string): (r: Option<(Root, string)>)
    ensures r.Some? ==> |r.value.1| < |t|
    decreases |t|, 1
  {
    if IsLambda(t) then ParseLambda(lead, t)
    else if t[..IdentLen(t)] == "let" then ParseLetIn(lead, t)
    else if t != "" && t[0] == '(' then ParseParen(lead, t)
    else match ParseValue(t)
      case None => None
      case Some((v, u)) => Some((Bare(lead, v), u))
  }

  function ParseFile(s: string): Option<File> {
    match ParseRoot(s)
    case None => None
    case Some((root, tail)) => if TriviaLen(tail) == |tail| then Some(File(root, tail)) else None
  }

  /** The text is neither a function nor a `let`. */
  predicate NotSpecial(t: string) { !IsLambda(t) && t[..IdentLen(t)] != "let" }

  ghost predicate WFRoot(r: Root, rest: string) {
    match r
    case Bare(lead, v) =>
      IsTrivia(lead) && WFValue(v) && (v.Atom? ==> AtomEnds(rest)) &&
      !(v.Group? && !v.square) && NotSpecial(PutValue(v, rest))
    case Lambda(lead, param, body) => IsTrivia(lead) && WFParam(param) && WFRoot(body, rest)
    case LetIn(lead, entries, close, body) =>
      IsTrivia(lead) && WFEntries(entries) && IsTrivia(close) &&
      !StartsIdent(PutEntries(entries, close + ("in" + PutRoot(body, rest)))) &&
      !StartsIdent(PutRoot(body, rest)) && WFRoot(body, rest)
    case Paren(lead, body, close) =>
      IsTrivia(lead) && IsTrivia(close) && WFRoot(body, close + (")" + rest))
  }

  ghost predicate WFParam(param: string) {
    param != "" && ParamLen(param) == |param|
  }

  predicate StartsIdent(s: string) { s != "" && IsIdentChar(s[0]) }

  ghost predicate WFFile(f: File) {
    WFRoot(f.root, f.tail) && TriviaLen(f.tail) == |f.tail|
  }

  // ---------- the parser is sound: it only accepts what the printer prints ----------

  lemma ParsePartSound(s: string)
    requires ParsePart(s).Some?
    ensures var (p, t) := ParsePart(s).value;
      s == PutPart(p, t) && WFPart(p) && (p.Dollar? && t != "" ==> t[0] == '"' || t[0] == '\\')
  {
    var (p, t) := ParsePart(s).value;
    match p
    case Interp(body) =>
      RunTake(s[2..], IsInterpChar);
      assert body == s[2..][..|body|];
      assert s == "${" + (body + ("}" + t));
    case Esc(c) => assert s == "\\" + ([c] + t);
    case Pair(c) => assert s == "$" + ([c] + t);
    case _ =>
  }

  lemma {:induction false} ParsePartsSound(s: string)
    requires ParseParts(s).Some?
    ensures var (ps, t) := ParseParts(s).value; s == PutParts(ps, t) && WFParts(ps)
    decreases |s|
  {
    if s[0] == '"' {
      assert s == "\"" + s[1..];
    } else {
      ParsePartSound(s);
      var t := ParsePart(s).value.1;
      ParsePartsSound(t);
    }
  }

  lemma ParseSegSound(s: string)
    requires ParseSeg(s).Some?
    ensures var (g, t) := ParseSeg(s).value;
      s == PutSeg(g, t) && WFSeg(g) && (g.Ident? ==> t == "" || !IsIdentChar(t[0]))
  {
    if s[0] == '"' {
      ParsePartsSound(s[1..]);
      assert s == "\"" + s[1..];
    } else {
      IdentTake(s);
    }
  }

  lemma {:induction false} ParsePathSound(s: string)
    requires ParsePath(s).Some?
    ensures var (path, t) := ParsePath(s).value; s == PutPath(path, t) && WFPath(path)
    decreases |s|
  {
    ParseSegSound(s);
    var (g, t) := ParseSeg(s).value;
    if t != "" && t[0] == '.' {
      ParsePathSound(t[1..]);
      assert t == "." + t[1..];
      var gs := ParsePath(t[1..]).value.0;
      assert ([g] + gs)[1..] == gs;
    }
  }

  lemma {:induction false} ParseValueSound(s: string)
    requires ParseValue(s).Some?
    ensures var (v, t) := ParseValue(s).value;
      s == PutValue(v, t) && WFValue(v) && (v.Atom? ==> AtomEnds(t)) && (StartsAtom(v) ==> AtomLen(s) > 0)
    decreases |s|, 0
  {
    hide TriviaLen, PieceLen, IsTrivia;
    if s[0] == '"' {
      ParsePartsSound(s[1..]);
    } else if s[0] == '[' || s[0] == '(' {
      ParseItemsSound(s[1..], s[0] == '[');
    } else if s[0] == '{' {
      ParseSetBodySound("", s[1..]);
    } else {
      var n := AtomLen(s);
      var t := s[n..];
      AtomTake(s);
      if s[..n] == "rec" {
        var k := TriviaLen(t);
        TriviaCut(t, k, '{');
        RecCut(s, k);
        ParseSetBodySound(s[..n + k], t[k + 1..]);
      }
    }
  }

  lemma RecCut(s: string, k: nat)
    requires |s| > 3 + k && s[..3] == "rec" && s[3 + k] == '{' && IsTrivia(s[3..][..k])
    ensures WFRecur(s[..3 + k]) && s == s[..3 + k] + ("{" + s[3..][k + 1..])
  {
    assert s[..3 + k][3..] == s[3..][..k];
    assert s[..3 + k][..3] == "rec";
  }

  lemma {:induction false} ParseSetBodySound(recur: string, s: string)
    requires ParseSetBody(recur, s).Some? && WFRecur(recur)
    ensures var (v, t) := ParseSetBody(recur, s).value;
      v.Set? && recur + ("{" + s) == PutValue(v, t) && WFValue(v) && v.recur == recur
    decreases |s|, 3
  {
    hide TriviaLen, PieceLen, IsTrivia;
    ParseEntriesSound(s, false);
    var (es, close, t) := ParseEntries(s, false).value;
    assert t == "}" + t[1..];
  }

  lemma {:induction false} ParseItemsSound(s: string, square: bool)
    requires ParseItems(s, square).Some?
    ensures var (items, close, t) := ParseItems(s, square).value;
      s == PutItems(items, close + (Closer(square) + t)) && WFItems(items) && IsTrivia(close)
    decreases |s|, 1
  {
    hide TriviaLen, PieceLen, IsTrivia;
    var k := TriviaLen(s);
    var t := s[k..];
    TriviaTake(s);
    assert s == s[..k] + t;
    if t[..1] == Closer(square) {
      assert t == Closer(square) + t[1..];
    } else {
      ParseValueSound(t);
      var (v, u) := ParseValue(t).value;
      ParseItemsSound(u, square);
      var (items, close, w) := ParseItems(u, square).value;
      if v.Atom? && items.Item? && items.lead == "" && StartsAtom(items.item) {
        var x := u[TriviaLen(u)..];
        assert u[..TriviaLen(u)] == "";
        assert x == u;
        ParseValueSound(x);
        assert false;
      }
    }
  }

  lemma {:induction false} ParseBindingSound(lead: string, path: seq<Seg>, s: string)
    requires ParseBinding(lead, path, s).Some? && IsTrivia(lead) && WFPath(path)
    ensures var (e, t) := ParseBinding(lead, path, s).value;
      lead + PutPath(path, s) == PutEntry(e, t) && WFEntry(e)
    decreases |s|, 1
  {
    hide TriviaLen, PieceLen, IsTrivia;
    var k := TriviaLen(s);
    TriviaCut(s, k, '=');
    var t := s[k + 1..];
    var m := TriviaLen(t);
    ParseValueSound(t[m..]);
    TriviaSkip(t, m);
    var (v, u) := ParseValue(t[m..]).value;
    var q := TriviaLen(u);
    TriviaCut(u, q, ';');
  }

  lemma ParseInheritSound(lead: string, s: string)
    requires s[..IdentLen(s)] == "inherit" && ParseEntry(lead, s).Some? && IsTrivia(lead)
    ensures var (e, t) := ParseEntry(lead, s).value; lead + s == PutEntry(e, t) && WFEntry(e)
  {
    hide TriviaLen, PieceLen, IsTrivia, ParsePath, ParseBinding, PutPath, PutValue, IdentLen, Run, All;
    IdentTake(s);
    var t := s[IdentLen(s)..];
    var n := Run(t, IsInheritChar);
    RunTake(t, IsInheritChar);
    SemiCut(t, n);
    assert s == "inherit" + t;
  }

  lemma SemiCut(t: string, n: nat)
    requires n < |t| && t[n] == ';'
    ensures t == t[..n] + (";" + t[n + 1..])
  {
  }

  lemma {:induction false} ParseEntrySound(lead: string, s: string)
    requires ParseEntry(lead, s).Some? && IsTrivia(lead)
    ensures var (e, t) := ParseEntry(lead, s).value; lead + s == PutEntry(e, t) && WFEntry(e)
    decreases |s|, 1
  {
    hide TriviaLen, PieceLen, IsTrivia, ParsePath, ParseBinding, PutPath, PutValue;
    if s[..IdentLen(s)] == "inherit" {
      ParseInheritSound(lead, s);
    } else {
      ParsePathSound(s);
      var (path, t) := ParsePath(s).value;
      ParseBindingSound(lead, path, t);
    }
  }

  lemma {:induction false} ParseEntriesSound(s: string, inLet: bool)
    requires ParseEntries(s, inLet).Some?
    ensures var (es, close, t) := ParseEntries(s, inLet).value;
      s == PutEntries(es, close + t) && WFEntries(es) && IsTrivia(close)
    decreases |s|, 2
  {
    hide TriviaLen, PieceLen, IsTrivia;
    var k := TriviaLen(s);
    var t := s[k..];
    TriviaSkip(s, k);
    if !AtEnd(t, inLet) {
      ParseEntrySound(s[..k], t);
      ParseEntriesSound(ParseEntry(s[..k], t).value.1, inLet);
    }
  }

  lemma {:induction false} ParamTake(t: string, p: nat)
    requires p == ParamLen(t) > 0
    ensures WFParam(t[..p])
  {
    if t[0] == '{' {
      var m := Run(t[1..], IsParamChar);
      RunTake(t[1..], IsParamChar);
      assert t[..p][1..] == t[1..][..m] + "}";
      RunAppend(t[1..][..m], "}", IsParamChar);
    } else {
      IdentTake(t);
      assert t[..p][..IdentLen(t[..p])] == t[..p];
    }
  }

  lemma LambdaCut(t: string)
    requires IsLambda(t)
    ensures var p := ParamLen(t); WFParam(t[..p]) && t == t[..p] + (":" + t[p + 1..])
  {
    ParamTake(t, ParamLen(t));
  }

  lemma KeywordCut(t: string, word: string)
    requires word != "" && t[..IdentLen(t)] == word
    ensures |t| >= |word| && t == word + t[|word|..] && !StartsIdent(t[|word|..])
  {
    IdentTake(t);
  }

  lemma {:induction false} ParseLambdaSound(lead: string, t: string)
    requires IsLambda(t) && ParseLambda(lead, t).Some? && IsTrivia(lead)
    ensures var (r, u) := ParseLambda(lead, t).value; lead + t == PutRoot(r, u) && WFRoot(r, u)
    decreases |t|, 0
  {
    hide TriviaLen, PieceLen, IsTrivia;
    var p := ParamLen(t);
    var x := t[p + 1..];
    ParseRootSound(x);
    var (body, u) := ParseRoot(x).value;
    LambdaCut(t);
    assert PutRoot(Lambda(lead, t[..p], body), u) == lead + (t[..p] + (":" + x));
  }

  lemma {:induction false} ParseLetInSound(lead: string, t: string)
    requires t[..IdentLen(t)] == "let" && ParseLetIn(lead, t).Some? && IsTrivia(lead)
    ensures var (r, u) := ParseLetIn(lead, t).value; lead + t == PutRoot(r, u) && WFRoot(r, u)
    decreases |t|, 0
  {
    hide TriviaLen, PieceLen, IsTrivia;
    KeywordCut(t, "let");
    ParseEntriesSound(t[3..], true);
    var u := ParseEntries(t[3..], true).value.2;
    KeywordCut(u, "in");
    ParseRootSound(u[2..]);
  }

  lemma {:induction false} ParseParenSound(lead: string, t: string)
    requires t != "" && t[0] == '(' && ParseParen(lead, t).Some? && IsTrivia(lead)
    ensures var (r, u) := ParseParen(lead, t).value; lead + t == PutRoot(r, u) && WFRoot(r, u)
    decreases |t|, 0
  {
    hide TriviaLen, PieceLen, IsTrivia;
    ParseRootSound(t[1..]);
    var u := ParseRoot(t[1..]).value.1;
    TriviaCut(u, TriviaLen(u), ')');
    assert t == "(" + t[1..];
  }

  lemma {:induction false} ParseRootSound(s: string)
    requires ParseRoot(s).Some?
    ensures var (r, t) := ParseRoot(s).value; s == PutRoot(r, t) && WFRoot(r, t)
    decreases |s|, 1
  {
    hide TriviaLen, PieceLen, IsTrivia;
    var k := TriviaLen(s);
    var lead, t := s[..k], s[k..];
    assert ParseRoot(s) == ParseHead(lead, t);
    assert t != "" by {
      if t == "" { NothingParses(t); }
    }
    TriviaSkip(s, k);
    if IsLambda(t) {
      ParseLambdaSound(lead, t);
    } else if t[..IdentLen(t)] == "let" {
      ParseLetInSound(lead, t);
    } else if t[0] == '(' {
      ParseParenSound(lead, t);
    } else {
      ParseValueSound(t);
      var (v, u) := ParseValue(t).value;
      BareText(lead, v, u, t);
    }
  }

  lemma BareText(lead: string, v: Value, rest: string, t: string)
    requires t == PutValue(v, rest) && IsTrivia(lead) && WFValue(v) && (v.Atom? ==> AtomEnds(rest))
    requires t != "" && t[0] != '(' && !IsLambda(t) && t[..IdentLen(t)] != "let"
    ensures lead + t == PutRoot(Bare(lead, v), rest) && WFRoot(Bare(lead, v), rest)
  {
  }

  lemma NothingParses(t: string)
    requires t == ""
    ensures !IsLambda(t) && t[..IdentLen(t)] != "let" && ParseValue(t).None?
  {
  }

  // ---------- the parser is complete: it reads back whatever the printer prints ----------

  lemma ParsePartComplete(p: Part, rest: string)
    requires WFPart(p) && (p.Dollar? ==> rest != "" && (rest[0] == '"' || rest[0] == '\\'))
    ensures ParsePart(PutPart(p, rest)) == Some((p, rest))
  {
    var s := PutPart(p, rest);
    match p
    case Interp(body) =>
      assert s[2..] == body + ("}" + rest);
      RunAppend(body, "}" + rest, IsInterpChar);
      assert s[2..|body| + 2] == s[2..][..|body|] == body;
      assert s[|body| + 3..] == rest;
    case Esc(c) => assert s[2..] == rest;
    case Pair(c) => assert s[2..] == rest;
    case _ => assert s[1..] == rest;
  }

  lemma {:induction false} ParsePartsComplete(ps: seq<Part>, rest: string)
    requires WFParts(ps)
    ensures ParseParts(PutParts(ps, rest)) == Some((ps, rest))
  {
    var s := PutParts(ps, rest);
    if ps == [] {
      assert s[1..] == rest;
    } else {
      ParsePartsComplete(ps[1..], rest);
      var t := PutParts(ps[1..], rest);
      if ps[0].Dollar? && |ps| > 1 {
        assert ps[1..][0] == ps[1];
      }
      ParsePartComplete(ps[0], t);
      assert [ps[0]] + ps[1..] == ps;
      assert s[0] != '"';
    }
  }

  lemma ParseSegComplete(g: Seg, rest: string)
    requires WFSeg(g) && (rest == "" || !IsIdentChar(rest[0]))
    ensures ParseSeg(PutSeg(g, rest)) == Some((g, rest))
  {
    match g
    case Ident(name) =>
      IdentAppend(name, rest);
      assert (name + rest)[..|name|] == name;
    case Quoted(parts) =>
      ParsePartsComplete(parts, rest);
      assert ("\"" + PutParts(parts, rest))[1..] == PutParts(parts, rest);
  }

  lemma {:induction false} ParsePathComplete(path: seq<Seg>, rest: string)
    requires WFPath(path) && AtomEnds(rest)
    ensures ParsePath(PutPath(path, rest)) == Some((path, rest))
  {
    if |path| == 1 {
      ParseSegComplete(path[0], rest);
      assert [path[0]] == path;
    } else {
      ParsePathComplete(path[1..], rest);
      var t := "." + PutPath(path[1..], rest);
      ParseSegComplete(path[0], t);
      assert t[1..] == PutPath(path[1..], rest);
      assert [path[0]] + path[1..] == path;
    }
  }

  /** The first character of a printed path, and what the identifier scan sees there. */
  lemma PathStart(path: seq<Seg>, rest: string)
    requires WFPath(path) && AtomEnds(rest)
    ensures var s := PutPath(path, rest);
      PieceLen(s) == 0 && s != "" && s[0] != '}' && s[..IdentLen(s)] !in KEYWORDS
  {
    var t := if |path| == 1 then rest else "." + PutPath(path[1..], rest);
    var s := PutPath(path, rest);
    assert s == PutSeg(path[0], t);
    match path[0]
    case Ident(name) =>
      IdentAppend(name, t);
      assert s[..|name|] == name;
    case Quoted(parts) => assert s[0] == '"' && s[..0] == "";
  }

  lemma RecStarts(recur: string, t: string)
    requires WFRecur(recur) && recur != ""
    ensures var s := recur + ("{" + t);
      AtomLen(s) == 3 && s[..3] == "rec" && s[3..] == recur[3..] + ("{" + t) && AtomEnds(s[3..])
  {
    var s := recur + ("{" + t);
    assert s == "rec" + (recur[3..] + ("{" + t));
    TriviaEnds(recur[3..], "{" + t);
    AtomAppend("rec", recur[3..] + ("{" + t));
  }

  /** A printed value does not begin with trivia, a closing bracket or `=`. */
  lemma ValueStart(v: Value, rest: string)
    requires WFValue(v) && (v.Atom? ==> AtomEnds(rest))
    ensures var s := PutValue(v, rest);
      s != "" && PieceLen(s) == 0 && s[0] != ']' && s[0] != ')' && s[0] != '}'
    ensures !StartsAtom(v) ==> AtomEnds(PutValue(v, rest))
  {
    match v
    case Atom(text) =>
      assert (text + rest)[0] == text[0];
      AtomAppend(text, rest);
    case Str(parts) => assert PutValue(v, rest)[0] == '"';
    case Group(square, items, close) =>
    case Set(recur, entries, close) =>
      if recur != "" {
        RecStarts(recur, PutEntries(entries, close + ("}" + rest)));
      }
  }

  lemma {:induction false} ParseValueComplete(v: Value, rest: string)
    requires WFValue(v) && (v.Atom? ==> AtomEnds(rest))
    ensures ParseValue(PutValue(v, rest)) == Some((v, rest))
    decreases v, 0
  {
    hide TriviaLen, PieceLen, IsTrivia;
    var s := PutValue(v, rest);
    match v
    case Atom(text) =>
      AtomAppend(text, rest);
      assert s[..|text|] == text && s[|text|..] == rest;
    case Str(parts) =>
      ParsePartsComplete(parts, rest);
      assert s[1..] == PutParts(parts, rest);
    case Group(square, items, close) =>
      ParseItemsComplete(items, square, close, rest);
      assert s[1..] == PutItems(items, close + (Closer(square) + rest));
    case Set(recur, entries, close) =>
      ParseSetComplete(v, rest);
  }

  lemma {:induction false} ParseSetComplete(v: Value, rest: string)
    requires v.Set? && WFValue(v)
    ensures ParseValue(PutValue(v, rest)) == Some((v, rest))
    decreases v, 0, 0
  {
    hide TriviaLen, PieceLen, IsTrivia;
    var body := PutEntries(v.entries, v.close + ("}" + rest));
    NoPiece('}', rest);
    ParseEntriesComplete(v.entries, v.close, "}" + rest, false);
    assert ("}" + rest)[1..] == rest;
    assert ParseSetBody(v.recur, body) == Some((v, rest));
    BraceComplete(v.recur, body);
  }

  lemma BraceComplete(recur: string, body: string)
    requires WFRecur(recur)
    ensures ParseValue(recur + ("{" + body)) == ParseSetBody(recur, body)
  {
    hide ParseParts, ParseItems, ParseSetBody, TriviaLen, PieceLen, IsTrivia, AtomLen;
    var s := recur + ("{" + body);
    if recur == "" {
      assert s == "{" + body && s[1..] == body;
    } else {
      RecStarts(recur, body);
      var k := |recur| - 3;
      TriviaThen(recur[3..], '{', body);
      assert s[..3 + k] == recur;
    }
  }

  lemma {:induction false} ParseItemsComplete(items: Items, square: bool, close: string, rest: string)
    requires WFItems(items) && IsTrivia(close)
    ensures ParseItems(PutItems(items, close + (Closer(square) + rest)), square) == Some((items, close, rest))
    decreases items
  {
    hide TriviaLen, PieceLen, IsTrivia, ParseValue, PutValue, WFValue, StartsAtom, AtomEnds;
    var after := close + (Closer(square) + rest);
    match items
    case NoItem =>
      NoPiece(Closer(square)[0], rest);
      TriviaAppend(close, Closer(square) + rest);
      assert (Closer(square) + rest)[1..] == rest;
    case Item(lead, item, tail) =>
      var u := PutItems(tail, after);
      if item.Atom? {
        ItemsEnd(item, tail, square, close, rest);
      }
      ValueStart(item, u);
      TriviaAppend(lead, PutValue(item, u));
      ParseValueComplete(item, u);
      ParseItemsComplete(tail, square, close, rest);
  }

  /** After an atom in a list comes something that ends it. */
  lemma ItemsEnd(item: Value, tail: Items, square: bool, close: string, rest: string)
    requires WFItems(tail) && IsTrivia(close)
    requires tail.Item? && tail.lead == "" ==> !StartsAtom(tail.item)
    ensures AtomEnds(PutItems(tail, close + (Closer(square) + rest)))
  {
    match tail
    case NoItem => TriviaEnds(close, Closer(square) + rest);
    case Item(lead, next, more) =>
      var t := PutItems(more, close + (Closer(square) + rest));
      if lead == "" {
        ValueStart(next, t);
      }
      TriviaEnds(lead, PutValue(next, t));
  }

  lemma {:induction false} ParseBindingComplete(e: Entry, rest: string)
    requires e.Bind? && WFEntry(e)
    ensures ParseBinding(e.lead, e.path,
        e.pre + ("=" + (e.post + PutValue(e.value, e.semi + (";" + rest))))) == Some((e, rest))
    decreases e, 0
  {
    hide TriviaLen, PieceLen, IsTrivia;
    TriviaThen(e.semi, ';', rest);
    var u := e.semi + (";" + rest);
    ValueStart(e.value, u);
    ParseValueComplete(e.value, u);
    TriviaAppend(e.post, PutValue(e.value, u));
    var t := e.post + PutValue(e.value, u);
    TriviaThen(e.pre, '=', t);
    BindingSteps(e, e.pre + ("=" + t), t, PutValue(e.value, u), u, rest);
  }

  lemma BindingSteps(e: Entry, s: string, t: string, w: string, u: string, rest: string)
    requires e.Bind?
    requires TriviaLen(s) == |e.pre| < |s| && s[..|e.pre|] == e.pre && s[|e.pre|] == '=' && s[|e.pre| + 1..] == t
    requires TriviaLen(t) == |e.post| && t[..|e.post|] == e.post && t[|e.post|..] == w
    requires ParseValue(w) == Some((e.value, u))
    requires TriviaLen(u) == |e.semi| < |u| && u[..|e.semi|] == e.semi && u[|e.semi|] == ';' && u[|e.semi| + 1..] == rest
    ensures ParseBinding(e.lead, e.path, s) == Some((e, rest))
  {
    hide TriviaLen, PieceLen, IsTrivia;
  }

  lemma {:induction false} ParseEntriesComplete(es: Entries, close: string, rest: string, inLet: bool)
    requires WFEntries(es) && IsTrivia(close) && rest != "" && AtEnd(rest, inLet) && PieceLen(rest) == 0
    ensures ParseEntries(PutEntries(es, close + rest), inLet) == Some((es, close, rest))
    decreases es
  {
    hide TriviaLen, PieceLen, IsTrivia;
    match es
    case NoEntry => TriviaAppend(close, rest);
    case Cons(e, tail) =>
      ParseEntriesComplete(tail, close, rest, inLet);
      ParseEntryComplete(e, PutEntries(tail, close + rest));
  }

  function EntryText(e: Entry, rest: string): string {
    match e
    case Bind(lead, path, pre, post, value, semi) =>
      PutPath(path, pre + ("=" + (post + PutValue(value, semi + (";" + rest)))))
    case Inherit(lead, body) => "inherit" + (body + (";" + rest))
  }

  lemma {:induction false} ParseEntryComplete(e: Entry, rest: string)
    requires WFEntry(e)
    ensures var s, k := PutEntry(e, rest), |e.lead|;
      TriviaLen(s) == k && s[..k] == e.lead && !AtEnd(s[k..], true) && !AtEnd(s[k..], false) &&
      ParseEntry(e.lead, s[k..]) == Some((e, rest))
    decreases e, 1
  {
    hide TriviaLen, PieceLen, IsTrivia, ParsePath, ParseBinding, PutPath, PutValue, WFPath, WFValue;
    var s := EntryText(e, rest);
    match e {
      case Inherit(lead, body) => InheritStart(body, rest);
      case Bind(lead, path, pre, post, value, semi) =>
        var u := post + PutValue(value, semi + (";" + rest));
        TriviaThen(pre, '=', u);
        PathStart(path, pre + ("=" + u));
        ParsePathComplete(path, pre + ("=" + u));
        ParseBindingComplete(e, rest);
    }
    TriviaAppend(e.lead, s);
  }

  lemma InheritStart(body: string, rest: string)
    requires All(body, IsInheritChar)
    requires body == "" || !IsIdentChar(body[0])
    ensures var s := "inherit" + (body + (";" + rest));
      PieceLen(s) == 0 && s[0] != '}' && s[..IdentLen(s)] == "inherit" &&
      forall lead :: ParseEntry(lead, s) == Some((Inherit(lead, body), rest))
  {
    var t := body + (";" + rest);
    var s := "inherit" + t;
    IdentAppend("inherit", t);
    assert s[..7] == "inherit" && s[7..] == t;
    RunAppend(body, ";" + rest, IsInheritChar);
    assert t[..|body|] == body && t[|body| + 1..] == rest;
  }

  lemma ParamAppend(param: string, rest: string)
    requires WFParam(param) && (rest == "" || !IsIdentChar(rest[0]))
    ensures ParamLen(param + rest) == |param|
  {
    var t := param + rest;
    if param[0] == '{' {
      var n := Run(param[1..], IsParamChar);
      RunTake(param[1..], IsParamChar);
      assert t[1..] == param[1..][..n] + ("}" + rest);
      RunAppend(param[1..][..n], "}" + rest, IsParamChar);
    } else {
      assert param[..IdentLen(param)] == param;
      IdentAppend(param, rest);
      assert t[..|param|] == param;
    }
  }

  lemma IsLambdaText(param: string, x: string)
    requires WFParam(param)
    ensures var t := param + (":" + x);
      IsLambda(t) && PieceLen(t) == 0 && ParamLen(t) == |param| && t[..|param|] == param && t[|param| + 1..] == x
  {
    ParamAppend(param, ":" + x);
    ParamStart(param, ":" + x);
  }

  lemma ParamStart(param: string, rest: string)
    requires WFParam(param)
    ensures PieceLen(param + rest) == 0
  {
    assert (param + rest)[0] == param[0];
    assert param[0] == '{' || IsIdentStart(param[0]);
  }

  lemma KeywordText(word: string, rest: string)
    requires word == "let" || word == "in"
    requires !StartsIdent(rest)
    ensures var t := word + rest;
      t[..IdentLen(t)] == word && t[|word|..] == rest && PieceLen(t) == 0 && !IsLambda(t)
  {
    IdentAppend(word, rest);
    var t := word + rest;
    assert t[..|word|] == word;
  }

  lemma {:induction false} ParseRootComplete(r: Root, rest: string)
    requires WFRoot(r, rest)
    ensures ParseRoot(PutRoot(r, rest)) == Some((r, rest))
  {
    hide TriviaLen, PieceLen, IsTrivia;
    match r
    case Bare(lead, v) => ParseBareComplete(lead, v, rest);
    case Lambda(lead, param, body) =>
      ParseRootComplete(body, rest);
      ParseLambdaComplete(lead, param, body, rest);
    case LetIn(lead, entries, close, body) =>
      ParseRootComplete(body, rest);
      ParseLetInComplete(lead, entries, close, body, rest);
    case Paren(lead, body, close) =>
      ParseRootComplete(body, close + (")" + rest));
      ParseParenComplete(lead, body, close, rest);
  }

  lemma ParseBareComplete(lead: string, v: Value, rest: string)
    requires WFRoot(Bare(lead, v), rest)
    ensures ParseRoot(PutRoot(Bare(lead, v), rest)) == Some((Bare(lead, v), rest))
  {
    hide TriviaLen, PieceLen, IsTrivia;
    ValueStart(v, rest);
    TriviaAppend(lead, PutValue(v, rest));
    ParseValueComplete(v, rest);
    BareNotSpecial(v, rest);
    assert ParseRoot(lead + PutValue(v, rest)) == ParseHead(lead, PutValue(v, rest));
  }

  lemma ParseLambdaComplete(lead: string, param: string, body: Root, rest: string)
    requires IsTrivia(lead) && WFParam(param)
    requires ParseRoot(PutRoot(body, rest)) == Some((body, rest))
    ensures var r := Lambda(lead, param, body); ParseRoot(PutRoot(r, rest)) == Some((r, rest))
  {
    hide TriviaLen, PieceLen, IsTrivia;
    var x := PutRoot(body, rest);
    var t := param + (":" + x);
    IsLambdaText(param, x);
    assert ParseLambda(lead, t) == Some((Lambda(lead, param, body), rest));
    TriviaAppend(lead, t);
    assert ParseRoot(lead + t) == ParseHead(lead, t);
  }

  lemma ParseLetInComplete(lead: string, entries: Entries, close: string, body: Root, rest: string)
    requires WFRoot(LetIn(lead, entries, close, body), rest)
    requires ParseRoot(PutRoot(body, rest)) == Some((body, rest))
    ensures var r := LetIn(lead, entries, close, body); ParseRoot(PutRoot(r, rest)) == Some((r, rest))
  {
    hide TriviaLen, PieceLen, IsTrivia;
    var x := PutRoot(body, rest);
    var y := PutEntries(entries, close + ("in" + x));
    KeywordText("in", x);
    KeywordText("let", y);
    ParseEntriesComplete(entries, close, "in" + x, true);
    TriviaAppend(lead, "let" + y);
    assert ParseLetIn(lead, "let" + y) == Some((LetIn(lead, entries, close, body), rest));
    assert ParseRoot(lead + ("let" + y)) == ParseHead(lead, "let" + y);
  }

  lemma ParseParenComplete(lead: string, body: Root, close: string, rest: string)
    requires IsTrivia(lead) && IsTrivia(close)
    requires ParseRoot(PutRoot(body, close + (")" + rest))) == Some((body, close + (")" + rest)))
    ensures var r := Paren(lead, body, close); ParseRoot(PutRoot(r, rest)) == Some((r, rest))
  {
    hide TriviaLen, PieceLen, IsTrivia, IsLambda, ParamLen, IdentLen, ParseRoot, ParseParen, ParseValue;
    var x := PutRoot(body, close + (")" + rest));
    TriviaThen(close, ')', rest);
    ParenSteps(lead, "(" + x, x, body, close, rest);
    ParenAt(lead, "(" + x);
  }

  lemma ParenAt(lead: string, t: string)
    requires IsTrivia(lead) && t != "" && t[0] == '('
    ensures ParseRoot(lead + t) == ParseParen(lead, t)
  {
    assert IdentLen(t) == 0 && t[..0] == "";
    TriviaAppend(lead, t);
    assert ParseRoot(lead + t) == ParseHead(lead, t);
  }

  lemma ParenSteps(lead: string, t: string, x: string, body: Root, close: string, rest: string)
    requires t == "(" + x && ParseRoot(x) == Some((body, close + (")" + rest)))
    requires var u := close + (")" + rest);
      TriviaLen(u) == |close| < |u| && u[|close|] == ')' && u[..|close|] == close && u[|close| + 1..] == rest
    ensures ParseParen(lead, t) == Some((Paren(lead, body, close), rest))
  {
    hide TriviaLen, PieceLen, IsTrivia;
    assert t[1..] == x;
  }

  lemma BareNotSpecial(v: Value, rest: string)
    requires WFValue(v) && (v.Atom? ==> AtomEnds(rest)) && !(v.Group? && !v.square)
    ensures var t := PutValue(v, rest); t != "" && t[0] != '('
  {
    ValueStart(v, rest);
    match v
    case Atom(text) => AtomAppend(text, rest);
    case Str(parts) =>
    case Group(square, items, close) =>
    case Set(recur, entries, close) =>
      if recur != "" {
        RecStarts(recur, PutEntries(entries, close + ("}" + rest)));
      }
  }

  // ---------- parser and printer are inverse ----------

  /** Printing what was parsed gives the text back (the round-trip law), and the tree is
      well formed. */
  lemma PrintParse(s: string)
    requires ParseFile(s).Some?
    ensures Print(ParseFile(s).value) == s && WFFile(ParseFile(s).value)
  {
    ParseRootSound(s);
  }

  /** Parsing what was printed gives the tree back. */
  lemma ParsePrint(f: File)
    requires WFFile(f)
    ensures ParseFile(Print(f)) == Some(f)
  {
    ParseRootComplete(f.root, f.tail);
  }
}
