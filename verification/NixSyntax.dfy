/** A lossless syntax tree for the Nix fragment that the dashboard edits.
    Every character of a file, comments and white space included, sits in exactly
    one field of the tree, so printing a tree gives back the whole file.

    The printer is written with an explicit continuation: `PutValue(v, rest)` is the
    text of `v` followed by `rest`.  This keeps every concatenation nested to the right,
    which is the order in which the parser takes the text apart again. */
module NixSyntax {

  // ---------- characters ----------

  predicate IsSpace(c: char) { c == ' ' || c == '\n' || c == '\t' || c == '\r' }

  /** Unicode white space. */
  predicate IsWhitespace(c: char) {
    var n := c as int;
    9 <= n <= 13 || n == 0x20 || n == 0x85 || n == 0xA0 || n == 0x1680 || 0x2000 <= n <= 0x200A ||
    n == 0x2028 || n == 0x2029 || n == 0x202F || n == 0x205F || n == 0x3000
  }

  predicate IsIdentStart(c: char) { 'a' <= c <= 'z' || 'A' <= c <= 'Z' || c == '_' }

  predicate IsIdentChar(c: char) { IsIdentStart(c) || '0' <= c <= '9' || c == '\'' || c == '-' }

  /** Characters of identifiers, numbers, selections and paths. */
  predicate IsAtomChar(c: char) { IsIdentChar(c) || c == '.' || c == '/' }

  /** What the fragment allows between `${` and `}`: a plain selection. */
  predicate IsInterpChar(c: char) { IsIdentChar(c) || c == '.' || c == ' ' }

  /** What a lambda's `{ a, b ? c, ... }` pattern consists of in the fragment. */
  predicate IsParamChar(c: char) { IsAtomChar(c) || IsSpace(c) || c == ',' || c == '?' || c == '@' }

  /** What follows `inherit`: names, and optionally a source in parentheses. */
  predicate IsInheritChar(c: char) { IsIdentChar(c) || IsSpace(c) || c == '(' || c == ')' || c == '.' }

  predicate IsBlockStart(s: string) { |s| >= 2 && s[0] == '/' && s[1] == '*' }

  const KEYWORDS := { "rec", "let", "in", "inherit", "if", "then", "else", "assert", "with" }

  /** The length of the longest prefix of `s` whose characters all satisfy `p`. */
  function Run(s: string, p: char -> bool): (n: nat)
    ensures n <= |s|
  {
    if s == "" || !p(s[0]) then 0 else 1 + Run(s[1..], p)
  }

  /** Do all characters of `s` satisfy `p`? */
  predicate All(s: string, p: char -> bool) { Run(s, p) == |s| }

  lemma {:induction false} RunAppend(a: string, rest: string, p: char -> bool)
    requires All(a, p)
    requires rest == "" || !p(rest[0])
    ensures Run(a + rest, p) == |a|
  {
    if a == "" {
      assert a + rest == rest;
    } else {
      assert (a + rest)[1..] == a[1..] + rest;
      RunAppend(a[1..], rest, p);
    }
  }

  lemma {:induction false} RunTake(s: string, p: char -> bool)
    ensures All(s[..Run(s, p)], p)
    ensures Run(s, p) < |s| ==> !p(s[Run(s, p)])
  {
    var n := Run(s, p);
    if n == 0 {
    } else {
      RunTake(s[1..], p);
      assert s[..n][1..] == s[1..][..n - 1];
    }
  }

  // ---------- trees ----------

  /** A piece of a double-quoted string.  `Pair(c)` is a dollar sign with the character
      after it (so that `$${` is no interpolation), `Dollar` one before a quote or a
      backslash. */
  datatype Part = Chr(c: char) | Esc(c: char) | Pair(c: char) | Dollar | Interp(body: string)

  datatype Seg = Ident(name: string) | Quoted(parts: seq<Part>)

  datatype Value =
    | Atom(text: string)
    | Str(parts: seq<Part>)
    | Group(square: bool, items: Items, close: string)    // [ … ] or ( … )
    | Set(recur: string, entries: Entries, close: string)  // recur is "" or "rec" and trivia

  datatype Items = NoItem | Item(lead: string, item: Value, tail: Items)

  datatype Entries = NoEntry | Cons(entry: Entry, tail: Entries)

  datatype Entry =
    | Bind(lead: string, path: seq<Seg>, pre: string, post: string, value: Value, semi: string)
    | Inherit(lead: string, body: string)

  /** The file's expression: function headers, `let … in` and parentheses around a value. */
  datatype Root =
    | Bare(lead: string, value: Value)
    | Lambda(lead: string, param: string, body: Root)
    | LetIn(lead: string, entries: Entries, close: string, body: Root)
    | Paren(lead: string, body: Root, close: string)

  datatype File = File(root: Root, tail: string)

  // ---------- printing ----------

  function PutPart(p: Part, rest: string): string {
    match p
    case Chr(c) => [c] + rest
    case Esc(c) => "\\" + ([c] + rest)
    case Pair(c) => "$" + ([c] + rest)
    case Dollar => "$" + rest
    case Interp(body) => "${" + (body + ("}" + rest))
  }

  /** The parts, the closing quote, then `rest`. */
  function PutParts(ps: seq<Part>, rest: string): string {
    if ps == [] then "\"" + rest else PutPart(ps[0], PutParts(ps[1..], rest))
  }

  function PutSeg(g: Seg, rest: string): string {
    match g
    case Ident(name) => name + rest
    case Quoted(parts) => "\"" + PutParts(parts, rest)
  }

  function PutPath(path: seq<Seg>, rest: string): string {
    if path == [] then rest
    else if |path| == 1 then PutSeg(path[0], rest)
    else PutSeg(path[0], "." + PutPath(path[1..], rest))
  }

  function Open(square: bool): string { if square then "[" else "(" }
  function Closer(square: bool): string { if square then "]" else ")" }

  function PutValue(v: Value, rest: string): string {
    match v
    case Atom(text) => text + rest
    case Str(parts) => "\"" + PutParts(parts, rest)
    case Group(square, items, close) => Open(square) + PutItems(items, close + (Closer(square) + rest))
    case Set(recur, entries, close) => recur + ("{" + PutEntries(entries, close + ("}" + rest)))
  }

  function PutItems(items: Items, rest: string): string {
    match items
    case NoItem => rest
    case Item(lead, item, tail) => lead + PutValue(item, PutItems(tail, rest))
  }

  function PutEntry(e: Entry, rest: string): string {
    match e
    case Bind(lead, path, pre, post, value, semi) =>
      lead + PutPath(path, pre + ("=" + (post + PutValue(value, semi + (";" + rest)))))
    case Inherit(lead, body) => lead + ("inherit" + (body + (";" + rest)))
  }

  function PutEntries(es: Entries, rest: string): string {
    match es
    case NoEntry => rest
    case Cons(entry, tail) => PutEntry(entry, PutEntries(tail, rest))
  }

  function PutRoot(r: Root, rest: string): string {
    match r
    case Bare(lead, value) => lead + PutValue(value, rest)
    case Lambda(lead, param, body) => lead + (param + (":" + PutRoot(body, rest)))
    case LetIn(lead, entries, close, body) =>
      lead + ("let" + PutEntries(entries, close + ("in" + PutRoot(body, rest))))
    case Paren(lead, body, close) => lead + ("(" + PutRoot(body, close + (")" + rest)))
  }

  function Print(f: File): string { PutRoot(f.root, f.tail) }

  function PrintValue(v: Value): string { PutValue(v, "") }

  // The continuation is nothing but a suffix.

  lemma {:induction false} PutPartsSplit(ps: seq<Part>, rest: string)
    ensures PutParts(ps, rest) == PutParts(ps, "") + rest
  {
    if ps == [] {
    } else {
      PutPartsSplit(ps[1..], rest);
      var t := PutParts(ps[1..], "");
      match ps[0]
      case Chr(c) => assert [c] + (t + rest) == ([c] + t) + rest;
      case Esc(c) => assert "\\" + ([c] + (t + rest)) == ("\\" + ([c] + t)) + rest;
      case Pair(c) => assert "$" + ([c] + (t + rest)) == ("$" + ([c] + t)) + rest;
      case Dollar => assert "$" + (t + rest) == ("$" + t) + rest;
      case Interp(b) => assert "${" + (b + ("}" + (t + rest))) == ("${" + (b + ("}" + t))) + rest;
    }
  }

  lemma {:induction false} PutPathSplit(path: seq<Seg>, rest: string)
    ensures PutPath(path, rest) == PutPath(path, "") + rest
  {
    if path == [] {
    } else {
      var tail := if |path| == 1 then "" else "." + PutPath(path[1..], "");
      if |path| > 1 {
        PutPathSplit(path[1..], rest);
        assert "." + (PutPath(path[1..], "") + rest) == tail + rest;
      } else {
        assert tail + rest == rest;
      }
      match path[0]
      case Ident(name) => assert name + (tail + rest) == (name + tail) + rest;
      case Quoted(parts) =>
        PutPartsSplit(parts, tail + rest);
        PutPartsSplit(parts, tail);
        assert "\"" + (PutParts(parts, "") + (tail + rest)) == ("\"" + (PutParts(parts, "") + tail)) + rest;
    }
  }

  lemma {:induction false} PutValueSplit(v: Value, rest: string)
    ensures PutValue(v, rest) == PrintValue(v) + rest
    decreases v
  {
    match v
    case Atom(text) =>
    case Str(parts) => PutPartsSplit(parts, rest);
    case Group(square, items, close) =>
      var k := close + Closer(square);
      PutItemsSplit(items, k + rest);
      PutItemsSplit(items, k + "");
      assert close + (Closer(square) + rest) == k + rest;
      assert close + (Closer(square) + "") == k + "";
      assert PutValue(v, rest) == Open(square) + (PutItems(items, "") + (k + rest));
      assert PrintValue(v) == Open(square) + (PutItems(items, "") + (k + ""));
    case Set(recur, entries, close) =>
      var k := close + "}";
      PutEntriesSplit(entries, k + rest);
      PutEntriesSplit(entries, k + "");
      assert close + ("}" + rest) == k + rest;
      assert close + ("}" + "") == k + "";
      assert PutValue(v, rest) == recur + ("{" + (PutEntries(entries, "") + (k + rest)));
      assert PrintValue(v) == recur + ("{" + (PutEntries(entries, "") + (k + "")));
  }

  lemma {:induction false} PutItemsSplit(items: Items, rest: string)
    ensures PutItems(items, rest) == PutItems(items, "") + rest
    decreases items
  {
    match items
    case NoItem =>
    case Item(lead, item, tail) =>
      PutItemsSplit(tail, rest);
      var t := PutItems(tail, "");
      PutValueSplit(item, t + rest);
      PutValueSplit(item, t);
      assert lead + (PrintValue(item) + (t + rest)) == (lead + (PrintValue(item) + t)) + rest;
  }

  lemma {:induction false} PutEntrySplit(e: Entry, rest: string)
    ensures PutEntry(e, rest) == PutEntry(e, "") + rest
    decreases e
  {
    match e
    case Inherit(lead, body) =>
      assert lead + ("inherit" + (body + (";" + rest))) == (lead + ("inherit" + (body + (";" + "")))) + rest;
    case Bind(lead, path, pre, post, value, semi) =>
      var k := semi + ";";
      PutValueSplit(value, k + rest);
      PutValueSplit(value, k + "");
      assert semi + (";" + rest) == k + rest;
      assert semi + (";" + "") == k + "";
      var m := pre + ("=" + (post + (PrintValue(value) + k)));
      assert pre + ("=" + (post + (PrintValue(value) + (k + rest)))) == m + rest;
      assert pre + ("=" + (post + (PrintValue(value) + (k + "")))) == m;
      PutPathSplit(path, m + rest);
      PutPathSplit(path, m);
      assert lead + (PutPath(path, "") + (m + rest)) == (lead + (PutPath(path, "") + m)) + rest;
  }

  lemma {:induction false} PutEntriesSplit(es: Entries, rest: string)
    ensures PutEntries(es, rest) == PutEntries(es, "") + rest
    decreases es
  {
    match es
    case NoEntry =>
    case Cons(entry, tail) =>
      PutEntriesSplit(tail, rest);
      var t := PutEntries(tail, "");
      PutEntrySplit(entry, t + rest);
      PutEntrySplit(entry, t);
      assert (PutEntry(entry, "") + t) + rest == PutEntry(entry, "") + (t + rest);
  }

  lemma {:induction false} PutRootSplit(r: Root, rest: string)
    ensures PutRoot(r, rest) == PutRoot(r, "") + rest
  {
    match r
    case Bare(lead, value) =>
      PutValueSplit(value, rest);
      assert lead + (PrintValue(value) + rest) == (lead + PrintValue(value)) + rest;
    case Lambda(lead, param, body) =>
      PutRootSplit(body, rest);
      var t := PutRoot(body, "");
      assert lead + (param + (":" + (t + rest))) == (lead + (param + (":" + t))) + rest;
    case LetIn(lead, entries, close, body) =>
      PutRootSplit(body, rest);
      var t := close + ("in" + PutRoot(body, ""));
      assert close + ("in" + (PutRoot(body, "") + rest)) == t + rest;
      PutEntriesSplit(entries, t + rest);
      PutEntriesSplit(entries, t);
      assert lead + ("let" + (PutEntries(entries, "") + (t + rest)))
          == (lead + ("let" + (PutEntries(entries, "") + t))) + rest;
    case Paren(lead, body, close) =>
      var k := close + ")";
      PutRootSplit(body, k + rest);
      PutRootSplit(body, k);
      assert close + (")" + rest) == k + rest;
      assert close + (")" + "") == k;
      assert lead + ("(" + (PutRoot(body, "") + (k + rest))) == (lead + ("(" + (PutRoot(body, "") + k))) + rest;
  }
}
