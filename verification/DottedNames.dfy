/** What a set does whose new binding spells out segments that are no identifiers.  The segments
    are joined by dots without quotes, so one that holds dots is read as several: if all the
    pieces are identifiers the file parses and binds another path, and if one is none the edit is
    refused as invalid. */
module DottedNames {
  import opened EditorLaws
  import opened NixBind
  import opened NixConfigFile
  import opened NixEdit
  import opened NixParser
  import opened NixReject
  import opened NixSyntax
  import opened NixValues
  import opened Options
  import opened Strings

  // ---------- which joined texts are read as names ----------

  lemma {:induction false} AllAt(s: string, p: char -> bool, i: nat)
    requires All(s, p) && i < |s|
    ensures p(s[i])
  {
    if i == 0 {
    } else {
      AllAt(s[1..], p, i - 1);
    }
  }

  lemma {:induction false} RunStops(s: string, p: char -> bool, k: nat)
    requires k < |s| && !p(s[k])
    ensures Run(s, p) <= k
  {
    if k > 0 && p(s[0]) { RunStops(s[1..], p, k - 1); }
  }

  lemma RunBefore(x: string, u: string, p: char -> bool)
    requires u == "" || !p(u[0])
    ensures Run(x + u, p) == Run(x, p)
  {
    var n := Run(x, p);
    RunTake(x, p);
    assert x + u == x[..n] + (x[n..] + u);
    RunAppend(x[..n], x[n..] + u, p);
  }

  /** A segment that is read from plain text and `u` is an identifier at its start. */
  lemma SegOfName(x: string, u: string) returns (n: nat)
    requires Plain(x) && u != "" && u[0] == ' ' && ParseSeg(x + u).Some?
    ensures 0 < n <= |x| && IsIdent(x[..n]) && Pieces(x[..n]) == [x[..n]]
    ensures ParseSeg(x + u).value.1 == x[n..] + u
  {
    hide Pieces, ParseParts;
    var s := x + u;
    n := IdentLen(s);
    if x != "" {
      AllAt(x, IsPlainChar, 0);
      RunBefore(x, u, IsIdentChar);
      RunTake(x, IsIdentChar);
      assert s[..n] == x[..n] && s[n..] == x[n..] + u;
      IdentHasNoDot(x[..n]);
    }
  }

  /** An attribute path that is read from plain text and `u` takes in all of the text, piece by
      piece, or stops at something that is no equals sign. */
  lemma {:induction false} PathOfName(x: string, u: string)
    requires Plain(x) && u != "" && u[0] == ' '
    ensures match ParsePath(x + u)
      case None => true
      case Some((_, t)) => (x != "" && AllIdents(Pieces(x))) || (t != "" && PieceLen(t) == 0 && t[0] != '=')
    decreases |x|
  {
    hide PieceLen, ParseSeg, IsIdent, Plain, Pieces;
    var s := x + u;
    if ParseSeg(s).Some? {
      var n := SegOfName(x, u);
      if n == |x| {
        assert x[..n] == x && x[n..] + u == u;
      } else {
        PlainAt(x, n);
        PlainStops(x[n], x[n..] + u);
        if x[n] == '.' {
          PlainFrom(x, n + 1);
          assert (x[n..] + u)[1..] == x[n + 1..] + u;
          PathOfName(x[n + 1..], u);
          assert x == x[..n] + ("." + x[n + 1..]);
          PiecesConcat(x[..n], x[n + 1..]);
        }
      }
    }
  }

  lemma PlainAt(x: string, i: nat)
    requires Plain(x) && i < |x|
    ensures IsPlainChar(x[i])
  {
    AllAt(x, IsPlainChar, i);
  }

  lemma PlainStops(c: char, t: string)
    requires IsPlainChar(c) && t != "" && t[0] == c
    ensures PieceLen(t) == 0 && c != '='
  {
  }

  lemma {:induction false} PlainFrom(x: string, k: nat)
    requires Plain(x) && k <= |x|
    ensures Plain(x[k..])
  {
    if k == 0 {
    } else {
      PlainFrom(x[1..], k - 1);
      assert x[k..] == x[1..][k - 1..];
    }
  }

  lemma InheritFails(x: string, rest: string, lead: string)
    requires Plain(x)
    ensures var s := NameThen(x, rest);
      s[..IdentLen(s)] == "inherit" ==> ParseInherit(lead, s[IdentLen(s)..]).None?
  {
    var u := " " + ("=" + rest);
    var s := NameThen(x, rest);
    if s[..IdentLen(s)] == "inherit" {
      assert s[|x|] == ' ';
      RunStops(s, IsIdentChar, |x|);
      assert |s[..IdentLen(s)]| == 7;
      var y := x[7..];
      var t := s[7..];
      assert t == y + u;
      var n := Run(t, IsInheritChar);
      assert t[|y| + 1] == '=';
      RunStops(t, IsInheritChar, |y| + 1);
      if n < |y| { AllAt(x, IsPlainChar, 7 + n); }
    }
  }

  /** Plain text of which one piece is no identifier is read as no name. */
  lemma NotAName(x: string)
    requires x != "" && Plain(x) && !AllIdents(Pieces(x))
    ensures Unnameable(x)
  {
    hide ParsePath, TriviaLen, PieceLen, Pieces, IdentLen, ParseValue, ParseInherit;
    forall lead, rest
      ensures ParseEntry(lead, NameThen(x, rest)).None?
    {
      InheritFails(x, rest, lead);
      PathOfName(x, " " + ("=" + rest));
      assert NameThen(x, rest) == x + (" " + ("=" + rest));
      var s := NameThen(x, rest);
      if s[..IdentLen(s)] != "inherit" && ParsePath(s).Some? {
        var (path, t) := ParsePath(s).value;
        NoEquals(lead, path, t);
      }
    }
  }

  lemma NoEquals(lead: string, path: seq<Seg>, t: string)
    requires t != "" && PieceLen(t) == 0 && t[0] != '='
    ensures ParseBinding(lead, path, t).None?
  {
  }

  // ---------- setting a path whose rest is plain ----------

  /** Nothing but a name can come of what a binding for the path would spell out. */
  predicate PlainRest(source: string, path: Path) {
    ToWrite(source, path) == [] || (Join(ToWrite(source, path), ".") != "" && Plain(Join(ToWrite(source, path), ".")))
  }

  lemma {:induction false} IdentIsPlain(s: string)
    requires All(s, IsIdentChar)
    ensures Plain(s)
  {
    if s == "" {
    } else {
      IdentIsPlain(s[1..]);
    }
  }

  lemma {:induction false} PlainAppend(a: string, b: string)
    requires Plain(a) && Plain(b)
    ensures Plain(a + b)
  {
    if a == "" {
      assert a + b == b;
    } else {
      assert (a + b)[1..] == a[1..] + b;
      PlainAppend(a[1..], b);
    }
  }

  lemma {:induction false} JoinIsPlain(path: Path)
    requires path != [] && AllIdents(path)
    ensures Join(path, ".") != "" && Plain(Join(path, "."))
  {
    hide Plain;
    IdentIsPlain(path[0]);
    if |path| == 1 {
    } else {
      JoinIsPlain(path[1..]);
      DotIsPlain();
      PlainAppend(".", Join(path[1..], "."));
      PlainAppend(path[0], "." + Join(path[1..], "."));
    }
  }

  lemma DotIsPlain()
    ensures Plain(".")
  {
  }

  /** Identifiers are plain. */
  lemma IdentsArePlain(source: string, path: Path)
    requires AllIdents(ToWrite(source, path))
    ensures PlainRest(source, path)
  {
    hide ToWrite, Plain, Join;
    if ToWrite(source, path) != [] { JoinIsPlain(ToWrite(source, path)); }
  }

  lemma RestFits(source: string, path: Path)
    ensures |ToWrite(source, path)| <= |path|
  {
    if IsSetFile(source) { CoveredAndRemaining(Top(ParseFile(source).value).value, path); }
  }

  /** The path that is bound by setting `path`: what existing sets cover, and the pieces of the
      rest. */
  function BoundAt(source: string, path: Path): Path {
    RestFits(source, path);
    path[..|path| - |ToWrite(source, path)|] + Spelled(source, path)
  }

  /** It is the path itself, or longer. */
  lemma BoundIsLonger(source: string, path: Path)
    ensures |BoundAt(source, path)| >= |path|
    ensures |BoundAt(source, path)| == |path| ==> BoundAt(source, path) == path
    ensures AllIdents(ToWrite(source, path)) ==> BoundAt(source, path) == path
    ensures AllIdents(Spelled(source, path)) && BoundAt(source, path) == path ==> AllIdents(ToWrite(source, path))
  {
    hide Pieces, IsIdent;
    RestFits(source, path);
    var rest := ToWrite(source, path);
    var k := |path| - |rest|;
    RestEnds(source, path);
    assert path == path[..k] + rest;
    if rest != [] {
      PiecesOfJoin(rest);
      assert BoundAt(source, path)[k..] == Spelled(source, path);
    }
  }

  lemma RestEnds(source: string, path: Path)
    ensures |ToWrite(source, path)| <= |path|
    ensures path[|path| - |ToWrite(source, path)|..] == ToWrite(source, path)
  {
    if IsSetFile(source) {
      var es := Top(ParseFile(source).value).value;
      CoveredAndRemaining(es, path);
      assert path[|Covered(es, path)|..] == Remaining(es, path);
    }
  }

  /** Two identifiers that a longer path starts with are bound as they are. */
  lemma BoundStarts(source: string, path: Path)
    requires |path| > 2 && IsIdent(path[0]) && IsIdent(path[1])
    ensures |BoundAt(source, path)| > 2 && BoundAt(source, path)[..2] == path[..2]
  {
    hide Pieces, IsIdent, ToWrite, Join;
    BoundIsLonger(source, path);
    RestEnds(source, path);
    var rest := ToWrite(source, path);
    var k := |path| - |rest|;
    var at := BoundAt(source, path);
    if k < 2 {
      PiecesCons(rest);
      assert at[k] == rest[0];
      if k == 0 {
        PiecesCons(rest[1..]);
        assert at[1] == rest[1..][0];
      }
    }
  }

  /** The edited tree of an insertion, with the binding under the names that it spells. */
  lemma SpelledParses(source: string, f: File, path: Path, v: Value)
    requires HasPlace(source, f, path) && WFValue(v) && AllIdents(Spelled(source, path))
    ensures var es' := BindIn(Top(f).value, path, Spelled(source, path), LeadAt(source, f, path), v);
      ParseFile(Print(Edited(source, f, path, v))) == Some(WithTop(f, es')) && Top(WithTop(f, es')) == Some(es')
  {
    hide Stopped, Get, Edited, LeadAt, Pieces, ToWrite, WFValue, ParseFile, Join;
    RestIsThere(source, f, path);
    JoinPieces(Join(ToWrite(source, path), "."));
    var names, lead := Spelled(source, path), LeadAt(source, f, path);
    EditedText(source, f, path, names, v);
    var es' := BindIn(Top(f).value, path, names, lead, v);
    SpelledWF(source, f, path, names, lead, v);
    ParsePrint(WithTop(f, es'));
    TopEdited(f, es');
  }

  lemma SpelledWF(source: string, f: File, path: Path, names: Path, lead: string, v: Value)
    requires HasPlace(source, f, path) && WFValue(v) && names != [] && AllIdents(names) && IsTrivia(lead)
    ensures WFFile(WithTop(f, BindIn(Top(f).value, path, names, lead, v)))
  {
    hide IsTrivia, WFValue, IsIdent, Get;
    PrintParse(source);
    TopWF(f.root, f.tail);
    BindWF(Top(f).value, path, names, lead, v);
    EditedRootWF(f.root, BindIn(Top(f).value, path, names, lead, v), f.tail);
  }

  /** Where the rest of the path is plain nothing is accepted but pieces that are identifiers. */
  lemma OnlyNamesAreAccepted(source: string, path: Path, x: string)
    requires path != [] && PlainRest(source, path) && SetText(source, path, x).0 == Done
    ensures AllIdents(Spelled(source, path))
  {
    hide SetText, Pieces, Unnameable, IsIdent;
    if !AllIdents(Spelled(source, path)) {
      NotAName(Join(ToWrite(source, path), "."));
      UnnameableIsRejected(source, path, x);
    }
  }

  /** The outcome of setting a path whose rest is plain: invalid exactly if a binding is to be
      added of which some piece between the dots is no identifier. */
  lemma SpelledOutcome(source: string, f: File, path: Path, v: Value)
    requires ParseFile(source) == Some(f) && path != [] && WFValue(v) && PlainRest(source, path)
    ensures var r := SetText(source, path, PrintValue(v)).0;
      && (r == NotFound <==> Refused(f, path))
      && (r == Panicked <==> NeedsRec(f, path))
      && (r == InvalidValue <==> !Refused(f, path) && !NeedsRec(f, path) && !AllIdents(Spelled(source, path)))
  {
    hide Edited, Pieces, WFValue, Unnameable, PrintValue, IsIdent;
    FoundIsGet(f, path);
    if Top(f).Some? {
      PointIsNotStopped(f, path);
      CandidateIsEdited(source, f, path, v);
      hide ParseFile, Stopped, FindFile, Get, SetOf, PointFile, Candidate;
      if Get(Top(f).value, path).Some? {
        EditedWF(source, f, path, v);
      } else if !Refused(f, path) {
        assert HasPlace(source, f, path);
        RestIsThere(source, f, path);
        if AllIdents(Spelled(source, path)) {
          SpelledParses(source, f, path, v);
        } else {
          if SetText(source, path, PrintValue(v)).0 == Done { OnlyNamesAreAccepted(source, path, PrintValue(v)); }
        }
      }
    }
  }

  /** The path was set, and nothing but a name came of the rest of it. */
  ghost predicate SetSpelled(source: string, path: Path, v: Value, after: string) {
    path != [] && WFValue(v) && PlainRest(source, path) && SetText(source, path, PrintValue(v)) == (Done, after)
  }

  lemma SpelledTree(source: string, path: Path, v: Value, after: string)
    requires SetSpelled(source, path, v, after)
    ensures IsSetFile(source) && AllIdents(Spelled(source, path))
    ensures AllIdents(ToWrite(source, path)) ==> SetTo(source, path, v, after)
    ensures !AllIdents(ToWrite(source, path)) ==>
      var f := ParseFile(source).value;
      && HasPlace(source, f, path)
      && Spelled(source, path) != []
      && BoundAt(source, path) == Covered(Top(f).value, path) + Spelled(source, path)
      && IsSetFile(after)
      && Top(ParseFile(after).value).value
         == BindIn(Top(f).value, path, Spelled(source, path), LeadAt(source, f, path), v)
  {
    hide Edited, Pieces, WFValue, PrintValue, IsIdent, Join, LeadAt, BindIn;
    var f := ParseFile(source).value;
    SpelledOutcome(source, f, path, v);
    FoundIsGet(f, path);
    if Top(f).Some? {
      PointIsNotStopped(f, path);
      CandidateIsEdited(source, f, path, v);
      hide ParseFile, Stopped, FindFile, Get, SetOf, PointFile, Candidate;
      if !AllIdents(ToWrite(source, path)) {
        assert HasPlace(source, f, path);
        RestIsThere(source, f, path);
        SpelledParses(source, f, path, v);
        CoveredIsBefore(source, f, path);
      }
    }
  }

  lemma CoveredIsBefore(source: string, f: File, path: Path)
    requires HasPlace(source, f, path)
    ensures BoundAt(source, path) == Covered(Top(f).value, path) + Spelled(source, path)
  {
    hide Pieces, Join;
    RestFits(source, path);
    CoveredAndRemaining(Top(f).value, path);
    assert path[..|path| - |ToWrite(source, path)|] == Covered(Top(f).value, path);
  }

  /** After a successful set whose rest is plain the path is bound, to the value set, if and only
      if all segments that were spelled out are identifiers.  Otherwise it is not bound at all,
      but the path is that the dots make of it, unless that was bound before. */
  lemma SetIsReadExactly(source: string, path: Path, v: Value, after: string)
    requires SetSpelled(source, path, v, after)
    ensures AllIdents(ToWrite(source, path)) ==> ValueAt(after, path) == Some(v)
    ensures !AllIdents(ToWrite(source, path)) ==> ValueAt(after, path).None? && BoundAt(source, path) != path
    ensures ValueAt(source, BoundAt(source, path)).None? ==> ValueAt(after, BoundAt(source, path)) == Some(v)
  {
    hide SetText, ParseFile, LeadAt, BindIn, Spelled, WFValue, PlainRest, SetTo, BoundAt;
    SpelledTree(source, path, v, after);
    BoundIsLonger(source, path);
    if AllIdents(ToWrite(source, path)) {
      GetAfterSet(source, path, v, after);
    } else {
      var f, at := ParseFile(source).value, BoundAt(source, path);
      var es, names, lead := Top(f).value, Spelled(source, path), LeadAt(source, f, path);
      GetBound(es, path, names, lead, v, path);
      if ValueAt(source, at).None? { BoundValue(es, path, names, lead, v); }
    }
  }

  lemma BoundValue(es: Entries, p: Path, names: Path, lead: string, v: Value)
    requires !Stopped(es, p) && names != [] && !(Covered(es, p) + names < p)
    requires Get(es, Covered(es, p) + names).None?
    ensures Get(BindIn(es, p, names, lead, v), Covered(es, p) + names) == Some(v)
  {
    GetBound(es, p, names, lead, v, Covered(es, p) + names);
  }

  /** A successful set of an unbound path makes the text longer. */
  lemma AddingIsLonger(source: string, path: Path, x: string, after: string)
    requires path != [] && ValueAt(source, path).None? && SetText(source, path, x) == (Done, after)
    ensures |after| > |source|
  {
    var f := ParseFile(source).value;
    FoundIsGet(f, path);
    hide ParseFile, Lead, Join, Descend, Get, FindIn, SetOf, IsLiteralSet;
    assert FindFile(f, path).None?;
    SpliceIsLonger(source, f, path, x);
  }

  lemma SpliceIsLonger(source: string, f: File, path: Path, x: string)
    requires ParseFile(source) == Some(f) && path != [] && FindFile(f, path).None?
    requires Candidate(source, f, path, x).0 == Done
    ensures |Candidate(source, f, path, x).1| > |source|
  {
    hide ParseFile, Join, FindFile, PointFile, EntryIndent, PutEntries, PutRoot, InsertIn, WithTop, IsLiteralSet;
    PrintParse(source);
    SpliceIsInsert(f, path, Atom(""));
    var ip := PointFile(f, path).value;
    assert Lead(source, ip)[0] == '\n';
    assert |Lead(source, ip)| > 0;
    PieceInserted(source, InsertAt(ip), Lead(source, ip) + (Join(ip.remaining, ".") + (" = " + (x + ";"))));
  }

  lemma PieceInserted(source: string, at: nat, piece: string)
    requires at <= |source|
    ensures |source[..at] + (piece + source[at..])| == |source| + |piece|
  {
  }

  /** Repeating the set changes nothing if and only if all segments that were spelled out are
      identifiers; otherwise it does not succeed or adds the binding once more. */
  lemma SetAgainExactly(source: string, path: Path, v: Value, after: string)
    requires SetSpelled(source, path, v, after)
    ensures SetText(after, path, PrintValue(v)) == (Done, after) <==> AllIdents(ToWrite(source, path))
  {
    hide SetText, PlainRest, WFValue, ToWrite, Spelled, ParseFile;
    SpelledTree(source, path, v, after);
    SetIsReadExactly(source, path, v, after);
    if AllIdents(ToWrite(source, path)) {
      SetAgain(source, path, v, after);
    } else if SetText(after, path, PrintValue(v)).0 == Done {
      AddingIsLonger(after, path, PrintValue(v), SetText(after, path, PrintValue(v)).1);
    }
  }

  /** Does an existing binding stop the walk for the path? */
  predicate IsBlocked(source: string, path: Path) {
    IsSetFile(source) && ValueAt(source, path).None? && Stopped(Top(ParseFile(source).value).value, path)
  }

  /** Paths that are not comparable with the path set and that do not lie below the path bound
      are read as before; what blocked them still does, and unless they are blocked now a
      binding for them would be spelled as before. */
  lemma ElsewhereAfterSpelled(source: string, path: Path, v: Value, after: string, q: Path)
    requires SetSpelled(source, path, v, after) && !Comparable(path, q) && !(BoundAt(source, path) <= q)
    ensures ValueAt(after, q) == ValueAt(source, q)
    ensures IsBlocked(source, q) ==> IsBlocked(after, q)
    ensures !IsBlocked(after, q) ==> ToWrite(after, q) == ToWrite(source, q)
  {
    hide SetText, ParseFile, LeadAt, BindIn, Spelled, WFValue, PlainRest, SetTo, BoundAt;
    SpelledTree(source, path, v, after);
    if AllIdents(ToWrite(source, path)) {
      OthersAfterSet(source, path, v, after, q);
      WalkAfterSet(source, path, v, after, q);
    } else {
      var f := ParseFile(source).value;
      var es, names, lead := Top(f).value, Spelled(source, path), LeadAt(source, f, path);
      GetBound(es, path, names, lead, v, q);
      WalkAfterBind(es, path, names, lead, v, q);
    }
  }

  /** The same for the path itself, if it was not bound. */
  lemma RestAfterSpelled(source: string, path: Path, v: Value, after: string)
    requires SetSpelled(source, path, v, after) && !AllIdents(ToWrite(source, path))
    ensures !IsBlocked(after, path) ==> ToWrite(after, path) == ToWrite(source, path)
  {
    hide SetText, ParseFile, LeadAt, BindIn, Spelled, WFValue, PlainRest, SetTo, BoundAt;
    SpelledTree(source, path, v, after);
    BoundIsLonger(source, path);
    SetIsReadExactly(source, path, v, after);
    var f := ParseFile(source).value;
    WalkAfterBind(Top(f).value, path, Spelled(source, path), LeadAt(source, f, path), v, path);
  }

  /** Below a path that is no extension of the path set or of the one bound, the names gain the
      next segment of the one bound, if that lies below it. */
  lemma KeysAfterSpelled(source: string, path: Path, v: Value, after: string, q: Path)
    requires SetSpelled(source, path, v, after) && !(path <= q) && !(BoundAt(source, path) <= q)
    ensures var at := BoundAt(source, path);
      KeySetAt(after, q) == KeySetAt(source, q) + (if q < at then {at[|q|]} else {})
  {
    hide SetText, ParseFile, LeadAt, BindIn, Spelled, WFValue, PlainRest, SetTo, BoundAt;
    SpelledTree(source, path, v, after);
    if AllIdents(ToWrite(source, path)) {
      BoundIsLonger(source, path);
      KeysAfterSet(source, path, v, after, q);
    } else {
      var f := ParseFile(source).value;
      KeySetIsKeySet(source, q);
      KeySetIsKeySet(after, q);
      KeysBound(Top(f).value, path, Spelled(source, path), LeadAt(source, f, path), v, q);
    }
  }
}
