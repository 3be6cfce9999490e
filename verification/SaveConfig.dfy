/** Saving: all edits are applied to one candidate, and the file is replaced by writing a
    temporary sibling and renaming it.  The editor law says what is read afterwards. */
module SaveConfig {
  import opened Options
  import opened NixSyntax
  import opened NixParser
  import opened NixValues
  import opened NixEdit
  import opened NixConfigFile
  import opened EditorLaws
  import opened Dashboard
  import opened NixReject
  import opened DottedNames

  // ---------- all or nothing ----------

  /** Applies the edits in order; the first one that fails ends it.  An empty path fails the
      assertion that it is not. */
  function ApplyEdits(source: string, edits: seq<ConfigEdit>): (SetResult, string)
    decreases |edits|
  {
    if edits == [] then (Done, source)
    else if edits[0].path == [] then (Panicked, source)
    else
      var (r, after) := SetText(source, edits[0].path, edits[0].text);
      if r == Done then ApplyEdits(after, edits[1..]) else (r, source)
  }

  /** Where a save may be cut short: an error or a crash. */
  datatype Stop = Never | InWrite(written: nat) | BeforeRename

  datatype SaveResult = Saved | Missing | ReadFailed | NotNix | EditFailed(error: SetResult) | IoFailed

  /** The files of the box, each with its whole text. */
  class Disk {
    var files: map<string, string>

    /** Writes a temporary file, then renames it over the target.  Wherever it stops, the
        target holds its whole old or its whole new text, and no third file changes. */
    method WriteAtomic(target: string, tmp: string, contents: string, stop: Stop) returns (ok: bool)
      requires tmp != target
      modifies this
      ensures ok <==> stop == Never
      ensures ok ==> files == old(files)[target := contents] - {tmp}
      ensures !ok ==> files - {tmp} == old(files) - {tmp}
    {
      if stop.InWrite? {
        files := files[tmp := contents[..if stop.written <= |contents| then stop.written else |contents|]];
        return false;
      }
      files := files[tmp := contents];
      if stop == BeforeRename { return false; }
      files := files[target := files[tmp]] - {tmp};
      ok := true;
    }

    /** `readable` says whether reading an existing file succeeds. */
    method Save(target: string, tmp: string, edits: seq<ConfigEdit>, readable: bool, stop: Stop) returns (r: SaveResult)
      requires tmp != target
      modifies this
      ensures r == Missing <==> target !in old(files)
      ensures r == ReadFailed <==> target in old(files) && !readable
      ensures r == NotNix <==> target in old(files) && readable && ParseFile(old(files)[target]).None?
      ensures target in old(files) && readable && ParseFile(old(files)[target]).Some? ==>
        var (outcome, after) := ApplyEdits(old(files)[target], edits);
        && (outcome != Done ==> r == EditFailed(outcome))
        && (outcome == Done ==> r == if stop == Never then Saved else IoFailed)
        && (r == Saved ==> files == old(files)[target := after] - {tmp})
      ensures r != Saved ==> files - {tmp} == old(files) - {tmp}
      ensures !r.IoFailed? && r != Saved ==> files == old(files)
    {
      hide SetText, ParseFile;
      if target !in files { return Missing; }
      if !readable { return ReadFailed; }
      var candidate := ConfigFile.Parse(files[target]);
      if candidate == null { return NotNix; }
      assert edits[0..] == edits;
      for i := 0 to |edits|
        invariant candidate.Valid() && fresh(candidate)
        invariant files == old(files)
        invariant ApplyOutcome(ApplyEdits(old(files)[target], edits), ApplyEdits(candidate.source, edits[i..]))
      {
        assert edits[i..][0] == edits[i] && edits[i..][1..] == edits[i + 1..];
        if edits[i].path == [] { return EditFailed(Panicked); }
        var error := candidate.SetAttrpath(edits[i].path, edits[i].text);
        if error != Done { return EditFailed(error); }
      }
      assert edits[|edits|..] == [];
      var ok := WriteAtomic(target, tmp, candidate.source, stop);
      r := if ok then Saved else IoFailed;
    }
  }

  /** The same outcome, and the same text if it is a success. */
  predicate ApplyOutcome(a: (SetResult, string), b: (SetResult, string)) {
    a.0 == b.0 && (a.0 == Done ==> a.1 == b.1)
  }

  // ---------- rendered edits take effect ----------

  /** The edit can be written: what its insertion would have to spell out are identifiers. */
  predicate CanWrite(source: string, p: Planned) {
    p.path != [] && !p.value.Other? && AllIdents(ToWrite(source, p.path))
  }

  predicate PlanApart(plan: seq<Planned>) {
    forall i, j :: 0 <= i < j < |plan| ==> !Comparable(plan[i].path, plan[j].path)
  }

  /** After the first of the edits the others can still be written. */
  lemma RestCanBeWritten(source: string, plan: seq<Planned>, v: Value, mid: string)
    requires plan != [] && PlanApart(plan) && SetTo(source, plan[0].path, v, mid)
    requires forall i :: 0 <= i < |plan| ==> CanWrite(source, plan[i])
    ensures PlanApart(plan[1..])
    ensures forall i :: 0 <= i < |plan[1..]| ==>
      CanWrite(mid, plan[1..][i]) && (CanSet(mid, plan[1..][i]) <==> CanSet(source, plan[i + 1]))
  {
    hide SetTo, ToWrite, NodeRead, Settable;
    forall i | 0 <= i < |plan[1..]|
      ensures CanWrite(mid, plan[1..][i]) && (CanSet(mid, plan[1..][i]) <==> CanSet(source, plan[i + 1]))
    {
      var p := plan[i + 1];
      assert plan[1..][i] == p;
      SettableElsewhere(source, plan[0].path, v, mid, p.path, Atom(""));
      if NodeRead(p.value).Some? {
        SettableElsewhere(source, plan[0].path, v, mid, p.path, NodeRead(p.value).value);
      }
    }
  }

  /** Could this edit be saved alone? */
  ghost predicate CanSet(source: string, p: Planned) {
    NodeRead(p.value).Some? && Settable(source, p.path, NodeRead(p.value).value)
  }

  lemma SetsExactly(source: string, p: Planned)
    requires CanWrite(source, p)
    ensures CanSet(source, p) <==> SetText(source, p.path, ToSource(p.value)).0 == Done
    ensures CanSet(source, p) ==>
      SetTo(source, p.path, NodeRead(p.value).value, SetText(source, p.path, ToSource(p.value)).1)
  {
    hide SetText, ToWrite, NodeRead, ToSource;
    var (r, after) := SetText(source, p.path, ToSource(p.value));
    ReadAsExactly(p.value);
    if r == Done { WrittenIsSetAsRead(source, p.path, p.value, after); }
  }

  /** A save goes through exactly if each of its edits could be saved alone. */
  lemma {:induction false} SavesExactly(source: string, plan: seq<Planned>)
    requires forall i :: 0 <= i < |plan| ==> CanWrite(source, plan[i])
    requires PlanApart(plan)
    ensures ApplyEdits(source, Rendered(plan)).0 == Done <==> forall i :: 0 <= i < |plan| ==> CanSet(source, plan[i])
    decreases |plan|
  {
    hide SetText, ToSource, Settable, ToWrite, NodeRead, SetTo;
    if plan == [] {
    } else {
      var p, rest := plan[0], plan[1..];
      SetsExactly(source, p);
      if CanSet(source, p) {
        var mid := SetText(source, p.path, ToSource(p.value)).1;
        RestCanBeWritten(source, plan, NodeRead(p.value).value, mid);
        assert forall i :: 0 <= i < |rest| ==> Rendered(rest)[i] == Rendered(plan)[i + 1];
        SavesExactly(mid, rest);
        assert forall i :: 0 < i < |plan| ==> (CanSet(source, plan[i]) <==> CanSet(mid, rest[i - 1]));
      }
    }
  }

  /** Nothing but a name can come of what the edit's insertion would spell out, or it is blocked. */
  predicate CanTry(source: string, p: Planned) {
    p.path != [] && !p.value.Other? && (IsBlocked(source, p.path) || PlainRest(source, p.path))
  }

  /** Only the longest paths may have segments that are no identifiers. */
  predicate Levelled(plan: seq<Planned>) {
    forall i, j :: 0 <= i < |plan| && 0 <= j < |plan| && i != j ==>
      AllIdents(plan[i].path) || |plan[j].path| <= |plan[i].path|
  }

  lemma TriedIsSet(source: string, p: Planned, mid: string)
    requires CanTry(source, p) && SetText(source, p.path, ToSource(p.value)) == (Done, mid)
    ensures !IsBlocked(source, p.path) && NodeRead(p.value).Some? && AllIdents(Spelled(source, p.path))
    ensures SetSpelled(source, p.path, NodeRead(p.value).value, mid)
  {
    hide SetText, ToSource, NodeRead, ParseFile, Spelled, ToWrite;
    NotFoundIsRefused(source, p.path, ToSource(p.value));
    OnlyNamesAreAccepted(source, p.path, ToSource(p.value));
    AcceptedIsRead(source, p.path, p.value);
  }

  /** After the first of the edits the others can still be tried, with the same effect. */
  lemma RestCanBeTried(source: string, plan: seq<Planned>, v: Value, mid: string)
    requires plan != [] && PlanApart(plan) && Levelled(plan)
    requires forall i :: 0 <= i < |plan| ==> CanTry(source, plan[i])
    requires SetSpelled(source, plan[0].path, v, mid)
    ensures forall i :: 0 < i < |plan| ==>
      var p := plan[i];
      && CanTry(mid, p)
      && ValueAt(mid, p.path) == ValueAt(source, p.path)
      && (IsBlocked(source, p.path) ==> IsBlocked(mid, p.path))
      && (!IsBlocked(mid, p.path) ==> ToWrite(mid, p.path) == ToWrite(source, p.path))
    ensures PlanApart(plan[1..]) && Levelled(plan[1..])
  {
    hide SetSpelled, ToWrite, ValueAt, BoundAt, IsBlocked, IsIdent;
    var path := plan[0].path;
    forall i | 0 < i < |plan|
      ensures !Comparable(path, plan[i].path) && !(BoundAt(source, path) <= plan[i].path)
    {
      BoundIsLonger(source, path);
      if AllIdents(path) { IdentsCanBeWritten(source, path); }
    }
    forall i | 0 < i < |plan|
      ensures var p := plan[i];
        && CanTry(mid, p)
        && ValueAt(mid, p.path) == ValueAt(source, p.path)
        && (IsBlocked(source, p.path) ==> IsBlocked(mid, p.path))
        && (!IsBlocked(mid, p.path) ==> ToWrite(mid, p.path) == ToWrite(source, p.path))
    {
      ElsewhereAfterSpelled(source, path, v, mid, plan[i].path);
    }
  }

  /** What a successful save changes.  A planned path is bound to the value that its text is read
      as if all segments that were spelled out for it are identifiers, and not bound otherwise;
      every path apart from all that are planned or bound instead is read as before. */
  lemma {:induction false} PlanTakesEffect(source: string, plan: seq<Planned>, after: string, q: Path)
    requires forall i :: 0 <= i < |plan| ==> CanTry(source, plan[i])
    requires PlanApart(plan) && Levelled(plan)
    requires ApplyEdits(source, Rendered(plan)) == (Done, after)
    ensures forall i :: 0 <= i < |plan| ==>
      !IsBlocked(source, plan[i].path) && NodeRead(plan[i].value).Some? && AllIdents(Spelled(source, plan[i].path))
    ensures forall i :: 0 <= i < |plan| && plan[i].path == q ==>
      ValueAt(after, q) == if AllIdents(ToWrite(source, q)) then NodeRead(plan[i].value) else None
    ensures (forall i :: 0 <= i < |plan| ==> !Comparable(plan[i].path, q) && !(BoundAt(source, plan[i].path) <= q)) ==>
      ValueAt(after, q) == ValueAt(source, q)
    decreases |plan|
  {
    hide SetText, ToSource, ValueAt, NodeRead, FindText, SetSpelled, IsBlocked, ToWrite, PlainRest, BoundAt, Spelled,
      IsIdent;
    if plan == [] {
    } else {
      var p, rest := plan[0], plan[1..];
      var mid := SetText(source, p.path, ToSource(p.value)).1;
      TriedIsSet(source, p, mid);
      var v := NodeRead(p.value).value;
      RestCanBeTried(source, plan, v, mid);
      assert forall i :: 0 <= i < |rest| ==> Rendered(rest)[i] == Rendered(plan)[i + 1];
      assert forall i :: 0 < i < |plan| ==> plan[i] == rest[i - 1];
      PlanTakesEffect(mid, rest, after, q);
      forall i | 0 < i < |plan|
        ensures BoundAt(mid, plan[i].path) == BoundAt(source, plan[i].path)
        ensures Spelled(mid, plan[i].path) == Spelled(source, plan[i].path)
      {
        SameBoundAt(source, mid, plan[i].path);
      }
      if p.path == q {
        SetIsReadExactly(source, p.path, v, mid);
        forall i | 0 < i < |plan| ensures !Comparable(plan[i].path, q) && !(BoundAt(source, plan[i].path) <= q) {
          BoundIsLonger(source, plan[i].path);
          if AllIdents(plan[i].path) { IdentsCanBeWritten(source, plan[i].path); }
        }
      } else if !Comparable(p.path, q) && !(BoundAt(source, p.path) <= q) {
        ElsewhereAfterSpelled(source, p.path, v, mid, q);
      }
    }
  }

  lemma SameBoundAt(source: string, mid: string, path: Path)
    requires ToWrite(mid, path) == ToWrite(source, path)
    ensures BoundAt(mid, path) == BoundAt(source, path) && Spelled(mid, path) == Spelled(source, path)
  {
  }

  /** A path that stays unbound is blocked after the save, or would be spelled as before. */
  lemma {:induction false} PlanLeavesRest(source: string, plan: seq<Planned>, after: string, q: Path)
    requires forall i :: 0 <= i < |plan| ==> CanTry(source, plan[i])
    requires PlanApart(plan) && Levelled(plan)
    requires ApplyEdits(source, Rendered(plan)) == (Done, after)
    requires forall i :: 0 <= i < |plan| ==>
      if plan[i].path == q then IsBlocked(source, q) || !AllIdents(ToWrite(source, q))
      else !Comparable(plan[i].path, q) && !(BoundAt(source, plan[i].path) <= q)
    ensures IsBlocked(source, q) ==> IsBlocked(after, q)
    ensures !IsBlocked(after, q) ==> ToWrite(after, q) == ToWrite(source, q)
    decreases |plan|
  {
    hide SetText, ToSource, ValueAt, NodeRead, FindText, SetSpelled, IsBlocked, ToWrite, PlainRest, BoundAt, AllIdents;
    if plan == [] {
    } else {
      var p, rest := plan[0], plan[1..];
      var mid := SetText(source, p.path, ToSource(p.value)).1;
      TriedIsSet(source, p, mid);
      var v := NodeRead(p.value).value;
      RestCanBeTried(source, plan, v, mid);
      assert forall i :: 0 <= i < |rest| ==> Rendered(rest)[i] == Rendered(plan)[i + 1];
      assert forall i :: 0 < i < |plan| ==> plan[i] == rest[i - 1];
      PlanTakesEffect(mid, rest, after, q);
      forall i | 0 < i < |plan| ensures BoundAt(mid, plan[i].path) == BoundAt(source, plan[i].path) {
        SameBoundAt(source, mid, plan[i].path);
      }
      if p.path == q {
        RestAfterSpelled(source, q, v, mid);
      } else {
        ElsewhereAfterSpelled(source, p.path, v, mid, q);
      }
      PlanLeavesRest(mid, rest, after, q);
    }
  }

  lemma ReadIsValueAt(source: string, q: Path)
    ensures Read(source, q) == match ValueAt(source, q) case None => None case Some(v) => Some(Interpret(v))
  {
    FindTextIsValueAt(source, q);
  }

  /** The name that an edit adds below `q`, if it is bound below it. */
  predicate AddsName(source: string, p: Planned, q: Path, k: string) {
    q < BoundAt(source, p.path) && BoundAt(source, p.path)[|q|] == k
  }

  /** A successful save adds to the names below `q` exactly the next segments of what it binds
      there, if it edits nothing at `q` or above. */
  lemma {:induction false} PlanKeys(source: string, plan: seq<Planned>, after: string, q: Path)
    requires forall i :: 0 <= i < |plan| ==> CanTry(source, plan[i])
    requires PlanApart(plan) && Levelled(plan)
    requires ApplyEdits(source, Rendered(plan)) == (Done, after)
    requires forall i :: 0 <= i < |plan| ==> !(plan[i].path <= q) && !(BoundAt(source, plan[i].path) <= q)
    ensures forall k :: k in KeySetAt(after, q) <==>
      k in KeySetAt(source, q) || SomeAdds(source, plan, q, k)
    decreases |plan|
  {
    hide SetText, ToSource, ValueAt, NodeRead, FindText, SetSpelled, IsBlocked, ToWrite, PlainRest, BoundAt, KeySetAt;
    if plan == [] {
    } else {
      var p, rest := plan[0], plan[1..];
      var mid := SetText(source, p.path, ToSource(p.value)).1;
      TriedIsSet(source, p, mid);
      var v := NodeRead(p.value).value;
      RestCanBeTried(source, plan, v, mid);
      assert forall i :: 0 <= i < |rest| ==> Rendered(rest)[i] == Rendered(plan)[i + 1];
      assert forall i :: 0 <= i < |rest| ==> rest[i] == plan[i + 1];
      PlanTakesEffect(mid, rest, after, q);
      forall i | 0 <= i < |rest| ensures BoundAt(mid, rest[i].path) == BoundAt(source, plan[i + 1].path) {
        SameBoundAt(source, mid, rest[i].path);
      }
      KeysAfterSpelled(source, p.path, v, mid, q);
      PlanKeys(mid, rest, after, q);
      forall i | 0 < i < |plan| ensures BoundAt(mid, plan[i].path) == BoundAt(source, plan[i].path) {
        assert rest[i - 1] == plan[i];
      }
      hide AddsName, SomeAdds;
      forall k ensures k in KeySetAt(after, q) <==> k in KeySetAt(source, q) || SomeAdds(source, plan, q, k) {
        NamesOfRest(source, mid, plan, q, k);
        OneName(source, p, q, k);
      }
    }
  }

  lemma OneName(source: string, p: Planned, q: Path, k: string)
    ensures var at := BoundAt(source, p.path);
      AddsName(source, p, q, k) <==> k in (if q < at then {at[|q|]} else {})
  {
  }

  ghost predicate SomeAdds(source: string, plan: seq<Planned>, q: Path, k: string) {
    exists i :: 0 <= i < |plan| && AddsName(source, plan[i], q, k)
  }

  /** What the edits but the first add is the same after the first. */
  lemma NamesOfRest(source: string, mid: string, plan: seq<Planned>, q: Path, k: string)
    requires plan != [] && forall i :: 0 < i < |plan| ==> BoundAt(mid, plan[i].path) == BoundAt(source, plan[i].path)
    ensures SomeAdds(source, plan, q, k) <==> AddsName(source, plan[0], q, k) || SomeAdds(mid, plan[1..], q, k)
  {
    hide BoundAt;
    if SomeAdds(source, plan, q, k) {
      var i :| 0 <= i < |plan| && AddsName(source, plan[i], q, k);
      if i > 0 {
        assert plan[1..][i - 1] == plan[i];
        assert AddsName(mid, plan[1..][i - 1], q, k);
      }
    }
    if SomeAdds(mid, plan[1..], q, k) {
      var i :| 0 <= i < |plan[1..]| && AddsName(mid, plan[1..][i], q, k);
      assert plan[1..][i] == plan[i + 1];
      assert AddsName(source, plan[i + 1], q, k);
    }
  }

  /** Edits that each write what is there already leave the text as it is. */
  lemma {:induction false} NothingToChange(source: string, plan: seq<Planned>)
    requires forall i :: 0 <= i < |plan| ==> HoldsText(source, plan[i])
    ensures ApplyEdits(source, Rendered(plan)) == (Done, source)
    decreases |plan|
  {
    hide SetText, ToSource, ValueAt, PrintValue;
    if plan == [] {
    } else {
      assert HoldsText(source, plan[0]);
      SpliceSame(source, plan[0].path);
      assert forall i :: 0 <= i < |plan[1..]| ==> Rendered(plan[1..])[i] == Rendered(plan)[i + 1];
      assert forall i :: 0 <= i < |plan[1..]| ==> plan[1..][i] == plan[i + 1];
      NothingToChange(source, plan[1..]);
    }
  }

  /** Edits that each write what is there already or add something make the text longer if one
      of them adds something. */
  lemma {:induction false} AddingGrows(source: string, plan: seq<Planned>, after: string)
    requires forall i :: 0 <= i < |plan| ==> CanTry(source, plan[i])
    requires PlanApart(plan) && Levelled(plan)
    requires forall i :: 0 <= i < |plan| ==> ValueAt(source, plan[i].path).None? || HoldsText(source, plan[i])
    requires ApplyEdits(source, Rendered(plan)) == (Done, after)
    ensures |after| >= |source|
    ensures (exists i :: 0 <= i < |plan| && ValueAt(source, plan[i].path).None?) ==> |after| > |source|
    decreases |plan|
  {
    hide SetText, ToSource, ValueAt, NodeRead, FindText, SetSpelled, IsBlocked, ToWrite, PlainRest, PrintValue;
    if plan == [] {
    } else {
      var p, rest := plan[0], plan[1..];
      var mid := SetText(source, p.path, ToSource(p.value)).1;
      TriedIsSet(source, p, mid);
      RestCanBeTried(source, plan, NodeRead(p.value).value, mid);
      assert forall i :: 0 <= i < |rest| ==> Rendered(rest)[i] == Rendered(plan)[i + 1];
      assert forall i :: 0 <= i < |rest| ==> rest[i] == plan[i + 1];
      if ValueAt(source, p.path).None? {
        AddingIsLonger(source, p.path, ToSource(p.value), mid);
      } else {
        assert HoldsText(source, p);
        SpliceSame(source, p.path);
      }
      AddingGrows(mid, rest, after);
      if i :| 0 < i < |plan| && ValueAt(source, plan[i].path).None? {
        assert rest[i - 1] == plan[i];
      }
    }
  }

  /** The path is bound to a value with just the text that the edit would write. */
  predicate HoldsText(source: string, p: Planned) {
    p.path != [] && ValueAt(source, p.path).Some? && PrintValue(ValueAt(source, p.path).value) == ToSource(p.value)
  }

  // ---------- the plan of a save ----------

  /** Every service that is declared or checked is written, with its submitted state, and no other. */
  lemma {:induction false} PlanServicesExactly(services: map<string, bool>, form: Form, names: seq<string>, p: Planned)
    ensures p in PlanServices(services, form, names) <==>
      exists i :: 0 <= i < |names| && (names[i] in services || Checked(form, names[i])) &&
        p == Planned(ServicePath(names[i]), Bool(Checked(form, names[i])))
  {
    if names == [] {
    } else {
      PlanServicesExactly(services, form, names[1..], p);
      if i :| (0 <= i < |names| && (names[i] in services || Checked(form, names[i])) &&
               p == Planned(ServicePath(names[i]), Bool(Checked(form, names[i])))) {
        if i > 0 { assert names[1..][i - 1] == names[i]; }
      }
      if p in PlanServices(services, form, names[1..]) {
        var i :| 0 <= i < |names[1..]| && (names[1..][i] in services || Checked(form, names[1..][i])) &&
          p == Planned(ServicePath(names[1..][i]), Bool(Checked(form, names[1..][i])));
        assert names[i + 1] == names[1..][i];
      }
    }
  }

  /** Every user for whom groups are written is written with them, and no other. */
  lemma {:induction false} PlanUsersExactly(users: seq<User>, form: Form, p: Planned)
    ensures p in PlanUsers(users, form) <==>
      exists i :: 0 <= i < |users| && NewGroups(users[i], form).Some? &&
        p == Planned(GroupsPath(users[i].username), TextList(NewGroups(users[i], form).value))
  {
    hide NewGroups;
    if users == [] {
    } else {
      PlanUsersExactly(users[1..], form, p);
      if i :| (0 <= i < |users| && NewGroups(users[i], form).Some? &&
               p == Planned(GroupsPath(users[i].username), TextList(NewGroups(users[i], form).value))) {
        if i > 0 { assert users[1..][i - 1] == users[i]; }
      }
      if p in PlanUsers(users[1..], form) {
        var i :| 0 <= i < |users[1..]| && NewGroups(users[1..][i], form).Some? &&
          p == Planned(GroupsPath(users[1..][i].username), TextList(NewGroups(users[1..][i], form).value));
        assert users[i + 1] == users[1..][i];
      }
    }
  }

  predicate Distinct(names: seq<string>) { forall i, j :: 0 <= i < j < |names| ==> names[i] != names[j] }

  lemma {:induction false} ServicesApart(services: map<string, bool>, form: Form, names: seq<string>)
    requires Distinct(names)
    ensures PlanApart(PlanServices(services, form, names))
  {
    if names == [] {
    } else {
      var rest := PlanServices(services, form, names[1..]);
      ServicesApart(services, form, names[1..]);
      forall j | 0 <= j < |rest|
        ensures !Comparable(ServicePath(names[0]), rest[j].path)
      {
        PlanServicesExactly(services, form, names[1..], rest[j]);
        var i :| 0 <= i < |names[1..]| && rest[j].path == ServicePath(names[1..][i]);
        assert names[i + 1] == names[1..][i];
        assert ServicePath(names[0])[2] != rest[j].path[2];
      }
    }
  }

  function UserNamesOf(users: seq<User>): (names: seq<string>)
    ensures |names| == |users| && forall i :: 0 <= i < |users| ==> names[i] == users[i].username
  {
    seq(|users|, i requires 0 <= i < |users| => users[i].username)
  }

  lemma {:induction false} UsersApart(users: seq<User>, form: Form)
    requires Distinct(UserNamesOf(users))
    ensures PlanApart(PlanUsers(users, form))
  {
    hide NewGroups;
    if users == [] {
    } else {
      var rest := PlanUsers(users[1..], form);
      assert UserNamesOf(users[1..]) == UserNamesOf(users)[1..];
      UsersApart(users[1..], form);
      forall j | 0 <= j < |rest|
        ensures !Comparable(GroupsPath(users[0].username), rest[j].path)
      {
        PlanUsersExactly(users[1..], form, rest[j]);
        var i :| 0 <= i < |users[1..]| && rest[j].path == GroupsPath(users[1..][i].username);
        assert users[i + 1] == users[1..][i];
        assert UserNamesOf(users)[0] != UserNamesOf(users)[i + 1];
        assert GroupsPath(users[0].username)[2] != rest[j].path[2];
      }
    }
  }

  lemma ApartConcat(a: seq<Planned>, b: seq<Planned>)
    requires PlanApart(a) && PlanApart(b)
    requires forall p, q :: p in a && q in b ==> !Comparable(p.path, q.path)
    ensures PlanApart(a + b)
  {
    var c := a + b;
    forall i, j | 0 <= i < j < |c|
      ensures !Comparable(c[i].path, c[j].path)
    {
      if i < |a| <= j { assert a[i] in a && b[j - |a|] in b; }
    }
  }

  /** The four kinds of fields that a planned edit can be for. */
  predicate ForText(p: Planned, path: Path, submitted: Option<string>, current: Option<string>) {
    p.path == path && submitted.Some? && current.Some? && p.value == Text(submitted.value)
  }

  predicate ForService(p: Planned, name: string, config: Config, form: Form) {
    (name in config.services || Checked(form, name)) && p == Planned(ServicePath(name), Bool(Checked(form, name)))
  }

  predicate ForUser(p: Planned, user: User, form: Form) {
    NewGroups(user, form).Some? && p == Planned(GroupsPath(user.username), TextList(NewGroups(user, form).value))
  }

  lemma PlanExactly(config: Config, form: Form, p: Planned)
    ensures p in Plan(config, form) <==>
      || ForText(p, HOSTNAME, form.hostname, config.hostname)
      || ForText(p, BASE_DOMAIN, form.baseDomain, config.rootDomain)
      || (exists i :: 0 <= i < |SERVICES| && ForService(p, SERVICES[i], config, form))
      || (exists i :: 0 <= i < |config.users| && ForUser(p, config.users[i], form))
  {
    hide NewGroups, Checked, ServicePath, GroupsPath;
    PlanServicesExactly(config.services, form, SERVICES, p);
    PlanUsersExactly(config.users, form, p);
    var a := PlanText(HOSTNAME, form.hostname, config.hostname);
    var b := PlanText(BASE_DOMAIN, form.baseDomain, config.rootDomain);
    assert p in a <==> ForText(p, HOSTNAME, form.hostname, config.hostname);
    assert p in b <==> ForText(p, BASE_DOMAIN, form.baseDomain, config.rootDomain);
    assert p in PlanServices(config.services, form, SERVICES) <==>
      (exists i :: 0 <= i < |SERVICES| && ForService(p, SERVICES[i], config, form));
    assert p in PlanUsers(config.users, form) <==>
      (exists i :: 0 <= i < |config.users| && ForUser(p, config.users[i], form));
  }

  /** No two edits of a save touch comparable paths. */
  lemma PlanIsApart(config: Config, form: Form)
    requires Distinct(UserNamesOf(config.users))
    ensures PlanApart(Plan(config, form))
  {
    var a := PlanText(HOSTNAME, form.hostname, config.hostname);
    var b := PlanText(BASE_DOMAIN, form.baseDomain, config.rootDomain);
    var c := PlanServices(config.services, form, SERVICES);
    var d := PlanUsers(config.users, form);
    ServicesApart(config.services, form, SERVICES);
    UsersApart(config.users, form);
    forall p | p in c
      ensures |p.path| == 4 && p.path[0] == "fortress" && p.path[1] == "services"
    {
      PlanServicesExactly(config.services, form, SERVICES, p);
    }
    forall p | p in d
      ensures |p.path| == 4 && p.path[0] == "users"
    {
      PlanUsersExactly(config.users, form, p);
    }
    hide PlanText, PlanServices, PlanUsers, PlanApart;
    TextApart(HOSTNAME, form.hostname, config.hostname);
    TextApart(BASE_DOMAIN, form.baseDomain, config.rootDomain);
    HeadsDiffer(a, b, c, d);
    ApartConcat(a, b);
    ApartConcat(a + b, c);
    ApartConcat(a + b + c, d);
  }

  lemma TextApart(path: Path, submitted: Option<string>, current: Option<string>)
    ensures PlanApart(PlanText(path, submitted, current))
    ensures forall p :: p in PlanText(path, submitted, current) ==> p.path == path
  {
  }

  lemma HeadsDiffer(a: seq<Planned>, b: seq<Planned>, c: seq<Planned>, d: seq<Planned>)
    requires forall p :: p in a ==> p.path == HOSTNAME
    requires forall p :: p in b ==> p.path == BASE_DOMAIN
    requires forall p :: p in c ==> |p.path| == 4 && p.path[0] == "fortress" && p.path[1] == "services"
    requires forall p :: p in d ==> |p.path| == 4 && p.path[0] == "users"
    ensures forall p, q :: p in a && q in b ==> !Comparable(p.path, q.path)
    ensures forall p, q :: p in a + b && q in c ==> !Comparable(p.path, q.path)
    ensures forall p, q :: p in a + b + c && q in d ==> !Comparable(p.path, q.path)
  {
    assert "networking" != "fortress" && "networking" != "users" && "fortress" != "users" by {
      assert "networking"[0] != "fortress"[0] && "networking"[0] != "users"[0] && "fortress"[0] != "users"[0];
    }
    assert "baseDomain" != "services" by { assert "baseDomain"[0] != "services"[0]; }
    forall p, q | (p in a && q in b) || (p in a + b && q in c) || (p in a + b + c && q in d)
      ensures !Comparable(p.path, q.path)
    {
      if Comparable(p.path, q.path) { SameHead(p.path, q.path); }
    }
  }

  lemma SameHead(p: Path, q: Path)
    requires Comparable(p, q) && |p| >= 2 && |q| >= 2
    ensures p[0] == q[0] && p[1] == q[1]
  {
  }
}
