/** A save that goes through and does not follow its form, for a user whose name holds a dot. */
module DottedWitness {
  import opened Options
  import opened NixSyntax
  import opened NixParser
  import opened NixValues
  import opened NixEdit
  import opened NixTable
  import opened NixBind
  import opened NixConfigFile
  import opened NixReject
  import opened EditorLaws
  import opened Dashboard
  import opened SaveConfig
  import opened DottedNames
  import opened SaveLaws
  import opened Strings

  const DOTTED_TEXT := "{users.users.\"a.b\".uid=1;}"
  const DOTTED_FORM := Form(None, None, map["groups_a.b" := "wheel"])
  const DOTTED_PARTS := [Chr('a'), Chr('.'), Chr('b')]

  function DottedEntry(): Entry {
    Bind("", [Ident("users"), Ident("users"), Quoted(DOTTED_PARTS), Ident("uid")], "", "", Atom("1"), "")
  }

  function DottedFile(): File { File(Bare("", Set("", Cons(DottedEntry(), NoEntry), "")), "") }

  lemma PathText(g: Seg, more: seq<Seg>, rest: string)
    requires more != []
    ensures PutPath([g] + more, rest) == PutSeg(g, "." + PutPath(more, rest))
  {
    assert ([g] + more)[1..] == more;
  }

  lemma DottedPartsText(rest: string)
    ensures PutParts(DOTTED_PARTS, rest) == "a.b\"" + rest
  {
    var parts := DOTTED_PARTS;
    assert parts[1..] == [Chr('.'), Chr('b')] && parts[1..][1..] == [Chr('b')] && parts[1..][1..][1..] == [];
    assert PutParts(parts[1..][1..], rest) == "b" + ("\"" + rest);
    assert PutParts(parts[1..], rest) == "." + ("b" + ("\"" + rest));
  }

  lemma DottedPathText(rest: string)
    ensures PutPath(DottedEntry().path, rest) == "users.users.\"a.b\".uid" + rest
  {
    hide PutPath, PutParts;
    var a, b, c := Ident("users"), Quoted(DOTTED_PARTS), Ident("uid");
    assert DottedEntry().path == [a] + ([a] + ([b] + [c]));
    PathText(a, [a] + ([b] + [c]), rest);
    PathText(a, [b] + [c], rest);
    PathText(b, [c], rest);
    LastText(c, rest);
    var u := "." + ("uid" + rest);
    DottedPartsText(u);
    assert "users" + ("." + ("users" + ("." + ("\"" + ("a.b\"" + u))))) == "users.users.\"a.b\".uid" + rest;
  }

  lemma LastText(g: Seg, rest: string)
    ensures PutPath([g], rest) == PutSeg(g, rest)
  {
  }

  lemma DottedText()
    ensures Print(DottedFile()) == DOTTED_TEXT
  {
    hide PutPath;
    var e, close := DottedEntry(), "" + ("}" + "");
    assert close == "}";
    assert "" + ("=" + ("" + ("1" + ("" + (";" + close))))) == "=1;}";
    DottedPathText("=1;}");
    assert PutEntry(e, close) == "users.users.\"a.b\".uid=1;}" by {
      assert PutValue(e.value, "" + (";" + close)) == "1" + ("" + (";" + close));
      assert "users.users.\"a.b\".uid" + "=1;}" == "users.users.\"a.b\".uid=1;}";
    }
    var v := DottedFile().root.value;
    assert PutEntries(v.entries, close) == PutEntry(e, close);
    assert PutValue(v, "") == "" + ("{" + PutEntries(v.entries, close));
    assert Print(DottedFile()) == "" + PutValue(v, "");
  }

  lemma DottedWF()
    ensures ParseFile(DOTTED_TEXT) == Some(DottedFile())
  {
    var f := DottedFile();
    EmptyTrivia();
    assert IsIdent("users") && IsIdent("uid") && IsAtom("1");
    PartsAreWF();
    assert WFPath(DottedEntry().path);
    assert WFValue(f.root.value);
    SetNotSpecial(f.root.value, "");
    ParsePrint(f);
    DottedText();
  }

  lemma PartsAreWF()
    ensures WFParts(DOTTED_PARTS) && !HasInterp(DOTTED_PARTS) && PartsText(DOTTED_PARTS) == "a.b"
  {
    var parts := DOTTED_PARTS;
    assert parts[1..] == [Chr('.'), Chr('b')] && parts[1..][1..] == [Chr('b')] && parts[1..][1..][1..] == [];
  }

  function DottedTop(): Entries { Cons(DottedEntry(), NoEntry) }

  const DOTTED_NAMES: Path := ["users", "users", "a.b", "uid"]

  lemma NamesOfEntry()
    ensures Names(DottedEntry().path) == DOTTED_NAMES
  {
    hide PartsText;
    PartsAreWF();
  }

  lemma OnlyOneIsBound(q: Path)
    requires |q| <= 4 && q != DOTTED_NAMES
    ensures Get(DottedTop(), q).None?
  {
    hide DottedEntry;
    NamesOfEntry();
    DottedIsBind();
    GetUnfold(DottedEntry(), NoEntry, q);
  }

  lemma DottedIsBind()
    ensures DottedEntry().Bind? && DottedEntry().value.Atom?
  {
  }

  lemma DottedTree()
    ensures ParseFile(DOTTED_TEXT) == Some(DottedFile()) && Top(DottedFile()) == Some(DottedTop())
    ensures ChildKeys(DottedTop(), USERS) == ["a.b"]
  {
    DottedWF();
    hide ParseFile;
    NamesOfEntry();
    assert DOTTED_NAMES[..2] == USERS;
  }

  lemma DottedWalk()
    ensures var p := GroupsPath("a.b");
      !Stopped(DottedTop(), p) && Remaining(DottedTop(), p) == p && PlainHome(DottedFile(), p)
  {
    hide DottedEntry;
    NamesOfEntry();
    DottedIsBind();
    assert "groups"[0] != "uid"[0];
    assert GroupsPath("a.b")[3] != DOTTED_NAMES[3];
    assert Meet(DottedEntry(), GroupsPath("a.b")).Pass?;
  }

  lemma SameJoin()
    ensures Join(GroupsPath("a.b"), ".") == Join(["users", "users", "a", "b", "groups"], ".")
  {
    var p, names := GroupsPath("a.b"), ["users", "users", "a", "b", "groups"];
    assert p[1..] == ["users", "a.b", "groups"] && p[1..][1..] == ["a.b", "groups"] && p[1..][1..][1..] == ["groups"];
    assert names[1..] == ["users", "a", "b", "groups"] && names[1..][1..] == ["a", "b", "groups"];
    assert names[1..][1..][1..] == ["b", "groups"] && names[1..][1..][1..][1..] == ["groups"];
  }

  lemma DottedToWrite()
    ensures ToWrite(DOTTED_TEXT, GroupsPath("a.b")) == GroupsPath("a.b")
  {
    hide ParseFile, Stopped, Remaining, Get;
    DottedTree();
    DottedWalk();
    assert "groups"[0] != "uid"[0];
    OnlyOneIsBound(GroupsPath("a.b"));
  }

  lemma DottedRest()
    ensures var p := GroupsPath("a.b");
      && !AllIdents(p) && PlainRest(DOTTED_TEXT, p)
      && Spelled(DOTTED_TEXT, p) == ["users", "users", "a", "b", "groups"] && AllIdents(Spelled(DOTTED_TEXT, p))
  {
    hide ToWrite, Pieces, Plain, IsIdent, Join;
    DottedToWrite();
    UsersGroupsAreIdents();
    DottedIsNoIdent();
    var names := ["users", "users", "a", "b", "groups"];
    assert AllIdents(names);
    assert !AllIdents(GroupsPath("a.b")) by { assert GroupsPath("a.b")[2] == "a.b"; }
    SameJoin();
    PiecesOfJoin(names);
    JoinIsPlain(names);
  }

  lemma DottedIsNoIdent()
    ensures !IsIdent("a.b") && IsIdent("a") && IsIdent("b")
  {
  }

  lemma NothingElseIsRead(q: Path)
    requires |q| <= 4 && q != DOTTED_NAMES
    ensures Read(DOTTED_TEXT, q).None?
  {
    hide ParseFile, FindText, Get;
    DottedTree();
    OnlyOneIsBound(q);
    ReadIsValueAt(DOTTED_TEXT, q);
  }

  lemma DottedConfig()
    ensures Extract(DOTTED_TEXT) == Config(None, None, map[], [User("a.b", None, {}, false)])
  {
    hide ParseFile, FindText, SetOf, Read;
    DottedTree();
    NothingElseIsRead(HOSTNAME);
    NothingElseIsRead(BASE_DOMAIN);
    assert "uid"[0] != "groups"[0] && "uid"[0] != "hashedPassword"[0] && "users"[0] != "fortress"[0];
    NothingElseIsRead(GroupsPath("a.b"));
    NothingElseIsRead(HashPath("a.b"));
    forall name ensures FlagAt(DOTTED_TEXT, ServicePath(name)).None? { NothingElseIsRead(ServicePath(name)); }
    assert ServicesAt(DOTTED_TEXT) == map[];
    assert UserNames(DOTTED_TEXT) == ["a.b"];
  }

  lemma NothingChecked(name: string)
    ensures !Checked(DOTTED_FORM, name)
  {
    assert ("svc_" + name)[0] == 's' && "groups_a.b"[0] == 'g';
  }

  lemma DottedGroups()
    ensures NewGroups(User("a.b", None, {}, false), DOTTED_FORM) == Some(["wheel"])
  {
    hide SplitGroups;
    assert All("wheel", IsWordChar);
    SplitWord("wheel");
    assert "groups_" + "a.b" == "groups_a.b";
  }

  lemma DottedPlan()
    ensures Plan(Extract(DOTTED_TEXT), DOTTED_FORM) == [Planned(GroupsPath("a.b"), TextList(["wheel"]))]
  {
    hide Extract, NewGroups, Checked;
    DottedConfig();
    DottedGroups();
    var users := [User("a.b", None, {}, false)];
    assert PlanUsers(users, DOTTED_FORM) == [Planned(GroupsPath("a.b"), TextList(["wheel"]))] by {
      assert users[1..] == [];
    }
    NoServices(SERVICES);
  }

  lemma {:induction false} NoServices(names: seq<string>)
    ensures PlanServices(map[], DOTTED_FORM, names) == []
  {
    hide Checked;
    if names == [] {
    } else {
      NothingChecked(names[0]);
      NoServices(names[1..]);
    }
  }

  lemma WheelIsWritable()
    ensures Writable(TextList(["wheel"]))
  {
  }

  lemma DottedIsSet()
    ensures SetText(DOTTED_TEXT, GroupsPath("a.b"), ToSource(TextList(["wheel"]))).0 == Done
  {
    hide ParseFile, SetText, PlainRest, Spelled, ToWrite, Get, Stopped, PlainHome, NodeRead, IsIdent, ToSource,
      Writable;
    var p, value := GroupsPath("a.b"), TextList(["wheel"]);
    DottedTree();
    DottedRest();
    DottedWalk();
    ReadAsExactly(value);
    OnlyOneIsBound(p);
    WheelIsWritable();
    SpelledOutcome(DOTTED_TEXT, DottedFile(), p, NodeRead(value).value);
    NeedsRecIsHome(DottedFile(), p);
  }

  /** A user `a.b` that is bound by dotted keys only is given groups: the save goes through, and
      the user is read as having none. */
  lemma DottedNameIsLost()
    ensures exists after ::
      SavedAs(DOTTED_TEXT, DOTTED_FORM, after) && !FollowsForm(Extract(DOTTED_TEXT), DOTTED_FORM, Extract(after))
  {
    hide ParseFile, SetText, Extract, Plan, PlainRest, Spelled, ToWrite, NewGroups, IsIdent, FollowsForm, ToSource,
      IsBlocked, Writable, StartsNoInterp, AllIdents, Rendered;
    var p, value := GroupsPath("a.b"), TextList(["wheel"]);
    DottedTree();
    DottedRest();
    DottedToWrite();
    DottedConfig();
    DottedGroups();
    DottedPlan();
    DottedIsSet();
    var plan := [Planned(p, value)];
    var after := SetText(DOTTED_TEXT, p, ToSource(value)).1;
    OneRendered(plan[0]);
    assert ApplyEdits(DOTTED_TEXT, Rendered(plan)) == (Done, after);
    var user := User("a.b", None, {}, false);
    assert Extract(DOTTED_TEXT).users[0] == user;
    assert NameIsPlain(DOTTED_TEXT, user, DOTTED_FORM) && !NameCanBeWritten(DOTTED_TEXT, user, DOTTED_FORM);
    assert SavedAs(DOTTED_TEXT, DOTTED_FORM, after);
    FormIsFollowedExactly(DOTTED_TEXT, DOTTED_FORM, after);
  }
}
