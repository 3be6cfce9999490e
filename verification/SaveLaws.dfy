/** The editor law, end to end: extract, submit a form, save, extract again; and save the same
    form again. */
module SaveLaws {
  import opened Options
  import opened NixSyntax
  import opened NixParser
  import opened NixValues
  import opened NixEdit
  import opened NixTable
  import opened NixLaws
  import opened NixConfigFile
  import opened EditorLaws
  import opened NixReject
  import opened Dashboard
  import opened SaveConfig
  import opened DottedNames

  predicate Known(q: Path) {
    q == HOSTNAME || q == BASE_DOMAIN ||
    (|q| == 4 && ((q[0] == "fortress" && q[1] == "services") || (q[0] == "users" && q[1] == "users")))
  }

  lemma KnownApart(p: Path, q: Path)
    requires Known(p) && Known(q) && Comparable(p, q)
    ensures p == q
  {
    SameHead(p, q);
    assert "networking" != "fortress" && "networking" != "users" && "fortress" != "users" by {
      assert "networking"[0] != "fortress"[0] && "networking"[0] != "users"[0] && "fortress"[0] != "users"[0];
    }
    assert "baseDomain" != "services" by { assert "baseDomain"[0] != "services"[0]; }
  }

  /** No string that the form sets starts an interpolation. */
  predicate StartsNoInterp(config: Config, form: Form) {
    && TextStartsNone(form.hostname, config.hostname)
    && TextStartsNone(form.baseDomain, config.rootDomain)
    && forall i :: 0 <= i < |config.users| ==> GroupsStartNone(config.users[i], form)
  }

  predicate TextStartsNone(submitted: Option<string>, current: Option<string>) {
    submitted.Some? && current.Some? ==> NoInterp(submitted.value)
  }

  predicate GroupsStartNone(user: User, form: Form) {
    NewGroups(user, form).Some? ==> Writable(TextList(NewGroups(user, form).value))
  }

  /** What a binding of groups would have to spell out for the user are identifiers: nothing if
      the groups are bound, only `groups` if the user has a set of its own. */
  predicate NameCanBeWritten(source: string, user: User, form: Form) {
    NewGroups(user, form).Some? ==> AllIdents(ToWrite(source, GroupsPath(user.username)))
  }

  predicate NamesCanBeWritten(source: string, form: Form) {
    var users := Extract(source).users;
    forall i :: 0 <= i < |users| ==> NameCanBeWritten(source, users[i], form)
  }

  /** Nothing but names can come of what is spelled out for a user, unless it is blocked. */
  predicate NameIsPlain(source: string, user: User, form: Form) {
    NewGroups(user, form).Some? ==>
      IsBlocked(source, GroupsPath(user.username)) || PlainRest(source, GroupsPath(user.username))
  }

  predicate NamesArePlain(source: string, form: Form) {
    var users := Extract(source).users;
    forall i :: 0 <= i < |users| ==> NameIsPlain(source, users[i], form)
  }

  predicate Enabled(config: Config, name: string) { name in config.services && config.services[name] }

  /** What the form asks of a text field: the submitted text where the field was declared. */
  function Wanted(submitted: Option<string>, current: Option<string>): Option<string> {
    if submitted.Some? && current.Some? then submitted else current
  }

  predicate WantedUser(user: User, form: Form, after: User) {
    && after.username == user.username
    && after.hashedPassword == user.hashedPassword
    && match NewGroups(user, form)
       case None => after == user
       case Some(groups) => after.groups == ToSet(groups) && after.groupsDeclared
  }

  /** The users read after the save are those wanted. */
  predicate WantedUsers(before: seq<User>, form: Form, users: seq<User>) {
    |users| == |before| && forall i :: 0 <= i < |before| ==> WantedUser(before[i], form, users[i])
  }

  /** The fields read after the save are those the form submitted. */
  predicate FollowsForm(before: Config, form: Form, after: Config) {
    && after.hostname == Wanted(form.hostname, before.hostname)
    && after.rootDomain == Wanted(form.baseDomain, before.rootDomain)
    && (forall i :: 0 <= i < |SERVICES| ==>
          Enabled(after, SERVICES[i]) == Checked(form, SERVICES[i]) &&
          (SERVICES[i] in after.services <==> SERVICES[i] in before.services || Checked(form, SERVICES[i])))
    && WantedUsers(before.users, form, after.users)
  }

  ghost predicate SavedAs(source: string, form: Form, after: string) {
    var plan := Plan(Extract(source), form);
    && ParseFile(source).Some?
    && NamesArePlain(source, form)
    && ApplyEdits(source, Rendered(plan)) == (Done, after)
  }

  lemma {:induction false} AllAppend(a: string, b: string, p: char -> bool)
    requires All(a, p) && All(b, p)
    ensures All(a + b, p)
  {
    if a == "" {
      assert a + b == b;
    } else {
      assert (a + b)[1..] == a[1..] + b;
      AllAppend(a[1..], b, p);
    }
  }

  /** A word of letters, put together from two halves. */
  lemma LongWord(a: string, b: string)
    requires a != "" && IsIdentStart(a[0]) && All(a, IsIdentChar) && All(b, IsIdentChar) && |a + b| > 7
    ensures IsIdent(a + b)
  {
    AllAppend(a, b, IsIdentChar);
  }

  lemma NetworkingIsIdent()
    ensures IsIdent("networking")
  {
    LongWord("netwo", "rking");
    assert "netwo" + "rking" == "networking";
  }

  lemma HostNameIsIdent()
    ensures IsIdent("hostName")
  {
    LongWord("host", "Name");
    assert "host" + "Name" == "hostName";
  }

  lemma FortressIsIdent()
    ensures IsIdent("fortress")
  {
    LongWord("fort", "ress");
    assert "fort" + "ress" == "fortress";
  }

  lemma BaseDomainIsIdent()
    ensures IsIdent("baseDomain")
  {
    LongWord("base", "Domain");
    assert "base" + "Domain" == "baseDomain";
  }

  lemma UsersGroupsAreIdents()
    ensures IsIdent("users") && IsIdent("groups")
  {
  }

  lemma ServicesIsIdent()
    ensures IsIdent("services")
  {
    LongWord("serv", "ices");
    assert "serv" + "ices" == "services";
  }

  lemma EnableMediaAreIdents()
    ensures IsIdent("enable") && IsIdent("media")
  {
  }

  lemma JellyfinIsIdent()
    ensures IsIdent("jellyfin")
  {
    LongWord("jelly", "fin");
    assert "jelly" + "fin" == "jellyfin";
  }

  lemma CryptpadIsIdent()
    ensures IsIdent("cryptpad")
  {
    LongWord("crypt", "pad");
    assert "crypt" + "pad" == "cryptpad";
  }

  lemma ForgejoIsIdent()
    ensures IsIdent("forgejo")
  {
  }

  lemma ConstantsAreIdents()
    ensures AllIdents(HOSTNAME) && AllIdents(BASE_DOMAIN)
    ensures IsIdent("users") && IsIdent("groups") && IsIdent("fortress") && IsIdent("services") && IsIdent("enable")
    ensures forall i :: 0 <= i < |SERVICES| ==> IsIdent(SERVICES[i])
  {
    hide IsIdent;
    NetworkingIsIdent();
    HostNameIsIdent();
    FortressIsIdent();
    BaseDomainIsIdent();
    UsersGroupsAreIdents();
    ServicesIsIdent();
    EnableMediaAreIdents();
    JellyfinIsIdent();
    CryptpadIsIdent();
    ForgejoIsIdent();
  }

  lemma PlannedIsKnown(config: Config, form: Form, p: Planned)
    requires p in Plan(config, form)
    ensures Known(p.path) && p.path != []
  {
    PlanExactly(config, form, p);
  }

  /** No planned path is empty, so the assertion on paths never fails. */
  lemma PlanCanBeApplied(config: Config, form: Form)
    ensures forall p :: p in Plan(config, form) ==> p.path != []
  {
    forall p | p in Plan(config, form)
      ensures p.path != []
    {
      PlannedIsKnown(config, form, p);
    }
  }

  lemma PlannedCanTry(source: string, form: Form, p: Planned)
    requires NamesArePlain(source, form) && p in Plan(Extract(source), form)
    ensures CanTry(source, p) && |p.path| <= 4 && (AllIdents(p.path) || |p.path| == 4)
  {
    hide NewGroups, IsIdent, FindText, ToWrite, Plan, Extract, Checked, PlainRest, IsBlocked;
    var config := Extract(source);
    PlanExactly(config, form, p);
    ConstantsAreIdents();
    if i :| 0 <= i < |config.users| && ForUser(p, config.users[i], form) {
      assert NameIsPlain(source, config.users[i], form);
    } else {
      if i :| 0 <= i < |SERVICES| && ForService(p, SERVICES[i], config, form) {
        assert AllIdents(ServicePath(SERVICES[i]));
      }
      IdentsCanBeWritten(source, p.path);
      IdentsArePlain(source, p.path);
    }
  }

  lemma AllCanTry(source: string, form: Form)
    requires NamesArePlain(source, form)
    ensures var plan := Plan(Extract(source), form);
      PlanApart(plan) && Levelled(plan) && forall i :: 0 <= i < |plan| ==> CanTry(source, plan[i])
  {
    hide CanTry, Extract, Plan, NamesArePlain, AllIdents;
    var plan := Plan(Extract(source), form);
    forall i | 0 <= i < |plan|
      ensures CanTry(source, plan[i]) && |plan[i].path| <= 4 && (AllIdents(plan[i].path) || |plan[i].path| == 4)
    {
      PlannedCanTry(source, form, plan[i]);
    }
    NamesDistinct(source);
    PlanIsApart(Extract(source), form);
  }

  /** No field that the dashboard knows lies where a planned path is bound instead. */
  lemma BoundApart(source: string, path: Path, q: Path)
    requires !Comparable(path, q) && |q| <= 4 && (AllIdents(path) || |path| == 4)
    ensures !(BoundAt(source, path) <= q)
  {
    hide BoundAt, IsIdent, ToWrite;
    BoundIsLonger(source, path);
    if AllIdents(path) { IdentsCanBeWritten(source, path); }
  }

  lemma PlannedCanWrite(source: string, form: Form, p: Planned)
    requires NamesCanBeWritten(source, form) && p in Plan(Extract(source), form)
    ensures CanWrite(source, p)
  {
    hide NewGroups, IsIdent, FindText, ToWrite, Plan, Extract, Checked;
    var config := Extract(source);
    PlanExactly(config, form, p);
    ConstantsAreIdents();
    if i :| 0 <= i < |config.users| && ForUser(p, config.users[i], form) {
    } else if i :| 0 <= i < |SERVICES| && ForService(p, SERVICES[i], config, form) {
      assert AllIdents(ServicePath(SERVICES[i]));
      IdentsCanBeWritten(source, p.path);
    } else {
      IdentsCanBeWritten(source, p.path);
    }
  }

  lemma NamesDistinct(source: string)
    ensures Distinct(UserNamesOf(Extract(source).users)) && UserNamesOf(Extract(source).users) == UserNames(source)
    ensures StrictlySorted(UserNames(source))
  {
    NamesSorted(source);
    hide UserNames;
    var names := UserNames(source);
    forall i, j | 0 <= i < j < |names|
      ensures names[i] != names[j]
    {
      LessIrreflexive(names[i]);
    }
  }

  lemma NamesSorted(source: string)
    ensures StrictlySorted(UserNames(source))
  {
    if ParseFile(source).Some? && Top(ParseFile(source).value).Some? {
      SortDedupProperties(ChildKeys(Top(ParseFile(source).value).value, USERS));
    }
  }

  /** After a save a known path is read as what was written for it is read, if that could be
      written for this path, and not at all if it could not; and as before if nothing was. */
  lemma KnownField(source: string, form: Form, after: string, q: Path)
    requires SavedAs(source, form, after) && Known(q)
    ensures forall p :: p in Plan(Extract(source), form) && p.path == q ==>
      NodeRead(p.value).Some? &&
      Read(after, q) == if AllIdents(ToWrite(source, q)) then Some(ReadAs(p.value)) else None
    ensures (forall p :: p in Plan(Extract(source), form) ==> p.path != q) ==> Read(after, q) == Read(source, q)
  {
    hide Extract, Plan, FindText, ApplyEdits, ValueAt, Known, NodeRead, BoundAt, ToWrite, AllIdents, IsBlocked,
      PlainRest;
    var config := Extract(source);
    var plan := Plan(config, form);
    AllCanTry(source, form);
    PlanTakesEffect(source, plan, after, q);
    ReadIsValueAt(source, q);
    ReadIsValueAt(after, q);
    forall p | p in plan && p.path == q
      ensures NodeRead(p.value).Some? &&
        Read(after, q) == if AllIdents(ToWrite(source, q)) then Some(ReadAs(p.value)) else None
    {
      var i :| 0 <= i < |plan| && plan[i] == p;
    }
    if forall p :: p in plan ==> p.path != q {
      forall i | 0 <= i < |plan|
        ensures !Comparable(plan[i].path, q) && !(BoundAt(source, plan[i].path) <= q)
      {
        PlannedIsKnown(config, form, plan[i]);
        if Comparable(plan[i].path, q) { KnownApart(plan[i].path, q); }
        PlannedCanTry(source, form, plan[i]);
        assert |q| <= 4 by { KnownIsShort(q); }
        BoundApart(source, plan[i].path, q);
      }
    }
  }

  lemma KnownIsShort(q: Path)
    requires Known(q)
    ensures |q| <= 4
  {
  }

  lemma AllCanWrite(source: string, form: Form)
    requires NamesCanBeWritten(source, form)
    ensures var plan := Plan(Extract(source), form);
      PlanApart(plan) && forall i :: 0 <= i < |plan| ==> CanWrite(source, plan[i])
  {
    hide CanWrite;
    var plan := Plan(Extract(source), form);
    forall i | 0 <= i < |plan|
      ensures CanWrite(source, plan[i])
    {
      PlannedCanWrite(source, form, plan[i]);
    }
    NamesDistinct(source);
    PlanIsApart(Extract(source), form);
  }

  lemma NamesAreKeys(source: string)
    ensures forall x :: x in UserNames(source) <==> x in KeySetAt(source, USERS)
  {
  }

  /** The name below `users.users` under which groups written for a user are bound. */
  function NameBound(source: string, name: string): string
  {
    UsersGroupsAreIdents();
    BoundStarts(source, GroupsPath(name));
    BoundAt(source, GroupsPath(name))[2]
  }

  lemma PlannedBelowUsers(source: string, form: Form, p: Planned)
    requires p in Plan(Extract(source), form)
    ensures !(p.path <= USERS) && !(BoundAt(source, p.path) <= USERS)
    ensures USERS < BoundAt(source, p.path) <==>
      exists i :: 0 <= i < |Extract(source).users| && ForUser(p, Extract(source).users[i], form)
  {
    hide Plan, FindText, NewGroups, Checked, BoundAt, IsIdent, ToWrite, Extract;
    var config := Extract(source);
    PlannedIsKnown(config, form, p);
    PlanExactly(config, form, p);
    ConstantsAreIdents();
    assert "networking"[0] != "users"[0] && "fortress"[0] != "users"[0] && "networking"[0] != "fortress"[0];
    if j :| 0 <= j < |config.users| && ForUser(p, config.users[j], form) {
      BoundStarts(source, p.path);
      assert p.path[..2] == USERS && |p.path| == 4;
    } else {
      if i :| 0 <= i < |SERVICES| && ForService(p, SERVICES[i], config, form) {
        assert AllIdents(ServicePath(SERVICES[i]));
      }
      IdentsCanBeWritten(source, p.path);
      BoundIsLonger(source, p.path);
      assert p.path[0] != USERS[0];
    }
  }

  /** The users after a save are those before it and those whose names the dots made up. */
  lemma UsersAfterSave(source: string, form: Form, after: string, name: string)
    requires SavedAs(source, form, after)
    ensures name in UserNames(after) <==>
      || name in UserNames(source)
      || exists i :: 0 <= i < |Extract(source).users| && NewGroups(Extract(source).users[i], form).Some? &&
           NameBound(source, Extract(source).users[i].username) == name
  {
    hide Plan, FindText, ApplyEdits, ValueAt, NewGroups, Extract, UsersAt, BoundAt, PlainRest, IsBlocked, ToWrite,
      IsIdent, Known, NamesArePlain;
    var users, plan := Extract(source).users, Plan(Extract(source), form);
    AllCanTry(source, form);
    forall i | 0 <= i < |plan|
      ensures !(plan[i].path <= USERS) && !(BoundAt(source, plan[i].path) <= USERS)
    {
      PlannedBelowUsers(source, form, plan[i]);
    }
    PlanKeys(source, plan, after, USERS);
    NamesAreKeys(source);
    NamesAreKeys(after);
    if i :| 0 <= i < |users| && NewGroups(users[i], form).Some? && NameBound(source, users[i].username) == name {
      var p := Planned(GroupsPath(users[i].username), TextList(NewGroups(users[i], form).value));
      assert ForUser(p, users[i], form);
      PlanExactly(Extract(source), form, p);
      PlannedBelowUsers(source, form, p);
      var j :| 0 <= j < |plan| && plan[j] == p;
      assert AddsName(source, plan[j], USERS, name);
    }
    if SomeAdds(source, plan, USERS, name) {
      var j :| 0 <= j < |plan| && AddsName(source, plan[j], USERS, name);
      PlannedBelowUsers(source, form, plan[j]);
      var i :| 0 <= i < |users| && ForUser(plan[j], users[i], form);
      assert NameBound(source, users[i].username) == name;
    }
  }

  /** A save that spells out nothing but identifiers adds no user and loses none. */
  lemma SameUsers(source: string, form: Form, after: string)
    requires SavedAs(source, form, after) && NamesCanBeWritten(source, form)
    ensures UserNames(after) == UserNames(source)
  {
    hide Plan, FindText, ApplyEdits, ValueAt, NewGroups, Extract, Known, UsersAt, StrictlySorted, SavedAs, UserNames,
      NameBound;
    var users := Extract(source).users;
    NamesDistinct(source);
    forall name
      ensures name in UserNames(after) <==> name in UserNames(source)
    {
      UsersAfterSave(source, form, after, name);
      if i :| 0 <= i < |users| && NewGroups(users[i], form).Some? && NameBound(source, users[i].username) == name {
        assert NameCanBeWritten(source, users[i], form);
        OwnName(source, users[i].username);
        assert UserNamesOf(users)[i] == users[i].username;
      }
    }
    NamesSorted(source);
    NamesSorted(after);
    SortedUnique(UserNames(after), UserNames(source));
  }

  lemma OwnName(source: string, name: string)
    requires AllIdents(ToWrite(source, GroupsPath(name)))
    ensures NameBound(source, name) == name
  {
    hide BoundAt, ToWrite, IsIdent;
    BoundIsLonger(source, GroupsPath(name));
  }

  /** A text field reads as submitted where it was written and starts no interpolation, not as
      a string where it starts one, and as before where it was not written. */
  lemma TextField(source: string, form: Form, after: string, path: Path)
    requires SavedAs(source, form, after) && (path == HOSTNAME || path == BASE_DOMAIN)
    ensures var submitted := if path == HOSTNAME then form.hostname else form.baseDomain;
      TextAt(after, path) ==
        if submitted.None? || TextAt(source, path).None? then TextAt(source, path)
        else if NoInterp(submitted.value) then submitted else None
  {
    hide Plan, FindText, ApplyEdits, NodeRead, NoInterp, ToWrite, IsIdent, NamesArePlain;
    var config := Extract(source);
    KnownField(source, form, after, path);
    ConstantsAreIdents();
    IdentsCanBeWritten(source, path);
    var submitted := if path == HOSTNAME then form.hostname else form.baseDomain;
    assert "networking"[0] != "fortress"[0];
    if submitted.Some? && TextAt(source, path).Some? {
      var v := Text(submitted.value);
      PlanExactly(config, form, Planned(path, v));
      assert Planned(path, v).value == v && Planned(path, v).path == path;
      ReadAsExactly(v);
    } else {
      forall p | p in Plan(config, form)
        ensures p.path != path
      {
        PlanExactly(config, form, p);
      }
    }
  }

  lemma HostnameField(source: string, form: Form, after: string)
    requires SavedAs(source, form, after)
    ensures var before, now := Extract(source).hostname, Extract(after).hostname;
      (now == Wanted(form.hostname, before) <==> TextStartsNone(form.hostname, before)) && (now.Some? ==> before.Some?)
  {
    hide SavedAs, TextAt, ServicesAt, UsersAt, UserNames, NoInterp;
    TextField(source, form, after, HOSTNAME);
  }

  lemma DomainField(source: string, form: Form, after: string)
    requires SavedAs(source, form, after)
    ensures var before, now := Extract(source).rootDomain, Extract(after).rootDomain;
      (now == Wanted(form.baseDomain, before) <==> TextStartsNone(form.baseDomain, before)) && (now.Some? ==> before.Some?)
  {
    hide SavedAs, TextAt, ServicesAt, UsersAt, UserNames, NoInterp;
    TextField(source, form, after, BASE_DOMAIN);
    assert "networking"[0] != "fortress"[0];
  }

  lemma PlannedService(config: Config, form: Form, p: Planned, i: nat)
    requires i < |SERVICES| && p in Plan(config, form) && p.path == ServicePath(SERVICES[i])
    ensures ForService(p, SERVICES[i], config, form)
  {
    hide Plan, NewGroups, Checked;
    PlanExactly(config, form, p);
    assert "users"[0] != "fortress"[0];
    if j :| 0 <= j < |SERVICES| && ForService(p, SERVICES[j], config, form) {
      assert p.path[2] == SERVICES[j] && p.path[2] == SERVICES[i];
    }
  }

  lemma ServiceRead(source: string, form: Form, after: string, i: nat)
    requires SavedAs(source, form, after) && i < |SERVICES|
    ensures var name := SERVICES[i];
      Read(after, ServicePath(name)) ==
        if name in Extract(source).services || Checked(form, name) then Some(Bool(Checked(form, name)))
        else Read(source, ServicePath(name))
  {
    hide Plan, FindText, ApplyEdits, Checked, Extract, ToWrite, IsIdent, NamesArePlain;
    var config, name := Extract(source), SERVICES[i];
    var path := ServicePath(name);
    KnownField(source, form, after, path);
    ConstantsAreIdents();
    assert AllIdents(path);
    IdentsCanBeWritten(source, path);
    if name in config.services || Checked(form, name) {
      var p := Planned(path, Bool(Checked(form, name)));
      assert ForService(p, SERVICES[i], config, form);
      PlanExactly(config, form, p);
      ReadAsExactly(p.value);
    } else {
      forall p | p in Plan(config, form)
        ensures p.path != path
      {
        if p.path == path { PlannedService(config, form, p, i); }
      }
    }
  }

  lemma ServiceField(source: string, form: Form, after: string, i: nat)
    requires SavedAs(source, form, after) && i < |SERVICES|
    ensures var name, c := SERVICES[i], Extract(after);
      && Enabled(c, name) == Checked(form, name)
      && (name in c.services <==> name in Extract(source).services || Checked(form, name))
  {
    hide FindText, SavedAs, Checked, ServicePath, TextAt, UsersAt, UserNames, Read;
    ServiceRead(source, form, after, i);
    ServiceFlag(source, i);
    ServiceFlag(after, i);
  }

  /** An extracted service is one whose flag reads as a boolean. */
  lemma ServiceFlag(source: string, i: nat)
    requires i < |SERVICES|
    ensures var name := SERVICES[i]; var c, r := Extract(source), Read(source, ServicePath(name));
      && (name in c.services <==> r.Some? && r.value.Bool?)
      && (name in c.services ==> c.services[name] == r.value.b)
  {
    hide FindText, ServicePath, TextAt, UsersAt, UserNames, Read;
  }

  /** Nothing is planned for a user's hash, and for the groups only what the form asks. */
  lemma PlannedForUser(source: string, form: Form, p: Planned, i: nat)
    requires i < |Extract(source).users| && p in Plan(Extract(source), form)
    ensures var user := Extract(source).users[i];
      && p.path != HashPath(user.username)
      && (p.path == GroupsPath(user.username) ==> ForUser(p, user, form))
  {
    hide Plan, FindText, NewGroups, Checked, UserNames;
    var config := Extract(source);
    PlanExactly(config, form, p);
    NamesDistinct(source);
    hide Extract;
    assert "users"[0] != "fortress"[0] && "groups"[0] != "hashedPassword"[0];
    if j :| 0 <= j < |config.users| && ForUser(p, config.users[j], form) {
      assert p.path[2] == config.users[j].username && p.path[3] == "groups";
      if p.path == GroupsPath(config.users[i].username) {
        assert UserNamesOf(config.users)[j] == UserNamesOf(config.users)[i];
        assert i == j;
      }
    }
  }

  lemma HashField(source: string, form: Form, after: string, i: nat)
    requires SavedAs(source, form, after) && i < |Extract(source).users|
    ensures var name := Extract(source).users[i].username; Read(after, HashPath(name)) == Read(source, HashPath(name))
  {
    hide Plan, FindText, ApplyEdits, Extract;
    var config := Extract(source);
    KnownField(source, form, after, HashPath(config.users[i].username));
    forall p | p in Plan(config, form)
      ensures p.path != HashPath(config.users[i].username)
    {
      PlannedForUser(source, form, p, i);
    }
  }

  lemma GroupsField(source: string, form: Form, after: string, i: nat)
    requires SavedAs(source, form, after) && i < |Extract(source).users|
    ensures var user := Extract(source).users[i];
      match NewGroups(user, form)
      case None => Read(after, GroupsPath(user.username)) == Read(source, GroupsPath(user.username))
      case Some(groups) =>
        NodeRead(TextList(groups)).Some? &&
        Read(after, GroupsPath(user.username)) ==
          if NameCanBeWritten(source, user, form) then Some(ReadAs(TextList(groups))) else None
  {
    hide Plan, FindText, ApplyEdits, NewGroups, Extract, NodeRead, ToWrite, AllIdents, NamesArePlain;
    var config := Extract(source);
    var user := config.users[i];
    var name := user.username;
    KnownField(source, form, after, GroupsPath(name));
    forall p | p in Plan(config, form)
      ensures p.path == GroupsPath(name) ==> ForUser(p, user, form)
    {
      PlannedForUser(source, form, p, i);
    }
    if NewGroups(user, form).Some? {
      var p := Planned(GroupsPath(name), TextList(NewGroups(user, form).value));
      assert ForUser(p, config.users[i], form);
      PlanExactly(config, form, p);
      assert p.path == GroupsPath(name) && p.value == TextList(NewGroups(user, form).value);
    }
  }

  /** The user is read as wanted exactly if no submitted group starts an interpolation and what
      is spelled out for it are identifiers. */
  lemma UserField(source: string, form: Form, after: string, i: nat)
    requires SavedAs(source, form, after) && i < |Extract(source).users|
    ensures var user := Extract(source).users[i]; var now := UserAt(after, user.username);
      && (WantedUser(user, form, now) <==> GroupsStartNone(user, form) && NameCanBeWritten(source, user, form))
      && (NewGroups(user, form).None? ==> now == user)
  {
    hide FindText, SavedAs, NewGroups, NodeRead, NoInterp, ToWrite, AllIdents;
    HashField(source, form, after, i);
    GroupsField(source, form, after, i);
    var user := Extract(source).users[i];
    if NewGroups(user, form).Some? {
      hide Writable;
      ReadAsExactly(TextList(NewGroups(user, form).value));
    }
  }

  lemma UsersAreRead(source: string, form: Form, after: string)
    requires SavedAs(source, form, after) && NamesCanBeWritten(source, form)
    ensures var before, users := Extract(source).users, Extract(after).users;
      |users| == |before| && forall i :: 0 <= i < |before| ==> users[i] == UserAt(after, before[i].username)
  {
    hide Plan, FindText, ApplyEdits, NewGroups, SavedAs, UserNames, TextAt, ServicesAt, UserAt, NamesCanBeWritten;
    var before, users := Extract(source).users, Extract(after).users;
    SameUsers(source, form, after);
    NamesDistinct(source);
    forall i | 0 <= i < |before|
      ensures users[i] == UserAt(after, before[i].username)
    {
      assert before[i].username == UserNamesOf(before)[i] == UserNames(source)[i];
    }
  }

  lemma AllUserFields(source: string, form: Form, after: string)
    requires SavedAs(source, form, after)
    ensures var before := Extract(source).users;
      WantedUsers(before, form, Extract(after).users) <==>
        NamesCanBeWritten(source, form) && forall i :: 0 <= i < |before| ==> GroupsStartNone(before[i], form)
  {
    hide SavedAs, Extract, WantedUser, GroupsStartNone, NameCanBeWritten;
    var before, users := Extract(source).users, Extract(after).users;
    forall i | 0 <= i < |before|
      ensures WantedUser(before[i], form, UserAt(after, before[i].username))
         <==> GroupsStartNone(before[i], form) && NameCanBeWritten(source, before[i], form)
    {
      UserField(source, form, after, i);
    }
    if NamesCanBeWritten(source, form) {
      UsersAreRead(source, form, after);
    } else if WantedUsers(before, form, users) {
      var i :| 0 <= i < |before| && !NameCanBeWritten(source, before[i], form);
      UserIsAtName(after, i);
      SameNameWanted(before[i], form, users[i]);
    }
  }

  lemma UserIsAtName(source: string, i: nat)
    requires i < |Extract(source).users|
    ensures Extract(source).users[i] == UserAt(source, Extract(source).users[i].username)
  {
    hide FindText, UserNames, TextAt, ServicesAt;
  }

  lemma SameNameWanted(user: User, form: Form, now: User)
    requires WantedUser(user, form, now)
    ensures now.username == user.username
  {
    hide NewGroups;
  }

  lemma AllServiceFields(source: string, form: Form, after: string)
    requires SavedAs(source, form, after)
    ensures forall i :: 0 <= i < |SERVICES| ==>
      Enabled(Extract(after), SERVICES[i]) == Checked(form, SERVICES[i]) &&
      (SERVICES[i] in Extract(after).services <==> SERVICES[i] in Extract(source).services || Checked(form, SERVICES[i]))
  {
    hide SavedAs, Extract, Enabled, Checked;
    forall i | 0 <= i < |SERVICES|
      ensures Enabled(Extract(after), SERVICES[i]) == Checked(form, SERVICES[i]) &&
        (SERVICES[i] in Extract(after).services <==> SERVICES[i] in Extract(source).services || Checked(form, SERVICES[i]))
    {
      ServiceField(source, form, after, i);
    }
  }

  /** The editor law.  After a successful save, extracting again gives every listed service
      the submitted state, the submitted hostname, domain and groups where they were declared
      (or groups were given), and the same users with the same password hashes, if and only
      if no string that the form sets starts an interpolation and no name that is spelled out
      for groups is other than an identifier. */
  lemma FormIsFollowedExactly(source: string, form: Form, after: string)
    requires SavedAs(source, form, after)
    ensures FollowsForm(Extract(source), form, Extract(after)) <==>
      StartsNoInterp(Extract(source), form) && NamesCanBeWritten(source, form)
  {
    hide SavedAs, Extract, WantedUser, Wanted, Enabled, Checked, TextStartsNone, GroupsStartNone, NamesCanBeWritten;
    HostnameField(source, form, after);
    DomainField(source, form, after);
    AllServiceFields(source, form, after);
    AllUserFields(source, form, after);
  }

  /** For one field alone: a text that was written is read back if and only if no interpolation
      starts in it. */
  lemma SubmittedTextExactly(source: string, path: Path, text: string, after: string)
    requires path != [] && AllIdents(ToWrite(source, path))
    requires SetText(source, path, Quote(text)) == (Done, after)
    ensures TextAt(after, path) == Some(text) <==> NoInterp(text)
  {
    hide SetText, ToWrite, FindText, NodeRead, NoInterp, Quote;
    var v := Text(text);
    assert ToSource(v) == Quote(text);
    WrittenIsSetAsRead(source, path, v, after);
    GetAfterSet(source, path, NodeRead(v).value, after);
    ReadIsValueAt(after, path);
    ReadAsExactly(v);
  }

  // ---------- saving twice ----------

  /** A name that is listed after the save and was not before is made up of dots. */
  lemma NewNameIsIdent(source: string, form: Form, after: string, name: string)
    requires SavedAs(source, form, after) && name in UserNames(after) && name !in UserNames(source)
    ensures IsIdent(name)
  {
    hide Plan, FindText, ApplyEdits, NewGroups, Extract, UserNames, BoundAt, Spelled, IsIdent, NamesArePlain;
    UsersAfterSave(source, form, after, name);
    var users := Extract(source).users;
    var i :| 0 <= i < |users| && NewGroups(users[i], form).Some? && NameBound(source, users[i].username) == name;
    NamesDistinct(source);
    assert UserNamesOf(users)[i] == users[i].username;
    GroupsAreSpelled(source, form, after, i);
    SpelledName(source, users[i].username);
  }

  /** What was spelled out for groups that were saved are identifiers. */
  lemma GroupsAreSpelled(source: string, form: Form, after: string, i: nat)
    requires SavedAs(source, form, after) && i < |Extract(source).users|
    requires NewGroups(Extract(source).users[i], form).Some?
    ensures var p := GroupsPath(Extract(source).users[i].username);
      AllIdents(Spelled(source, p)) && !IsBlocked(source, p) && PlainRest(source, p)
  {
    hide Plan, FindText, NewGroups, Extract, BoundAt, IsIdent, ToWrite, Spelled, IsBlocked, PlainRest, NodeRead,
      ToSource;
    var user := Extract(source).users[i];
    var plan := Plan(Extract(source), form);
    var p := Planned(GroupsPath(user.username), TextList(NewGroups(user, form).value));
    assert ForUser(p, Extract(source).users[i], form);
    PlanExactly(Extract(source), form, p);
    AllCanTry(source, form);
    var j :| 0 <= j < |plan| && plan[j] == p;
    PlanTakesEffect(source, plan, after, p.path);
  }

  lemma SpelledName(source: string, name: string)
    requires AllIdents(Spelled(source, GroupsPath(name)))
    ensures NameBound(source, name) == name || IsIdent(NameBound(source, name))
  {
    hide Spelled, IsIdent, ToWrite;
    UsersGroupsAreIdents();
    var p := GroupsPath(name);
    BoundStarts(source, p);
    RestFits(source, p);
    var k := |p| - |ToWrite(source, p)|;
    if k > 2 {
      assert BoundAt(source, p)[2] == p[2];
    } else {
      assert BoundAt(source, p)[2] == Spelled(source, p)[2 - k];
    }
  }

  /** The user listed under a name after the save, told by the one listed before. */
  lemma ListedUser(source: string, form: Form, after: string, i: nat, j: nat)
    requires SavedAs(source, form, after) && i < |Extract(after).users| && j < |Extract(source).users|
    requires Extract(after).users[i].username == Extract(source).users[j].username
    ensures var user, now := Extract(source).users[j], Extract(after).users[i];
      && now == UserAt(after, user.username)
      && (NewGroups(now, form).Some? ==> NewGroups(user, form) == NewGroups(now, form))
  {
    hide SavedAs, Extract, NewGroups, WantedUser, GroupsStartNone, NameCanBeWritten;
    UserIsAtName(after, i);
    UserField(source, form, after, j);
    var user, now := Extract(source).users[j], Extract(after).users[i];
    if NewGroups(now, form).Some? { SameGroups(user, now, form); }
  }

  lemma SameGroups(user: User, now: User, form: Form)
    requires now.username == user.username && NewGroups(now, form).Some?
    requires NewGroups(user, form).None? ==> now == user
    ensures NewGroups(user, form) == NewGroups(now, form)
  {
  }

  /** Names listed are those of the users listed. */
  lemma ListedAt(source: string, name: string) returns (j: nat)
    requires name in UserNames(source)
    ensures j < |Extract(source).users| && Extract(source).users[j].username == name
  {
    hide Extract, UserNames;
    NamesDistinct(source);
    j :| 0 <= j < |UserNames(source)| && UserNames(source)[j] == name;
  }

  lemma NameIsListed(source: string, i: nat)
    requires i < |Extract(source).users|
    ensures Extract(source).users[i].username in UserNames(source)
  {
    hide Extract, UserNames;
    NamesDistinct(source);
    assert UserNamesOf(Extract(source).users)[i] == Extract(source).users[i].username;
  }

  /** What is planned for the saved file was planned before, or is for a user not listed before. */
  lemma PlannedAgain(source: string, form: Form, after: string, p: Planned)
    requires SavedAs(source, form, after) && p in Plan(Extract(after), form)
    ensures p in Plan(Extract(source), form) || exists name ::
      name in UserNames(after) && name !in UserNames(source) && p.path == GroupsPath(name) && !p.value.Other?
  {
    hide SavedAs, Extract, Plan, WantedUser, Wanted, Enabled, Checked, TextStartsNone, NewGroups, GroupsStartNone,
      UserNames;
    var before, now := Extract(source), Extract(after);
    PlanExactly(now, form, p);
    PlanExactly(before, form, p);
    HostnameField(source, form, after);
    DomainField(source, form, after);
    AllServiceFields(source, form, after);
    if i :| 0 <= i < |now.users| && ForUser(p, now.users[i], form) {
      var name := now.users[i].username;
      NameIsListed(after, i);
      if name in UserNames(source) {
        var j := ListedAt(source, name);
        ListedUser(source, form, after, i, j);
        assert ForUser(p, before.users[j], form);
      }
    } else if i :| 0 <= i < |SERVICES| && ForService(p, SERVICES[i], now, form) {
      assert ForService(p, SERVICES[i], before, form);
    }
  }

  /** What was written for groups is read where it was spelled out in identifiers only. */
  lemma GroupsAfterSave(source: string, form: Form, after: string, i: nat)
    requires SavedAs(source, form, after) && i < |Extract(source).users|
    requires NewGroups(Extract(source).users[i], form).Some?
    ensures var p := GroupsPath(Extract(source).users[i].username);
      ValueAt(after, p).Some? <==> AllIdents(ToWrite(source, p))
  {
    hide Plan, FindText, NewGroups, Extract, BoundAt, IsIdent, ToWrite, Spelled, IsBlocked, PlainRest, NodeRead,
      ToSource, ValueAt;
    var user := Extract(source).users[i];
    var plan := Plan(Extract(source), form);
    var p := Planned(GroupsPath(user.username), TextList(NewGroups(user, form).value));
    assert ForUser(p, Extract(source).users[i], form);
    PlanExactly(Extract(source), form, p);
    AllCanTry(source, form);
    var j :| 0 <= j < |plan| && plan[j] == p;
    PlanTakesEffect(source, plan, after, p.path);
  }

  lemma BoundHasNoRest(source: string, path: Path)
    ensures ValueAt(source, path).Some? ==> PlainRest(source, path)
    ensures ToWrite(source, path) != [] ==> ValueAt(source, path).None?
  {
  }

  /** The form can be tried again on the saved file. */
  lemma PlainAgain(source: string, form: Form, after: string, i: nat)
    requires SavedAs(source, form, after) && i < |Extract(after).users|
    ensures NameIsPlain(after, Extract(after).users[i], form)
  {
    hide SavedAs, Extract, UserNames, NewGroups, ToWrite, ValueAt, IsIdent, PlainRest, IsBlocked, Spelled;
    var now := Extract(after).users[i];
    var p := GroupsPath(now.username);
    if NewGroups(now, form).Some? {
      NameIsListed(after, i);
      if now.username in UserNames(source) {
        var j := ListedAt(source, now.username);
        ListedUser(source, form, after, i, j);
        GroupsAreSpelled(source, form, after, j);
        GroupsAfterSave(source, form, after, j);
        BoundHasNoRest(after, p);
        if !AllIdents(ToWrite(source, p)) {
          LeftUnbound(source, form, after, p);
        }
      } else {
        NewNameIsIdent(source, form, after, now.username);
        UsersGroupsAreIdents();
        assert AllIdents(p);
        IdentsCanBeWritten(after, p);
        IdentsArePlain(after, p);
      }
    }
  }

  lemma LeftUnbound(source: string, form: Form, after: string, q: Path)
    requires SavedAs(source, form, after) && Known(q) && !AllIdents(ToWrite(source, q)) && PlainRest(source, q)
    ensures IsBlocked(after, q) || PlainRest(after, q)
  {
    hide Extract, Plan, FindText, ApplyEdits, ValueAt, Known, BoundAt, ToWrite, AllIdents, IsBlocked;
    var plan := Plan(Extract(source), form);
    AllCanTry(source, form);
    KnownIsShort(q);
    forall i | 0 <= i < |plan| && plan[i].path != q
      ensures !Comparable(plan[i].path, q) && !(BoundAt(source, plan[i].path) <= q)
    {
      PlannedIsKnown(Extract(source), form, plan[i]);
      if Comparable(plan[i].path, q) { KnownApart(plan[i].path, q); }
      PlannedCanTry(source, form, plan[i]);
      BoundApart(source, plan[i].path, q);
    }
    PlanLeavesRest(source, plan, after, q);
  }

  /** Bound groups make a user listed. */
  lemma BoundIsListed(source: string, name: string)
    requires ValueAt(source, GroupsPath(name)).Some?
    ensures name in UserNames(source)
  {
    hide ParseFile;
    NamesAreKeys(source);
    KeySetIsKeySet(source, USERS);
    assert GroupsPath(name)[..2] == USERS;
    BoundIsKey(Top(ParseFile(source).value).value, GroupsPath(name), USERS);
  }

  /** What a second save writes is there already, or adds a binding. */
  lemma HeldOrUnbound(source: string, form: Form, after: string, p: Planned)
    requires SavedAs(source, form, after) && p in Plan(Extract(after), form)
    ensures ValueAt(after, p.path).None? || HoldsText(after, p)
  {
    hide Extract, Plan, ApplyEdits, ValueAt, NodeRead, PrintValue, ToSource, NamesArePlain, UserNames, ToWrite,
      AllIdents, BoundAt, Spelled, PlainRest, IsBlocked, FindText;
    var plan := Plan(Extract(source), form);
    PlannedAgain(source, form, after, p);
    AllCanTry(source, form);
    if p in plan {
      var j :| 0 <= j < |plan| && plan[j] == p;
      PlanTakesEffect(source, plan, after, p.path);
      ReadAsExactly(p.value);
    } else {
      var name :| name !in UserNames(source) && p.path == GroupsPath(name);
      NotPlanned(source, form, name);
      KnownField(source, form, after, p.path);
      ReadIsValueAt(source, p.path);
      ReadIsValueAt(after, p.path);
      if ValueAt(source, p.path).Some? { BoundIsListed(source, name); }
    }
  }

  /** Nothing is planned for the groups of a user that is not listed. */
  lemma NotPlanned(source: string, form: Form, name: string)
    requires name !in UserNames(source)
    ensures forall p :: p in Plan(Extract(source), form) ==> p.path != GroupsPath(name)
  {
    hide Extract, Plan, UserNames, NewGroups, Checked;
    var config := Extract(source);
    assert "users"[0] != "fortress"[0];
    forall p | p in Plan(config, form)
      ensures p.path != GroupsPath(name)
    {
      PlanExactly(config, form, p);
      if i :| 0 <= i < |config.users| && ForUser(p, config.users[i], form) {
        NameIsListed(source, i);
        assert p.path[2] == config.users[i].username;
      }
    }
  }

  /** Groups that could not be read back are planned again. */
  lemma LostIsPlannedAgain(source: string, form: Form, after: string, j: nat)
    requires SavedAs(source, form, after) && j < |Extract(source).users|
    requires !NameCanBeWritten(source, Extract(source).users[j], form)
    ensures exists p :: p in Plan(Extract(after), form) && ValueAt(after, p.path).None?
  {
    hide SavedAs, Extract, UserNames, NewGroups, ToWrite, ValueAt, IsIdent, Plan, FindText, BoundAt;
    var user := Extract(source).users[j];
    var q := GroupsPath(user.username);
    GroupsAfterSave(source, form, after, j);
    BoundHasNoRest(source, q);
    NameIsListed(source, j);
    UsersAfterSave(source, form, after, user.username);
    var i := ListedAt(after, user.username);
    var now := Extract(after).users[i];
    UserIsAtName(source, j);
    UserIsAtName(after, i);
    UnboundIsUndeclared(source, user.username);
    UnboundIsUndeclared(after, user.username);
    PlannedWhenUndeclared(user, now, form);
    var p := Planned(q, TextList(NewGroups(now, form).value));
    assert ForUser(p, Extract(after).users[i], form);
    PlanExactly(Extract(after), form, p);
  }

  lemma UnboundIsUndeclared(source: string, name: string)
    requires ValueAt(source, GroupsPath(name)).None?
    ensures !UserAt(source, name).groupsDeclared
  {
    hide FindText;
    ReadIsValueAt(source, GroupsPath(name));
  }

  lemma PlannedWhenUndeclared(user: User, now: User, form: Form)
    requires now.username == user.username && !user.groupsDeclared && !now.groupsDeclared
    requires NewGroups(user, form).Some?
    ensures NewGroups(now, form).Some?
  {
  }

  /** Saving the same form a second time leaves the file character for character as it is
      after the first, if and only if what was spelled out for groups were identifiers:
      otherwise the second save fails, or adds the binding that is not read once more. */
  lemma SavingAgainExactly(source: string, form: Form, after: string)
    requires SavedAs(source, form, after)
    ensures ApplyEdits(after, Rendered(Plan(Extract(after), form))) == (Done, after) <==>
      NamesCanBeWritten(source, form)
  {
    hide Extract, Plan, ApplyEdits, ValueAt, HoldsText, NameCanBeWritten, NameIsPlain, CanTry, AllIdents;
    var again := Plan(Extract(after), form);
    forall i | 0 <= i < |again|
      ensures ValueAt(after, again[i].path).None? || HoldsText(after, again[i])
    {
      HeldOrUnbound(source, form, after, again[i]);
    }
    if NamesCanBeWritten(source, form) {
      forall i | 0 <= i < |again| ensures HoldsText(after, again[i]) {
        BoundAgain(source, form, after, again[i]);
      }
      NothingToChange(after, again);
    } else {
      var j :| 0 <= j < |Extract(source).users| && !NameCanBeWritten(source, Extract(source).users[j], form);
      LostIsPlannedAgain(source, form, after, j);
      forall i | 0 <= i < |Extract(after).users| ensures NameIsPlain(after, Extract(after).users[i], form) {
        PlainAgain(source, form, after, i);
      }
      AllCanTry(after, form);
      var p :| p in again && ValueAt(after, p.path).None?;
      var i :| 0 <= i < |again| && again[i] == p;
      if ApplyEdits(after, Rendered(again)) == (Done, after) { AddingGrows(after, again, after); }
    }
  }

  lemma BoundAgain(source: string, form: Form, after: string, p: Planned)
    requires SavedAs(source, form, after) && NamesCanBeWritten(source, form) && p in Plan(Extract(after), form)
    ensures ValueAt(after, p.path).Some?
  {
    hide Extract, Plan, ApplyEdits, ValueAt, NodeRead, NamesArePlain, NamesCanBeWritten, UserNames, BoundAt, Spelled,
      PlainRest, IsBlocked, FindText;
    var plan := Plan(Extract(source), form);
    PlannedAgain(source, form, after, p);
    SameUsers(source, form, after);
    AllCanTry(source, form);
    AllCanWrite(source, form);
    var j :| 0 <= j < |plan| && plan[j] == p;
    PlanTakesEffect(source, plan, after, p.path);
  }

  // ---------- saves that go through ----------

  /** A user with a set of its own can be given groups whatever its name. */
  lemma OwnSetIsEnough(source: string, name: string)
    requires ConflictFreeText(source)
    requires ValueAt(source, USERS + [name]).Some? && ValueAt(source, USERS + [name]).value.Set?
    ensures AllIdents(ToWrite(source, GroupsPath(name)))
  {
    hide ConflictFreeText, ValueAt, ToWrite, IsIdent;
    UsersGroupsAreIdents();
    OnlyTheRestIsWritten(source, USERS + [name], ["groups"]);
    assert USERS + [name] + ["groups"] == GroupsPath(name);
  }

  lemma EmptyFile() returns (f: File)
    ensures ParseFile("{}") == Some(f) && Top(f) == Some(NoEntry) && SetOf(f.root, 0).value.value.recur == ""
  {
    f := File(Bare("", Set("", NoEntry, "")), "");
    var v := Set("", NoEntry, "");
    assert PutValue(v, "") == "{}";
    assert "{}"[0] == '{' && "{}"[1] == '}' && "}"[0] == '}';
    assert "{}"[1..] == "}" && IdentLen("{}") == 0 && "{}"[..0] == "";
    assert !IsParamChar('}');
    assert Run("}", IsParamChar) == 0;
    assert ParamLen("{}") == 2;
    assert NotSpecial("{}");
    EmptyTrivia();
    assert WFValue(v);
    ParsePrint(f);
  }

  /** In an empty file every path of identifiers can be set to every value. */
  lemma EmptyFileCanBeSet(path: Path, v: Value)
    requires path != [] && AllIdents(path) && WFValue(v)
    ensures Settable("{}", path, v)
  {
    hide ParseFile, SetText, SetOf, WFValue, IsIdent;
    var f := EmptyFile();
    IdentsCanBeWritten("{}", path);
    SettableOnTree("{}", path, v);
  }

  /** A form that ticks services can be saved in an empty file. */
  lemma EmptyFileCanBeSaved(form: Form)
    ensures exists after :: SavedAs("{}", form, after)
  {
    hide ParseFile, SetText, ValueAt, FindText, SetOf, NewGroups, Checked, ToWrite, IsIdent, ApplyEdits, Rendered, Plan;
    var f := EmptyFile();
    var config := Extract("{}");
    NothingInEmptyFile();
    var plan := Plan(config, form);
    assert NamesCanBeWritten("{}", form);
    AllCanWrite("{}", form);
    forall i | 0 <= i < |plan| ensures CanSet("{}", plan[i]) {
      PlanExactly(config, form, plan[i]);
      var j :| 0 <= j < |SERVICES| && ForService(plan[i], SERVICES[j], config, form);
      ConstantsAreIdents();
      ReadAsExactly(plan[i].value);
      EmptyFileCanBeSet(plan[i].path, NodeRead(plan[i].value).value);
    }
    SavesExactly("{}", plan);
    assert SavedAs("{}", form, ApplyEdits("{}", Rendered(plan)).1);
  }

  lemma UnboundInEmptyFile(path: Path)
    ensures Read("{}", path).None?
  {
    hide ParseFile, FindText, SetOf;
    var f := EmptyFile();
    assert Get(NoEntry, path).None?;
    ReadIsValueAt("{}", path);
  }

  lemma NothingInEmptyFile()
    ensures var c := Extract("{}"); c.hostname.None? && c.rootDomain.None? && c.users == []
  {
    hide ParseFile, FindText, SetOf;
    var f := EmptyFile();
    assert KeysText("{}", USERS).None?;
    UnboundInEmptyFile(HOSTNAME);
    UnboundInEmptyFile(BASE_DOMAIN);
  }
}
