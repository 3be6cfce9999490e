/** The dashboard as a bidirectional editor: `extract` reads the known fields, `build_edits`
    turns a submitted form into edits, `save_config` applies them all or none and replaces
    the file atomically.  The editor law connects the three. */
module Dashboard {
  import opened Options
  import opened NixSyntax
  import opened NixValues
  import opened NixEdit
  import opened NixConfigFile

  // ---------- the schema ----------

  const HOSTNAME: Path := ["networking", "hostName"]
  const BASE_DOMAIN: Path := ["fortress", "baseDomain"]
  const USERS: Path := ["users", "users"]
  const SERVICES := ["jellyfin", "cryptpad", "forgejo", "media"]

  function ServicePath(name: string): Path { ["fortress", "services", name, "enable"] }
  function HashPath(user: string): Path { ["users", "users", user, "hashedPassword"] }
  function GroupsPath(user: string): Path { ["users", "users", user, "groups"] }

  // ---------- extract ----------

  datatype User = User(username: string, hashedPassword: Option<string>, groups: set<string>, groupsDeclared: bool)

  /** `users` is in the order of the user names. */
  datatype Config = Config(
    hostname: Option<string>, rootDomain: Option<string>, services: map<string, bool>, users: seq<User>)

  function Read(source: string, path: Path): Option<NixValue> {
    match FindText(source, path)
    case None => None
    case Some(l) => Some(l.value)
  }

  function TextAt(source: string, path: Path): Option<string> {
    match Read(source, path)
    case Some(Text(s)) => Some(s)
    case _ => None
  }

  function FlagAt(source: string, path: Path): Option<bool> {
    match Read(source, path)
    case Some(Bool(b)) => Some(b)
    case _ => None
  }

  function ListAt(source: string, path: Path): Option<seq<string>> {
    match Read(source, path)
    case Some(TextList(items)) => Some(items)
    case _ => None
  }

  function ToSet(items: seq<string>): set<string> { set x | x in items }

  function UserAt(source: string, name: string): User {
    match ListAt(source, GroupsPath(name))
    case None => User(name, TextAt(source, HashPath(name)), {}, false)
    case Some(items) => User(name, TextAt(source, HashPath(name)), ToSet(items), true)
  }

  function UserNames(source: string): seq<string> {
    match KeysText(source, USERS)
    case None => []
    case Some(names) => names
  }

  function UsersAt(source: string, names: seq<string>): (users: seq<User>)
    ensures |users| == |names| && forall i :: 0 <= i < |names| ==> users[i] == UserAt(source, names[i])
  {
    if names == [] then [] else [UserAt(source, names[0])] + UsersAt(source, names[1..])
  }

  function ServicesAt(source: string): map<string, bool> {
    map s | s in SERVICES && FlagAt(source, ServicePath(s)).Some? :: FlagAt(source, ServicePath(s)).value
  }

  function Extract(source: string): Config {
    Config(TextAt(source, HOSTNAME), TextAt(source, BASE_DOMAIN), ServicesAt(source), UsersAt(source, UserNames(source)))
  }

  method FindString(file: ConfigFile, path: Path) returns (r: Option<string>)
    requires file.Valid()
    ensures r == TextAt(file.source, path)
  {
    var found := file.FindAttrpath(path);
    r := if found.Some? && found.value.value.Text? then Some(found.value.value.s) else None;
  }

  method FindFlag(file: ConfigFile, path: Path) returns (r: Option<bool>)
    requires file.Valid()
    ensures r == FlagAt(file.source, path)
  {
    var found := file.FindAttrpath(path);
    r := if found.Some? && found.value.value.Bool? then Some(found.value.value.b) else None;
  }

  method ExtractServices(file: ConfigFile) returns (services: map<string, bool>)
    requires file.Valid()
    ensures services == ServicesAt(file.source)
  {
    hide FlagAt;
    services := map[];
    for i := 0 to |SERVICES|
      invariant forall s :: s in services <==> s in SERVICES[..i] && FlagAt(file.source, ServicePath(s)).Some?
      invariant forall s :: s in services ==> services[s] == FlagAt(file.source, ServicePath(s)).value
    {
      assert SERVICES[..i + 1] == SERVICES[..i] + [SERVICES[i]];
      var enabled := FindFlag(file, ServicePath(SERVICES[i]));
      if enabled.Some? { services := services[SERVICES[i] := enabled.value]; }
    }
    assert SERVICES[..|SERVICES|] == SERVICES;
  }

  method ExtractUser(file: ConfigFile, name: string) returns (user: User)
    requires file.Valid()
    ensures user == UserAt(file.source, name)
  {
    var hash := FindString(file, HashPath(name));
    var found := file.FindAttrpath(GroupsPath(name));
    user := User(name, hash, {}, false);
    if found.Some? && found.value.value.TextList? {
      user := user.(groups := ToSet(found.value.value.items), groupsDeclared := true);
    }
  }

  method ExtractUsers(file: ConfigFile) returns (users: seq<User>)
    requires file.Valid()
    ensures users == UsersAt(file.source, UserNames(file.source))
  {
    users := [];
    var names := file.AttrsetKeys(USERS);
    if names.Some? {
      hide UserAt;
      for i := 0 to |names.value|
        invariant users == UsersAt(file.source, names.value)[..i]
      {
        var user := ExtractUser(file, names.value[i]);
        users := users + [user];
      }
    }
  }

  method ExtractConfig(file: ConfigFile) returns (config: Config)
    requires file.Valid()
    ensures config == Extract(file.source)
  {
    var hostname := FindString(file, HOSTNAME);
    var rootDomain := FindString(file, BASE_DOMAIN);
    var services := ExtractServices(file);
    var users := ExtractUsers(file);
    config := Config(hostname, rootDomain, services, users);
  }

  // ---------- build_edits ----------

  datatype Form = Form(hostname: Option<string>, baseDomain: Option<string>, fields: map<string, string>)

  predicate Checked(form: Form, name: string) {
    "svc_" + name in form.fields && form.fields["svc_" + name] == "true"
  }

  function SubmittedGroups(form: Form, user: string): Option<string> {
    if "groups_" + user in form.fields then Some(form.fields["groups_" + user]) else None
  }

  predicate IsSeparator(c: char) { IsWhitespace(c) || c == ',' }

  predicate IsWordChar(c: char) { !IsSeparator(c) }

  /** The non-empty words between separators. */
  function SplitGroups(text: string): seq<string>
    decreases |text|
  {
    if text == "" then []
    else if IsSeparator(text[0]) then SplitGroups(text[1..])
    else
      var n := Run(text, IsWordChar);
      [text[..n]] + SplitGroups(text[n..])
  }

  lemma {:induction false} SplitAtSeparator(a: string, c: char, b: string)
    requires IsSeparator(c)
    ensures SplitGroups(a + ([c] + b)) == SplitGroups(a) + SplitGroups(b)
    decreases |a|
  {
    var t := a + ([c] + b);
    if a == "" {
      assert t == [c] + b && t[1..] == b;
    } else if IsSeparator(a[0]) {
      assert t[1..] == a[1..] + ([c] + b);
      SplitAtSeparator(a[1..], c, b);
    } else {
      var n := Run(a, IsWordChar);
      RunTake(a, IsWordChar);
      assert t == a[..n] + (a[n..] + ([c] + b));
      RunAppend(a[..n], a[n..] + ([c] + b), IsWordChar);
      assert t[..n] == a[..n] && t[n..] == a[n..] + ([c] + b);
      SplitAtSeparator(a[n..], c, b);
    }
  }

  lemma SplitWord(word: string)
    requires word != "" && All(word, IsWordChar)
    ensures SplitGroups(word) == [word]
  {
    assert word[..|word|] == word && word[|word|..] == "";
  }

  /** One field edit: a path and the source text of its new value. */
  datatype ConfigEdit = ConfigEdit(path: Path, text: string)

  /** The same with the value itself. */
  datatype Planned = Planned(path: Path, value: NixValue)

  function PlanText(path: Path, submitted: Option<string>, current: Option<string>): seq<Planned> {
    if submitted.Some? && current.Some? then [Planned(path, Text(submitted.value))] else []
  }

  function PlanServices(services: map<string, bool>, form: Form, names: seq<string>): seq<Planned> {
    if names == [] then []
    else
      (if names[0] !in services && !Checked(form, names[0]) then []
       else [Planned(ServicePath(names[0]), Bool(Checked(form, names[0])))])
      + PlanServices(services, form, names[1..])
  }

  /** The groups that a save writes for a user, if it writes any. */
  function NewGroups(user: User, form: Form): Option<seq<string>> {
    match SubmittedGroups(form, user.username)
    case None => None
    case Some(text) =>
      var groups := SplitGroups(text);
      if !user.groupsDeclared && groups == [] then None else Some(groups)
  }

  function PlanUsers(users: seq<User>, form: Form): seq<Planned> {
    if users == [] then []
    else
      (match NewGroups(users[0], form)
       case None => []
       case Some(groups) => [Planned(GroupsPath(users[0].username), TextList(groups))])
      + PlanUsers(users[1..], form)
  }

  function Plan(config: Config, form: Form): seq<Planned> {
    PlanText(HOSTNAME, form.hostname, config.hostname)
    + PlanText(BASE_DOMAIN, form.baseDomain, config.rootDomain)
    + PlanServices(config.services, form, SERVICES)
    + PlanUsers(config.users, form)
  }

  function Rendered(plan: seq<Planned>): (edits: seq<ConfigEdit>)
    ensures |edits| == |plan|
  {
    if plan == [] then [] else [ConfigEdit(plan[0].path, ToSource(plan[0].value))] + Rendered(plan[1..])
  }

  lemma {:induction false} RenderedConcat(a: seq<Planned>, b: seq<Planned>)
    ensures Rendered(a + b) == Rendered(a) + Rendered(b)
  {
    if a == [] {
      assert a + b == b;
    } else {
      assert (a + b)[1..] == a[1..] + b;
      RenderedConcat(a[1..], b);
    }
  }

  lemma NothingRendered()
    ensures Rendered([]) == []
  {
  }

  lemma OneRendered(p: Planned)
    ensures Rendered([p]) == [ConfigEdit(p.path, ToSource(p.value))]
  {
  }

  lemma TextRendered(path: Path, submitted: Option<string>, current: Option<string>)
    ensures Rendered(PlanText(path, submitted, current)) ==
      if submitted.Some? && current.Some? then [ConfigEdit(path, Quote(submitted.value))] else []
  {
    hide Rendered, Quote;
    NothingRendered();
    if submitted.Some? && current.Some? { OneRendered(Planned(path, Text(submitted.value))); }
  }

  method ServiceEdits(config: Config, form: Form) returns (edits: seq<ConfigEdit>)
    ensures edits == Rendered(PlanServices(config.services, form, SERVICES))
  {
    hide ToSource, ServicePath, Checked, Rendered;
    edits := [];
    NothingRendered();
    ghost var all := Rendered(PlanServices(config.services, form, SERVICES));
    assert SERVICES[0..] == SERVICES;
    for i := 0 to |SERVICES|
      invariant edits + Rendered(PlanServices(config.services, form, SERVICES[i..])) == all
    {
      var name := SERVICES[i];
      var enabled := Checked(form, name);
      ghost var rest := PlanServices(config.services, form, SERVICES[i + 1..]);
      assert SERVICES[i..][0] == name && SERVICES[i..][1..] == SERVICES[i + 1..];
      if name !in config.services && !enabled {
        assert [] + rest == rest;
        continue;
      }
      RenderedConcat([Planned(ServicePath(name), Bool(enabled))], rest);
      OneRendered(Planned(ServicePath(name), Bool(enabled)));
      edits := edits + [ConfigEdit(ServicePath(name), ToSource(Bool(enabled)))];
    }
    assert SERVICES[|SERVICES|..] == [];
  }

  method UserEdits(users: seq<User>, form: Form) returns (edits: seq<ConfigEdit>)
    ensures edits == Rendered(PlanUsers(users, form))
  {
    hide SplitGroups, ToSource;
    edits := [];
    assert users[0..] == users;
    for i := 0 to |users|
      invariant edits + Rendered(PlanUsers(users[i..], form)) == Rendered(PlanUsers(users, form))
    {
      var user := users[i];
      ghost var rest := PlanUsers(users[i + 1..], form);
      assert users[i..][0] == user && users[i..][1..] == users[i + 1..];
      var text := SubmittedGroups(form, user.username);
      var groups := if text.Some? then SplitGroups(text.value) else [];
      if text.None? || (!user.groupsDeclared && groups == []) {
        assert [] + rest == rest;
        continue;
      }
      RenderedConcat([Planned(GroupsPath(user.username), TextList(groups))], rest);
      edits := edits + [ConfigEdit(GroupsPath(user.username), ToSource(TextList(groups)))];
    }
    assert users[|users|..] == [];
  }

  method BuildEdits(config: Config, form: Form) returns (edits: seq<ConfigEdit>)
    ensures edits == Rendered(Plan(config, form))
  {
    hide Quote, PlanServices, PlanUsers, Rendered, ToSource, NewGroups, Checked;
    var a := PlanText(HOSTNAME, form.hostname, config.hostname);
    var b := PlanText(BASE_DOMAIN, form.baseDomain, config.rootDomain);
    edits := [];
    if form.hostname.Some? && config.hostname.Some? {
      var text := QuoteNixString(form.hostname.value);
      edits := edits + [ConfigEdit(HOSTNAME, text)];
    }
    TextRendered(HOSTNAME, form.hostname, config.hostname);
    if form.baseDomain.Some? && config.rootDomain.Some? {
      var text := QuoteNixString(form.baseDomain.value);
      edits := edits + [ConfigEdit(BASE_DOMAIN, text)];
    }
    TextRendered(BASE_DOMAIN, form.baseDomain, config.rootDomain);
    hide PlanText;
    RenderedConcat(a, b);
    var services := ServiceEdits(config, form);
    RenderedConcat(a + b, PlanServices(config.services, form, SERVICES));
    edits := edits + services;
    var users := UserEdits(config.users, form);
    RenderedConcat(a + b + PlanServices(config.services, form, SERVICES), PlanUsers(config.users, form));
    edits := edits + users;
  }
}
