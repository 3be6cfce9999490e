/** Properties of whole runs of the account store. */
module AccountLaws {
  import opened Accounts
  import opened Options

  /** One serial operation of a run, with the store commands that go through. */
  datatype Event = Event(op: Op, up: Link)

  /** The store after a run from the empty store. */
  function After(run: seq<Event>): Store {
    if run == [] then map[]
    else Step(After(run[..|run| - 1]), run[|run| - 1].op, run[|run| - 1].up).1
  }

  /** What the n-th operation of a run answers. */
  function Answer(run: seq<Event>, n: nat): Reply
    requires n < |run|
  {
    Step(After(run[..n]), run[n].op, run[n].up).0
  }

  lemma AfterOne(run: seq<Event>, n: nat)
    requires n < |run|
    ensures After(run[..n + 1]) == Step(After(run[..n]), run[n].op, run[n].up).1
  {
    assert run[..n + 1][..n] == run[..n];
  }

  // ---------- every session belongs to an active account ----------

  /** What SCAN promises: a session that is there all along is in some page. */
  predicate Covers(s: Store, pages: seq<seq<string>>) {
    forall k :: k in s && k.SessionKey? ==> Listed(k.token, pages)
  }

  predicate Listed(token: string, pages: seq<seq<string>>) {
    exists i :: 0 <= i < |pages| && token in pages[i]
  }

  predicate ScanIsComplete(s: Store, op: Op) {
    op.Delete? ==> Covers(s, op.pages)
  }

  ghost predicate ScansAreComplete(run: seq<Event>) {
    forall n :: 0 <= n < |run| ==> ScanIsComplete(After(run[..n]), run[n].op)
  }

  predicate ActiveAccount(s: Store, email: string) {
    AccountKey(email) in s && s[AccountKey(email)].Account? && s[AccountKey(email)].rec.status == Active
  }

  /** Account keys hold records, token keys hold emails, and the email of every stored session
      has an active account. */
  predicate Sound(s: Store) {
    forall k :: k in s ==>
      && (k.AccountKey? ==> s[k].Account?)
      && (k.VerifyKey? || k.ResetKey? || k.SessionKey? ==> s[k].Mail?)
      && (k.SessionKey? ==> ActiveAccount(s, s[k].email))
  }

  predicate HasSession(s: Store, email: string) {
    exists k :: k in s && k.SessionKey? && s[k] == Mail(email)
  }

  /** A store that lost nothing but sessions of the email and invites among the given. */
  predicate Trimmed(s: Store, t: Store, email: string, codes: seq<string>) {
    && (forall k :: k in t ==> k in s && t[k] == s[k])
    && (forall k :: k in s && k !in t ==>
          (k.InviteKey? && k.code in codes) || (k.SessionKey? && s[k] == Mail(email)))
  }

  lemma {:induction false} DropTrims(s: Store, codes: seq<string>, up: Link, at: nat, email: string)
    ensures var (ok, t) := DropInvites(s, codes, up, at);
      Trimmed(s, t, email, codes) &&
      (forall k :: k in s && !k.InviteKey? ==> k in t) &&
      (ok ==> forall k :: k in t && k.InviteKey? ==> k.code !in codes)
    decreases |codes|
  {
    if codes != [] && up(at) {
      DropTrims(s - {InviteKey(codes[0])}, codes[1..], up, at + 1, email);
    }
  }

  /** A page that was swept to its end leaves no listed session of the email. */
  lemma {:induction false} PageSwept(s: Store, email: string, page: seq<string>, up: Link, at: nat)
    ensures var (ok, t, _) := SweepPage(s, email, page, up, at);
      Trimmed(s, t, email, []) &&
      (forall k :: k in s && !k.SessionKey? ==> k in t) &&
      (ok ==> forall k :: k in t && k.SessionKey? && k.token in page ==> t[k] != Mail(email))
    decreases |page|
  {
    if page != [] && up(at) {
      var k := SessionKey(page[0]);
      if k !in s || s[k] != Mail(email) {
        PageSwept(s, email, page[1..], up, at + 1);
      } else if up(at + 1) {
        PageSwept(s - {k}, email, page[1..], up, at + 2);
      }
    }
  }

  lemma {:induction false} ScanSwept(s: Store, email: string, pages: seq<seq<string>>, up: Link, at: nat)
    ensures var (ok, t, _) := Sweep(s, email, pages, up, at);
      Trimmed(s, t, email, []) &&
      (forall k :: k in s && !k.SessionKey? ==> k in t) &&
      (ok ==> forall k :: k in t && k.SessionKey? && Listed(k.token, pages) ==> t[k] != Mail(email))
    decreases |pages|
  {
    if pages != [] && up(at) {
      PageSwept(s, email, pages[0], up, at + 1);
      var (ok, s1, next) := SweepPage(s, email, pages[0], up, at + 1);
      if ok {
        ScanSwept(s1, email, pages[1..], up, next);
        forall token | Listed(token, pages) ensures token in pages[0] || Listed(token, pages[1..]) {
          var i :| 0 <= i < |pages| && token in pages[i];
          if i > 0 { assert token in pages[1..][i - 1]; }
        }
      }
    }
  }

  /** Deleting an account, stopped at any command or not at all: nothing goes but its invites,
      sessions of the email and, only when all went well, its record; and once the record is
      gone no session of the email and none of the invites is left. */
  lemma DeleteKeeps(s: Store, op: Op, up: Link)
    requires op.Delete? && Covers(s, op.pages)
    ensures var (r, t) := Step(s, op, up); var k := AccountKey(op.email);
      (r == Ok ==>
        k in s && k !in t && Trimmed(s, t[k := s[k]], op.email, op.invites) && !HasSession(t, op.email) &&
        forall code :: code in op.invites ==> InviteKey(code) !in t) &&
      (r != Ok ==> Trimmed(s, t, op.email, op.invites))
  {
    var k := AccountKey(op.email);
    if up(0) && k in s && s[k].Account? {
      var (dropped, s1) := DropInvites(s, op.invites, up, 1);
      DropTrims(s, op.invites, up, 1, op.email);
      if dropped {
        ScanSwept(s1, op.email, op.pages, up, 1 + |op.invites|);
      }
    }
  }

  /** Only deleting an account ends its being active. */
  lemma ActiveStays(s: Store, op: Op, up: Link, email: string)
    requires ActiveAccount(s, email) && !op.Delete?
    ensures ActiveAccount(Step(s, op, up).1, email)
  {
  }

  /** Each operation, whatever commands fail, keeps the store sound. */
  lemma StepKeepsSound(s: Store, op: Op, up: Link)
    requires Sound(s) && ScanIsComplete(s, op)
    ensures Sound(Step(s, op, up).1)
  {
    var (r, t) := Step(s, op, up);
    if op.Delete? {
      hide Step;
      DeleteKeeps(s, op, up);
      forall k | k in t && k.SessionKey? ensures ActiveAccount(t, t[k].email) {
        assert t[k] == s[k] && ActiveAccount(s, s[k].email);
        if t[k].email == op.email { assert HasSession(t, op.email); }
        assert AccountKey(t[k].email) in t;
      }
    } else {
      forall k | k in t && k.SessionKey? ensures t[k].Mail? && ActiveAccount(t, t[k].email) {
        if k in s && s[k] == t[k] {
          ActiveStays(s, op, up, s[k].email);
        } else {
          assert op.Login? && Step(s, op, up).0 == Session(k.token);
        }
      }
    }
  }

  /** In every run each stored session's email has an active account. */
  lemma {:induction false} SessionsAreActive(run: seq<Event>)
    requires ScansAreComplete(run)
    ensures Sound(After(run))
  {
    if run == [] {
    } else {
      var last := |run| - 1;
      ScansPrefix(run, last);
      SessionsAreActive(run[..last]);
      StepKeepsSound(After(run[..last]), run[last].op, run[last].up);
    }
  }

  lemma ScansPrefix(run: seq<Event>, n: nat)
    requires ScansAreComplete(run) && n <= |run|
    ensures ScansAreComplete(run[..n])
  {
    hide After, ScanIsComplete;
    forall i | 0 <= i < n ensures ScanIsComplete(After(run[..n][..i]), run[..n][i].op) {
      assert run[..n][..i] == run[..i];
    }
  }

  /** No operation of a run ever finds a corrupt record. */
  lemma NeverCorrupt(run: seq<Event>, n: nat)
    requires ScansAreComplete(run) && n < |run|
    ensures Answer(run, n) != Corrupt
  {
    hide After;
    ScansPrefix(run, n);
    SessionsAreActive(run[..n]);
  }

  /** So whoever deletes an account to the end leaves neither its record nor a session. */
  lemma DeletedForGood(run: seq<Event>, n: nat)
    requires ScansAreComplete(run) && n < |run| && run[n].op.Delete? && Answer(run, n) == Ok
    ensures AccountKey(run[n].op.email) in After(run[..n])
    ensures AccountKey(run[n].op.email) !in After(run[..n + 1])
    ensures !HasSession(After(run[..n + 1]), run[n].op.email)
  {
    AfterOne(run, n);
    DeleteKeeps(After(run[..n]), run[n].op, run[n].up);
  }

  // ---------- the history of an account ----------

  /** The key and email an operation issues, under a token drawn for it. */
  function Issued(op: Op): (Key, string)
    requires Issues(op)
  {
    match op
    case Signup(email, _, _, _, _, token, _) => (VerifyKey(token), email)
    case Resend(email, token, _) => (VerifyKey(token), email)
    case RequestReset(email, token, _) => (ResetKey(token), email)
    case Login(email, _, token) => (SessionKey(token), email)
  }

  predicate Issues(op: Op) { op.Signup? || op.Resend? || op.RequestReset? || op.Login? }

  /** The emails for which a run drew the token. */
  function Owners(run: seq<Event>, k: Key): set<string> {
    if run == [] then {}
    else
      var op := run[|run| - 1].op;
      Owners(run[..|run| - 1], k) + if Issues(op) && Issued(op).0 == k then {Issued(op).1} else {}
  }

  /** Each token is drawn once. */
  ghost predicate FreshTokens(run: seq<Event>) {
    forall n :: 0 <= n < |run| && Issues(run[n].op) ==> Owners(run[..n], Issued(run[n].op).0) == {}
  }

  /** What an operation did to an account, told by its answer and, for a signup that was cut
      short, by which of its commands went through: the store is not looked at. */
  datatype Effect =
    | Nothing
    | Created(email: string, uuid: string, password: string)
    | Verified(token: string)
    | NewPassword(token: string, password: string)
    | Removed(email: string)

  function EffectOf(e: Event, r: Reply): Effect {
    match e.op
    case Signup(email, password, _, uuid, _, _, _) =>
      if r == Ok || (r == StoreError && e.up(0) && e.up(1)) || (r == MailError && !e.up(3))
      then Created(email, uuid, password) else Nothing
    case Verify(token) => if r == Ok then Verified(token) else Nothing
    case Reset(token, password, _) => if r == Ok then NewPassword(token, password) else Nothing
    case Delete(email, _, _) => if r == Ok then Removed(email) else Nothing
    case _ => Nothing
  }

  datatype Person = Person(uuid: string, active: bool, password: string)

  /** An account after the effects of a run, seen from the outside: there from its signup to
      its deletion, active from the verification of a token drawn for its email, and with the
      password last given by signup or by a reset with a token drawn for it. */
  datatype View = Absent | Present(person: Person)

  function ViewOf(run: seq<Event>, email: string): View {
    if run == [] then Absent
    else
      var n := |run| - 1;
      var v := ViewOf(run[..n], email);
      match EffectOf(run[n], Answer(run, n))
      case Nothing => v
      case Created(who, uuid, password) => if who == email then Present(Person(uuid, false, password)) else v
      case Verified(token) =>
        if v.Present? && email in Owners(run[..n], VerifyKey(token)) then Present(v.person.(active := true)) else v
      case NewPassword(token, password) =>
        if v.Present? && email in Owners(run[..n], ResetKey(token)) then Present(v.person.(password := password)) else v
      case Removed(who) => if who == email then Absent else v
  }

  /** What the store says of an account. */
  function Stored(s: Store, email: string): View {
    var k := AccountKey(email);
    if k in s && s[k].Account? then
      Present(Person(s[k].rec.uuid, s[k].rec.status == Active, s[k].rec.passwordHash.of))
    else Absent
  }

  /** Every stored token stands for the one email it was drawn for. */
  lemma {:induction false} TokensHaveOneOwner(run: seq<Event>, k: Key)
    requires FreshTokens(run)
    requires k.VerifyKey? || k.ResetKey? || k.SessionKey?
    ensures k in After(run) ==> After(run)[k].Mail? && Owners(run, k) == {After(run)[k].email}
  {
    if run == [] {
    } else {
      var last := |run| - 1;
      FreshPrefix(run, last);
      TokensHaveOneOwner(run[..last], k);
      StepKeepsTokens(After(run[..last]), run[last].op, run[last].up, k);
    }
  }

  lemma FreshPrefix(run: seq<Event>, n: nat)
    requires FreshTokens(run) && n <= |run|
    ensures FreshTokens(run[..n])
  {
    hide Owners;
    forall i | 0 <= i < n && Issues(run[..n][i].op)
      ensures Owners(run[..n][..i], Issued(run[..n][i].op).0) == {}
    {
      assert run[..n][..i] == run[..i];
    }
  }

  /** An operation writes a token key only as it issues it. */
  lemma StepKeepsTokens(s: Store, op: Op, up: Link, k: Key)
    requires k.VerifyKey? || k.ResetKey? || k.SessionKey?
    ensures var t := Step(s, op, up).1;
      k in t ==> (k in s && t[k] == s[k]) || (Issues(op) && Issued(op) == (k, t[k].email) && t[k].Mail?)
  {
    if op.Delete? {
      DropTrims(s, op.invites, up, 1, op.email);
      var (dropped, s1) := DropInvites(s, op.invites, up, 1);
      ScanSwept(s1, op.email, op.pages, up, 1 + |op.invites|);
    }
  }

  /** One operation changes what the store says of an account as its answer tells. */
  lemma StepStored(s: Store, e: Event, email: string)
    ensures var (r, t) := Step(s, e.op, e.up); var was, now := Stored(s, email), Stored(t, email);
      match EffectOf(e, r)
      case Nothing => now == was
      case Created(who, uuid, password) =>
        now == if who == email then Present(Person(uuid, false, password)) else was
      case Verified(token) =>
        var k := VerifyKey(token);
        k in s && s[k].Mail? &&
        now == if was.Present? && s[k].email == email then Present(was.person.(active := true)) else was
      case NewPassword(token, password) =>
        var k := ResetKey(token);
        k in s && s[k].Mail? &&
        now == if was.Present? && s[k].email == email then Present(was.person.(password := password)) else was
      case Removed(who) => now == if who == email then Absent else was
  {
    var op, up := e.op, e.up;
    if op.Delete? {
      DropTrims(s, op.invites, up, 1, op.email);
      var (dropped, s1) := DropInvites(s, op.invites, up, 1);
      ScanSwept(s1, op.email, op.pages, up, 1 + |op.invites|);
    }
  }

  /** Over every run with fresh tokens, what the store says of an account is what its answers
      so far tell. */
  lemma {:induction false} StoreTellsHistory(run: seq<Event>, email: string)
    requires FreshTokens(run)
    ensures Stored(After(run), email) == ViewOf(run, email)
  {
    if run == [] {
    } else {
      var n := |run| - 1;
      var before, e := run[..n], run[n];
      FreshPrefix(run, n);
      StoreTellsHistory(before, email);
      StepStored(After(before), e, email);
      match EffectOf(e, Answer(run, n))
      case Verified(token) => TokensHaveOneOwner(before, VerifyKey(token));
      case NewPassword(token, _) => TokensHaveOneOwner(before, ResetKey(token));
      case _ =>
    }
  }

  /** Login opens a session exactly for the account that is there, was verified, and whose
      password was last set to the one given. */
  lemma LoginExactly(run: seq<Event>, n: nat)
    requires FreshTokens(run) && n < |run| && run[n].op.Login? && run[n].up(0) && run[n].up(1)
    ensures var op := run[n].op; var v := ViewOf(run[..n], op.email);
      Answer(run, n) == Session(op.token) <==>
        v.Present? && v.person.active && v.person.password == op.password
  {
    FreshPrefix(run, n);
    StoreTellsHistory(run[..n], run[n].op.email);
  }

  // ---------- identity and status ----------

  predicate Exists(s: Store, email: string) { Stored(s, email).Present? }

  /** While an account exists its uuid is the same, and once active it stays active. */
  lemma {:induction false} IdentityIsKept(run: seq<Event>, i: nat, j: nat, email: string)
    requires i <= j <= |run|
    requires forall n :: i <= n <= j ==> Exists(After(run[..n]), email)
    ensures Exists(After(run[..i]), email) && Exists(After(run[..j]), email)
    ensures var was, now := Stored(After(run[..i]), email).person, Stored(After(run[..j]), email).person;
      now.uuid == was.uuid && (was.active ==> now.active)
    decreases j
  {
    if i < j {
      IdentityIsKept(run, i, j - 1, email);
      AfterOne(run, j - 1);
      assert Exists(After(run[..j - 1]), email);
      StepKeepsIdentity(After(run[..j - 1]), run[j - 1], email);
    }
  }

  lemma StepKeepsIdentity(s: Store, e: Event, email: string)
    requires Exists(s, email) && Exists(Step(s, e.op, e.up).1, email)
    ensures var was, now := Stored(s, email).person, Stored(Step(s, e.op, e.up).1, email).person;
      now.uuid == was.uuid && (was.active ==> now.active)
  {
    StepStored(s, e, email);
  }

  // ---------- single use ----------

  /** A token that was redeemed is never accepted again. */
  lemma {:induction false} SpentForGood(run: seq<Event>, i: nat, j: nat, k: Key)
    requires FreshTokens(run) && i < j <= |run| && (k.VerifyKey? || k.ResetKey?)
    requires Redeems(run[i].op, k) && Accepted(Answer(run, i))
    ensures k !in After(run[..j]) && Owners(run[..j], k) != {}
    decreases j
  {
    hide Step;
    if j == i + 1 {
      AfterOne(run, i);
      FreshPrefix(run, i);
      RedeemSpends(After(run[..i]), run[i].op, run[i].up, k);
      TokensHaveOneOwner(run[..i], k);
      assert run[..j][..i] == run[..i];
    } else {
      SpentForGood(run, i, j - 1, k);
      AfterOne(run, j - 1);
      StepKeepsTokens(After(run[..j - 1]), run[j - 1].op, run[j - 1].up, k);
      assert run[..j][..j - 1] == run[..j - 1];
    }
  }

  predicate Redeems(op: Op, k: Key) {
    (op.Verify? && k == VerifyKey(op.token)) || (op.Reset? && k == ResetKey(op.token))
  }

  /** The answers that say the token itself was accepted. */
  predicate Accepted(r: Reply) { r == Ok || r == NotFound || r == Corrupt }

  lemma RedeemSpends(s: Store, op: Op, up: Link, k: Key)
    requires Redeems(op, k) && Accepted(Step(s, op, up).0)
    ensures k in s && k !in Step(s, op, up).1
  {
  }

  lemma SingleUse(run: seq<Event>, i: nat, j: nat, k: Key)
    requires FreshTokens(run) && i < j < |run| && (k.VerifyKey? || k.ResetKey?)
    requires Redeems(run[i].op, k) && Redeems(run[j].op, k) && Accepted(Answer(run, i))
    ensures Answer(run, j) in {InvalidToken, InvalidPassword, StoreError}
  {
    SpentForGood(run, i, j, k);
  }

  // ---------- whose account a token acts on ----------

  function Told(run: seq<Event>, n: nat): Effect
    requires n < |run|
  {
    EffectOf(run[n], Answer(run, n))
  }

  /** The signup that made the account that is there now, if one is. */
  function Born(run: seq<Event>, email: string): (b: Option<nat>)
    ensures b.Some? ==> b.value < |run|
  {
    if run == [] then None
    else
      var n := |run| - 1;
      match Told(run, n)
      case Created(who, _, _) => if who == email then Some(n) else Born(run[..n], email)
      case Removed(who) => if who == email then None else Born(run[..n], email)
      case _ => Born(run[..n], email)
  }

  /** An account is there exactly if it was born, and it has the uuid of its signup. */
  lemma {:induction false} BornIsThere(run: seq<Event>, email: string)
    ensures Born(run, email).Some? <==> ViewOf(run, email).Present?
    ensures Born(run, email).Some? ==>
      var op := run[Born(run, email).value].op;
      op.Signup? && op.email == email && op.uuid == ViewOf(run, email).person.uuid
  {
    if run == [] {
    } else {
      var n := |run| - 1;
      BornIsThere(run[..n], email);
      hide After, Step;
    }
  }

  lemma CreatedWhereAbsent(s: Store, e: Event)
    requires EffectOf(e, Step(s, e.op, e.up).0).Created?
    ensures Stored(s, e.op.email).Absent?
  {
  }

  /** What one operation does to who is there: accounts are only born where none is. */
  lemma BornStep(run: seq<Event>, n: nat, email: string)
    requires FreshTokens(run) && n < |run|
    ensures var was, now := Born(run[..n], email), Born(run[..n + 1], email);
      match Told(run, n)
      case Created(who, _, _) => if who == email then was.None? && now == Some(n) else now == was
      case Removed(who) => now == if who == email then None else was
      case _ => now == was
  {
    assert run[..n + 1][..n] == run[..n];
    assert Told(run[..n + 1], n) == Told(run, n);
    if Told(run, n).Created? {
      FreshPrefix(run, n);
      StoreTellsHistory(run[..n], email);
      BornIsThere(run[..n], email);
      CreatedWhereAbsent(After(run[..n]), run[n]);
    }
    hide After, ViewOf, Step, Stored;
  }

  /** An account is the same after some operations exactly if it was there and none of them
      removed it. */
  lemma {:induction false} SameAccountExactly(run: seq<Event>, i: nat, n: nat, email: string)
    requires FreshTokens(run) && i <= n <= |run|
    ensures Born(run[..n], email).Some? && Born(run[..n], email) == Born(run[..i], email) <==>
      Born(run[..i], email).Some? && forall m :: i <= m < n ==> Told(run, m) != Removed(email)
    decreases n
  {
    hide Born, Told, FreshTokens;
    if i == n {
    } else {
      SameAccountExactly(run, i, n - 1, email);
      BornStep(run, n - 1, email);
    }
  }

  lemma {:induction false} OwnersGrow(run: seq<Event>, i: nat, n: nat)
    requires i < n <= |run| && Issues(run[i].op)
    ensures Issued(run[i].op).1 in Owners(run[..n], Issued(run[i].op).0)
    decreases n
  {
    assert run[..n][..n - 1] == run[..n - 1];
    if i == n - 1 {
    } else {
      OwnersGrow(run, i, n - 1);
    }
  }

  /** A token that is accepted acts on the account that its email has then.  That is the account
      it was drawn for if and only if this was there after the draw and was not deleted since:
      a deletion leaves the tokens of the account. */
  lemma TokenActsOnItsOwnExactly(run: seq<Event>, i: nat, n: nat, k: Key)
    requires FreshTokens(run) && i < n < |run| && (k.VerifyKey? || k.ResetKey?)
    requires Issues(run[i].op) && Issued(run[i].op).0 == k && Redeems(run[n].op, k) && Answer(run, n) == Ok
    ensures var email := Issued(run[i].op).1;
      && k in After(run[..n]) && After(run[..n])[k] == Mail(email)
      && Born(run[..n], email).Some?
      && (Born(run[..n], email) == Born(run[..i + 1], email) <==>
            Born(run[..i + 1], email).Some? && forall m :: i < m < n ==> Told(run, m) != Removed(email))
  {
    var email := Issued(run[i].op).1;
    RedeemFinds(After(run[..n]), run[n].op, run[n].up, k);
    FreshPrefix(run, n);
    TokensHaveOneOwner(run[..n], k);
    OwnersGrow(run, i, n);
    assert email in {After(run[..n])[k].email};
    StoreTellsHistory(run[..n], email);
    BornIsThere(run[..n], email);
    SameAccountExactly(run, i + 1, n, email);
  }

  lemma RedeemFinds(s: Store, op: Op, up: Link, k: Key)
    requires Redeems(op, k) && Step(s, op, up).0 == Ok
    ensures k in s && s[k].Mail? && Stored(s, s[k].email).Present?
  {
  }

  const ALL_UP: Link := _ => true

  lemma AfterMore(run: seq<Event>, e: Event)
    ensures After(run + [e]) == Step(After(run), e.op, e.up).1
    ensures Answer(run + [e], |run|) == Step(After(run), e.op, e.up).0
  {
    hide Step;
    assert (run + [e])[..|run|] == run;
  }

  /** A run, every command of which goes through, in which the token of a deleted account
      activates the next account with the same email. */
  lemma TokenOutlivesAccount(email: string, password: string, uuids: (string, string), tokens: (string, string))
    requires ValidPassword(password) && tokens.0 != tokens.1
    ensures var signup := Event(Signup(email, password, true, uuids.0, "", tokens.0, true), ALL_UP);
      var run := [signup] + [Event(Delete(email, [], []), ALL_UP)]
        + [Event(Signup(email, password, true, uuids.1, "", tokens.1, true), ALL_UP)]
        + [Event(Verify(tokens.0), ALL_UP)];
      Stored(After(run), email) == Present(Person(uuids.1, true, password)) && VerifyKey(tokens.1) in After(run)
  {
    var a := [Event(Signup(email, password, true, uuids.0, "", tokens.0, true), ALL_UP)];
    var delete := Event(Delete(email, [], []), ALL_UP);
    var again := Event(Signup(email, password, true, uuids.1, "", tokens.1, true), ALL_UP);
    assert a == [] + a;
    AfterMore([], a[0]);
    AfterMore(a, delete);
    AfterMore(a + [delete], again);
    AfterMore(a + [delete] + [again], Event(Verify(tokens.0), ALL_UP));
    hide After;
  }

  // ---------- a signup whose mail fails ----------

  /** The store is as before the signup exactly if both rollback commands go through. */
  lemma FailedMailRollsBack(s: Store, op: Op, up: Link)
    requires op.Signup? && VerifyKey(op.token) !in s && Step(s, op, up).0 == MailError
    ensures Step(s, op, up).1 == s <==> up(3) && up(4)
  {
    var k, t := AccountKey(op.email), VerifyKey(op.token);
    var after := Step(s, op, up).1;
    assert k !in s;
    if up(3) && up(4) {
      assert after == s;
    } else {
      assert k in after || t in after;
    }
  }

  /** An answer that refuses the operation for what it found leaves the store as it was. */
  lemma RefusalsChangeNothing(s: Store, op: Op, up: Link)
    requires Step(s, op, up).0 in {InvalidEmail, InvalidPassword, Duplicate, InvalidCredentials, NotVerified,
                                   InvalidToken, AlreadyActive, UnknownEmail}
    ensures Step(s, op, up).1 == s
  {
  }

  /** When the store answers, each operation tells truly whether the account is there and
      active, as its history has it. */
  lemma AnswersTellAccount(run: seq<Event>, n: nat)
    requires FreshTokens(run) && ScansAreComplete(run) && n < |run| && run[n].up(0)
    requires run[n].op.Signup? || run[n].op.Resend? || run[n].op.RequestReset? || run[n].op.Delete?
    ensures var op, r := run[n].op, Answer(run, n); var v := ViewOf(run[..n], op.email);
      && (op.Signup? && op.mailbox && ValidPassword(op.password) ==> (r == Duplicate <==> v.Present?))
      && (op.Resend? ==> (r == UnknownEmail <==> v.Absent?) && (r == AlreadyActive <==> v.Present? && v.person.active))
      && (op.RequestReset? ==> (r == UnknownEmail <==> v.Absent?))
      && (op.Delete? ==> (r == NotFound <==> v.Absent?))
  {
    FreshPrefix(run, n);
    ScansPrefix(run, n);
    StoreTellsHistory(run[..n], run[n].op.email);
    SessionsAreActive(run[..n]);
    hide After, ViewOf, FreshTokens, ScansAreComplete;
  }

  // ---------- sessions ----------

  /** The email a session token stands for. */
  function SessionAccount(s: Store, token: string): Option<string> {
    var k := SessionKey(token);
    if k in s && s[k].Mail? then Some(s[k].email) else None
  }

  /** The same, told by the answers: from the login that opened it to the logout, the expiry,
      or the deletion of its account. */
  function SessionOf(run: seq<Event>, token: string): Option<string> {
    if run == [] then None
    else
      var n := |run| - 1;
      var was, r := SessionOf(run[..n], token), Answer(run, n);
      match run[n].op
      case Login(email, _, _) => if r == Session(token) then Some(email) else was
      case Logout(t) => if r == Ok && t == token then None else was
      case Expire(key) => if key == SessionKey(token) then None else was
      case Delete(email, _, _) => if r == Ok && was == Some(email) then None else was
      case _ => was
  }

  /** What a deletion cut short took away is not told. */
  predicate CutShort(run: seq<Event>, n: nat)
    requires n < |run|
  {
    run[n].op.Delete? && Answer(run, n) == StoreError
  }

  /** A session is known only as its history has it, and unless a deletion was cut short it is
      known exactly then. */
  lemma {:induction false} SessionsTellHistory(run: seq<Event>, token: string)
    requires ScansAreComplete(run)
    ensures var now, told := SessionAccount(After(run), token), SessionOf(run, token);
      (now.Some? ==> now == told) &&
      ((forall n :: 0 <= n < |run| ==> !CutShort(run, n)) ==> now == told)
  {
    if run == [] {
    } else {
      var n := |run| - 1;
      ScansPrefix(run, n);
      SessionsTellHistory(run[..n], token);
      forall i | 0 <= i < n ensures CutShort(run[..n], i) == CutShort(run, i) {
        assert run[..n][..i] == run[..i];
      }
      assert CutShort(run, n) || (run[n].op.Delete? ==> Answer(run, n) != StoreError);
      SessionsAreActive(run[..n]);
      StepSession(After(run[..n]), run[n], token);
      hide After, Sound, Step;
    }
  }

  lemma StepSession(s: Store, e: Event, token: string)
    requires Sound(s) && ScanIsComplete(s, e.op)
    ensures var (r, t) := Step(s, e.op, e.up); var was, now := SessionAccount(s, token), SessionAccount(t, token);
      match e.op
      case Login(email, _, _) => now == if r == Session(token) then Some(email) else was
      case Logout(k) => now == if r == Ok && k == token then None else was
      case Expire(key) => now == if key == SessionKey(token) then None else was
      case Delete(email, _, _) =>
        if r == Ok then now == if was == Some(email) then None else was
        else if r == StoreError then now.Some? ==> now == was
        else now == was
      case _ => now == was
  {
    if e.op.Delete? {
      DeleteKeeps(s, e.op, e.up);
      var (r, t) := Step(s, e.op, e.up);
      var k := SessionKey(token);
      assert r == Ok && k in t ==> t[k] != Mail(e.op.email);
      if r != Ok && r != StoreError { assert t == s; }
    }
  }
}
