/** The account store of the control plane: operations over one flat key-value store, each a
    sequence of store commands of which any may fail.  An operation's step function says
    what it answers and what it leaves in the store; `up(i)` tells whether the i-th command
    of the operation goes through.  Emails are taken as already trimmed and lower-cased. */
module Accounts {

  // ---------- the flat store ----------

  datatype Key =
    | AccountKey(email: string) | VerifyKey(token: string) | ResetKey(token: string)
    | SessionKey(token: string) | InviteKey(code: string)

  const SESSION := "fortress:session:"

  /** The text a key has in the store. */
  function Text(k: Key): string {
    match k
    case AccountKey(email) => "fortress:account:" + email
    case VerifyKey(token) => "fortress:verify:" + token
    case ResetKey(token) => "fortress:reset:" + token
    case SessionKey(token) => SESSION + token
    case InviteKey(code) => "fortress:invite:" + code
  }

  function Prefix(k: Key): nat {
    match k
    case AccountKey(_) => 17
    case VerifyKey(_) => 16
    case ResetKey(_) => 15
    case SessionKey(_) => 17
    case InviteKey(_) => 16
  }

  /** No two keys share a text, so the five families never meet in the flat store; and the
      pattern of the session scan matches the session keys and no other. */
  lemma KeysApart(a: Key, b: Key)
    ensures Text(a) == Text(b) ==> a == b
    ensures SESSION <= Text(a) <==> a.SessionKey?
  {
    assert Text(a)[9] == (match a case AccountKey(_) => 'a' case VerifyKey(_) => 'v' case ResetKey(_) => 'r'
      case SessionKey(_) => 's' case InviteKey(_) => 'i');
    assert Text(b)[9] == (match b case AccountKey(_) => 'a' case VerifyKey(_) => 'v' case ResetKey(_) => 'r'
      case SessionKey(_) => 's' case InviteKey(_) => 'i');
    assert SESSION[9] == 's';
    assert Text(a)[Prefix(a)..] == (if a.AccountKey? then a.email else if a.InviteKey? then a.code else a.token);
    assert Text(b)[Prefix(b)..] == (if b.AccountKey? then b.email else if b.InviteKey? then b.code else b.token);
  }

  datatype Status = Pending | Active

  /** A password hash, taken as exact: it verifies the password it was made of and no other. */
  datatype Hash = Hash(of: string, salt: string)

  datatype Record = Record(uuid: string, status: Status, passwordHash: Hash)

  /** What a key holds: an account record, an email, or something else. */
  datatype Entry = Account(rec: Record) | Mail(email: string) | Opaque

  type Store = map<Key, Entry>

  type Link = nat -> bool

  datatype Reply =
    | Ok | Session(token: string) | Sent | AlreadyActive | UnknownEmail
    | InvalidEmail | InvalidPassword | Duplicate | NotFound | InvalidCredentials | NotVerified
    | InvalidToken | Corrupt | StoreError | MailError

  predicate ValidPassword(p: string) { 0 < |p| <= 72 }

  // ---------- the operations ----------

  /** The operations with what the outside contributes: whether the address parses, the new
      uuid, salt and token, whether the mail goes out, and the pages of a session scan. */
  datatype Op =
    | Signup(email: string, password: string, mailbox: bool, uuid: string, salt: string, token: string, sent: bool)
    | Verify(token: string)
    | Login(email: string, password: string, token: string)
    | Logout(token: string)
    | Resend(email: string, token: string, sent: bool)
    | RequestReset(email: string, token: string, sent: bool)
    | Reset(token: string, password: string, salt: string)
    | Delete(email: string, invites: seq<string>, pages: seq<seq<string>>)
    | Invite(code: string)
    | Expire(key: Key)

  function SignupStep(s: Store, op: Op, up: Link): (Reply, Store)
    requires op.Signup?
  {
    var k, t := AccountKey(op.email), VerifyKey(op.token);
    if !op.mailbox then (InvalidEmail, s)
    else if !ValidPassword(op.password) then (InvalidPassword, s)
    else if !up(0) then (StoreError, s)
    else if k in s then (Duplicate, s)
    else if !up(1) then (StoreError, s)
    else
      var s1 := s[k := Account(Record(op.uuid, Pending, Hash(op.password, op.salt)))];
      if !up(2) then (StoreError, s1)
      else
        var s2 := s1[t := Mail(op.email)];
        if op.sent then (Ok, s2)
        else
          var s3 := if up(3) then s2 - {k} else s2;
          (MailError, if up(4) then s3 - {t} else s3)
  }

  /** What redeeming a token does to a record. */
  datatype Change = Activate | NewHash(hash: Hash)

  function Changed(r: Record, change: Change): Record {
    match change
    case Activate => r.(status := Active)
    case NewHash(hash) => r.(passwordHash := hash)
  }

  /** `GETDEL`, then a change of the record the token stands for. */
  function RedeemStep(s: Store, key: Key, change: Change, up: Link): (Reply, Store) {
    if !up(0) then (StoreError, s)
    else if key !in s then (InvalidToken, s)
    else if !s[key].Mail? then (Corrupt, s - {key})
    else
      var k, s1 := AccountKey(s[key].email), s - {key};
      if !up(1) then (StoreError, s1)
      else if k !in s1 then (NotFound, s1)
      else if !s1[k].Account? then (Corrupt, s1)
      else if !up(2) then (StoreError, s1)
      else (Ok, s1[k := Account(Changed(s1[k].rec, change))])
  }

  function LoginStep(s: Store, op: Op, up: Link): (Reply, Store)
    requires op.Login?
  {
    var k := AccountKey(op.email);
    if !up(0) then (StoreError, s)
    else if k !in s then (InvalidCredentials, s)
    else if !s[k].Account? then (Corrupt, s)
    else if s[k].rec.passwordHash.of != op.password then (InvalidCredentials, s)
    else if s[k].rec.status != Active then (NotVerified, s)
    else if !up(1) then (StoreError, s)
    else (Session(op.token), s[SessionKey(op.token) := Mail(op.email)])
  }

  function ResendStep(s: Store, op: Op, up: Link): (Reply, Store)
    requires op.Resend?
  {
    var k := AccountKey(op.email);
    if !up(0) then (StoreError, s)
    else if k !in s then (UnknownEmail, s)
    else if !s[k].Account? then (Corrupt, s)
    else if s[k].rec.status == Active then (AlreadyActive, s)
    else if !up(1) then (StoreError, s)
    else (if op.sent then Sent else MailError, s[VerifyKey(op.token) := Mail(op.email)])
  }

  function RequestResetStep(s: Store, op: Op, up: Link): (Reply, Store)
    requires op.RequestReset?
  {
    if !up(0) then (StoreError, s)
    else if AccountKey(op.email) !in s then (UnknownEmail, s)
    else if !up(1) then (StoreError, s)
    else (if op.sent then Sent else MailError, s[ResetKey(op.token) := Mail(op.email)])
  }

  /** Deletes the invites one by one; stops at the first failure. */
  function DropInvites(s: Store, codes: seq<string>, up: Link, at: nat): (bool, Store)
    decreases |codes|
  {
    if codes == [] then (true, s)
    else if !up(at) then (false, s)
    else DropInvites(s - {InviteKey(codes[0])}, codes[1..], up, at + 1)
  }

  /** Reads the sessions of a scan page and deletes those that hold the email.  Also says the
      number of the next command. */
  function SweepPage(s: Store, email: string, page: seq<string>, up: Link, at: nat): (bool, Store, nat)
    decreases |page|
  {
    if page == [] then (true, s, at)
    else
      var k := SessionKey(page[0]);
      if !up(at) then (false, s, at)
      else if k !in s || s[k] != Mail(email) then SweepPage(s, email, page[1..], up, at + 1)
      else if !up(at + 1) then (false, s, at)
      else SweepPage(s - {k}, email, page[1..], up, at + 2)
  }

  /** The whole scan, page by page. */
  function Sweep(s: Store, email: string, pages: seq<seq<string>>, up: Link, at: nat): (bool, Store, nat)
    decreases |pages|
  {
    if pages == [] then (true, s, at)
    else if !up(at) then (false, s, at)
    else
      var (ok, s1, next) := SweepPage(s, email, pages[0], up, at + 1);
      if ok then Sweep(s1, email, pages[1..], up, next) else (false, s1, next)
  }

  function DeleteStep(s: Store, op: Op, up: Link): (Reply, Store)
    requires op.Delete?
  {
    var k := AccountKey(op.email);
    if !up(0) then (StoreError, s)
    else if k !in s then (NotFound, s)
    else if !s[k].Account? then (Corrupt, s)
    else
      var (dropped, s1) := DropInvites(s, op.invites, up, 1);
      if !dropped then (StoreError, s1)
      else
        var (swept, s2, at) := Sweep(s1, op.email, op.pages, up, 1 + |op.invites|);
        if !swept || !up(at) then (StoreError, s2) else (Ok, s2 - {k})
  }

  /** One serial operation.  Account records never expire; the other keys may. */
  function Step(s: Store, op: Op, up: Link): (Reply, Store) {
    match op
    case Signup(_, _, _, _, _, _, _) => SignupStep(s, op, up)
    case Verify(token) => RedeemStep(s, VerifyKey(token), Activate, up)
    case Login(_, _, _) => LoginStep(s, op, up)
    case Logout(token) => if up(0) then (Ok, s - {SessionKey(token)}) else (StoreError, s)
    case Resend(_, _, _) => ResendStep(s, op, up)
    case RequestReset(_, _, _) => RequestResetStep(s, op, up)
    case Reset(token, password, salt) =>
      if !ValidPassword(password) then (InvalidPassword, s)
      else RedeemStep(s, ResetKey(token), NewHash(Hash(password, salt)), up)
    case Delete(_, _, _) => DeleteStep(s, op, up)
    case Invite(code) => (Ok, s[InviteKey(code) := Opaque])
    case Expire(key) => (Ok, if key.AccountKey? then s else s - {key})
  }

  // ---------- the operations as the service runs them ----------

  class ControlPlane {
    var store: Store

    constructor ()
      ensures store == map[]
    {
      store := map[];
    }

    method AccountSignup(op: Op, up: Link) returns (r: Reply)
      requires op.Signup?
      modifies this
      ensures (r, store) == Step(old(store), op, up)
    {
      if !op.mailbox { return InvalidEmail; }
      if !ValidPassword(op.password) { return InvalidPassword; }
      if !up(0) { return StoreError; }
      if AccountKey(op.email) in store { return Duplicate; }
      if !up(1) { return StoreError; }
      store := store[AccountKey(op.email) := Account(Record(op.uuid, Pending, Hash(op.password, op.salt)))];
      if !up(2) { return StoreError; }
      store := store[VerifyKey(op.token) := Mail(op.email)];
      if !op.sent {
        if up(3) { store := store - {AccountKey(op.email)}; }
        if up(4) { store := store - {VerifyKey(op.token)}; }
        return MailError;
      }
      r := Ok;
    }

    method Redeem(key: Key, change: Change, up: Link) returns (r: Reply)
      modifies this
      ensures (r, store) == RedeemStep(old(store), key, change, up)
    {
      if !up(0) { return StoreError; }
      if key !in store { return InvalidToken; }
      var value := store[key];
      store := store - {key};
      if !value.Mail? { return Corrupt; }
      var k := AccountKey(value.email);
      if !up(1) { return StoreError; }
      if k !in store { return NotFound; }
      if !store[k].Account? { return Corrupt; }
      var account := Changed(store[k].rec, change);
      if !up(2) { return StoreError; }
      store := store[k := Account(account)];
      r := Ok;
    }

    method AccountVerify(token: string, up: Link) returns (r: Reply)
      modifies this
      ensures (r, store) == Step(old(store), Verify(token), up)
    {
      r := Redeem(VerifyKey(token), Activate, up);
    }

    method ResetPassword(token: string, password: string, salt: string, up: Link) returns (r: Reply)
      modifies this
      ensures (r, store) == Step(old(store), Reset(token, password, salt), up)
    {
      if !ValidPassword(password) { return InvalidPassword; }
      r := Redeem(ResetKey(token), NewHash(Hash(password, salt)), up);
    }

    method AccountLogin(op: Op, up: Link) returns (r: Reply)
      requires op.Login?
      modifies this
      ensures (r, store) == Step(old(store), op, up)
    {
      var k := AccountKey(op.email);
      if !up(0) { return StoreError; }
      if k !in store { return InvalidCredentials; }
      if !store[k].Account? { return Corrupt; }
      var account := store[k].rec;
      if account.passwordHash.of != op.password { return InvalidCredentials; }
      if account.status != Active { return NotVerified; }
      if !up(1) { return StoreError; }
      store := store[SessionKey(op.token) := Mail(op.email)];
      r := Session(op.token);
    }

    method AccountLogout(token: string, up: Link) returns (r: Reply)
      modifies this
      ensures (r, store) == Step(old(store), Logout(token), up)
    {
      if !up(0) { return StoreError; }
      store := store - {SessionKey(token)};
      r := Ok;
    }

    method ResendVerification(op: Op, up: Link) returns (r: Reply)
      requires op.Resend?
      modifies this
      ensures (r, store) == Step(old(store), op, up)
    {
      var k := AccountKey(op.email);
      if !up(0) { return StoreError; }
      if k !in store { return UnknownEmail; }
      if !store[k].Account? { return Corrupt; }
      if store[k].rec.status == Active { return AlreadyActive; }
      if !up(1) { return StoreError; }
      store := store[VerifyKey(op.token) := Mail(op.email)];
      r := if op.sent then Sent else MailError;
    }

    method RequestPasswordReset(op: Op, up: Link) returns (r: Reply)
      requires op.RequestReset?
      modifies this
      ensures (r, store) == Step(old(store), op, up)
    {
      if !up(0) { return StoreError; }
      if AccountKey(op.email) !in store { return UnknownEmail; }
      if !up(1) { return StoreError; }
      store := store[ResetKey(op.token) := Mail(op.email)];
      r := if op.sent then Sent else MailError;
    }

    method AccountDelete(op: Op, up: Link) returns (r: Reply)
      requires op.Delete?
      modifies this
      ensures (r, store) == Step(old(store), op, up)
    {
      var key := AccountKey(op.email);
      if !up(0) { return StoreError; }
      if key !in store { return NotFound; }
      if !store[key].Account? { return Corrupt; }
      var dropped := DeleteInvites(op.invites, up);
      if !dropped { return StoreError; }
      var swept, at := DeleteSessions(op.email, op.pages, up, 1 + |op.invites|);
      if !swept { return StoreError; }
      if !up(at) { return StoreError; }
      store := store - {key};
      r := Ok;
    }

    method DeleteInvites(codes: seq<string>, up: Link) returns (ok: bool)
      modifies this
      ensures (ok, store) == DropInvites(old(store), codes, up, 1)
    {
      assert codes[0..] == codes;
      for i := 0 to |codes|
        invariant DropInvites(old(store), codes, up, 1) == DropInvites(store, codes[i..], up, 1 + i)
      {
        assert codes[i..][1..] == codes[i + 1..];
        if !up(1 + i) { return false; }
        store := store - {InviteKey(codes[i])};
      }
      ok := true;
    }

    method DeleteSessions(email: string, pages: seq<seq<string>>, up: Link, start: nat) returns (ok: bool, at: nat)
      modifies this
      ensures (ok, store, at) == Sweep(old(store), email, pages, up, start)
    {
      at := start;
      assert pages[0..] == pages;
      for i := 0 to |pages|
        invariant Sweep(old(store), email, pages, up, start) == Sweep(store, email, pages[i..], up, at)
      {
        assert pages[i..][1..] == pages[i + 1..];
        if !up(at) { return false, at; }
        var swept;
        swept, at := DeletePage(email, pages[i], up, at + 1);
        if !swept { return false, at; }
      }
      ok := true;
    }

    method DeletePage(email: string, page: seq<string>, up: Link, start: nat) returns (ok: bool, at: nat)
      modifies this
      ensures (ok, store, at) == SweepPage(old(store), email, page, up, start)
    {
      at := start;
      assert page[0..] == page;
      for i := 0 to |page|
        invariant SweepPage(old(store), email, page, up, start) == SweepPage(store, email, page[i..], up, at)
      {
        assert page[i..][1..] == page[i + 1..];
        var k := SessionKey(page[i]);
        if !up(at) { return false, at; }
        if k in store && store[k] == Mail(email) {
          if !up(at + 1) { return false, at; }
          store := store - {k};
          at := at + 1;
        }
        at := at + 1;
      }
      ok := true;
    }
  }
}
