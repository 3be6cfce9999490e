/** Invite links, the `{tunnel_ip}` placeholder, and what a boot binds. */
module Placeholder {
  import opened ForwardTable
  import opened Options
  import opened Strings

  // ---------- invite links ----------

  /** The edge base and the code of an invite link. */
  function ParseInviteUrl(url: string): Option<(string, string)> {
    if "https://" <= url then ParseRest(url[8..])
    else if "http://" <= url then ParseRest(url[7..])
    else None
  }

  /** The number of characters before the first slash. */
  function Slash(s: string): (n: nat)
    ensures n <= |s| && '/' !in s[..n] && (n < |s| ==> s[n] == '/')
  {
    if s == "" || s[0] == '/' then 0
    else
      var n := Slash(s[1..]);
      assert s[..n + 1] == [s[0]] + s[1..][..n];
      n + 1
  }

  function ParseRest(rest: string): Option<(string, string)> {
    var n := Slash(rest);
    if n == |rest| || !("i/" <= rest[n + 1..]) then None
    else
      var code := rest[n + 3..];
      if n == 0 || code == "" || '/' in code then None else Some(("https://" + rest[..n], code))
  }

  predicate IsName(s: string) { s != "" && '/' !in s }

  lemma {:induction false} SlashAt(host: string, path: string)
    requires '/' !in host
    ensures Slash(host + ("/" + path)) == |host|
  {
    if host == "" {
      assert host + ("/" + path) == "/" + path;
    } else {
      assert (host + ("/" + path))[1..] == host[1..] + ("/" + path);
      SlashAt(host[1..], path);
    }
  }

  /** What follows the scheme of an invite link. */
  function Place(host: string, code: string): string { host + ("/" + ("i/" + code)) }

  lemma RestExactly(rest: string, base: string, code: string)
    ensures ParseRest(rest) == Some((base, code)) <==>
      exists host :: IsName(host) && IsName(code) && base == "https://" + host && rest == Place(host, code)
  {
    if ParseRest(rest) == Some((base, code)) {
      var host := rest[..Slash(rest)];
      assert rest[|host| + 1..] == "i/" + code;
      assert rest == Place(host, code);
    }
    if host :| IsName(host) && IsName(code) && base == "https://" + host && rest == Place(host, code) {
      SlashAt(host, "i/" + code);
      assert rest[..|host|] == host;
      assert rest[|host| + 1..] == "i/" + code;
      assert rest[|host| + 3..] == code;
    }
  }

  /** A link is accepted exactly if it is a scheme, a host, `/i/` and a code; the base is
      always https. */
  lemma InviteUrlExactly(url: string, base: string, code: string)
    ensures ParseInviteUrl(url) == Some((base, code)) <==> exists host ::
      IsName(host) && IsName(code) && base == "https://" + host &&
      (url == "https://" + Place(host, code) || url == "http://" + Place(host, code))
  {
    hide ParseRest, Place;
    Schemes(url);
    if "https://" <= url {
      RestExactly(url[8..], base, code);
    } else if "http://" <= url {
      RestExactly(url[7..], base, code);
    }
  }

  lemma Schemes(url: string)
    ensures "https://" <= url ==> !("http://" <= url)
    ensures forall rest :: url == "https://" + rest <==> "https://" <= url && url[8..] == rest
    ensures forall rest :: url == "http://" + rest <==> "http://" <= url && url[7..] == rest
  {
    assert "https://"[4] == 's' && "http://"[4] == ':';
  }

  // ---------- the placeholder ----------

  const MARK := "{tunnel_ip}"

  predicate Contains(s: string) {
    exists i :: 0 <= i <= |s| && MARK <= s[i..]
  }

  /** Every occurrence replaced, from left to right. */
  function Replace(s: string, ip: string): string {
    if MARK <= s then ip + Replace(s[|MARK|..], ip)
    else if s == "" then ""
    else [s[0]] + Replace(s[1..], ip)
  }

  /** The text between the occurrences. */
  function Split(s: string): (pieces: seq<string>)
    ensures pieces != []
  {
    if MARK <= s then [""] + Split(s[|MARK|..])
    else if s == "" then [""]
    else
      var rest := Split(s[1..]);
      [[s[0]] + rest[0]] + rest[1..]
  }

  /** Text is the pieces joined by the placeholder, and replacing joins the same pieces by
      the address: nothing else changes. */
  lemma {:induction false} ReplaceKeepsTheRest(s: string, ip: string)
    ensures s == Join(Split(s), MARK) && Replace(s, ip) == Join(Split(s), ip)
  {
    if MARK <= s {
      ReplaceKeepsTheRest(s[|MARK|..], ip);
      assert Split(s)[1..] == Split(s[|MARK|..]);
      assert s == MARK + s[|MARK|..];
    } else if s != "" {
      var rest := Split(s[1..]);
      ReplaceKeepsTheRest(s[1..], ip);
      assert s == [s[0]] + s[1..];
      JoinHead(s[0], rest, MARK);
      JoinHead(s[0], rest, ip);
    }
  }

  lemma JoinHead(c: char, rest: seq<string>, sep: string)
    requires rest != []
    ensures Join([[c] + rest[0]] + rest[1..], sep) == [c] + Join(rest, sep)
  {
    var longer := [[c] + rest[0]] + rest[1..];
    assert longer[1..] == rest[1..];
    if |rest| > 1 {
      var tail := sep + Join(rest[1..], sep);
      assert ([c] + rest[0]) + tail == [c] + (rest[0] + tail);
    }
  }

  lemma {:induction false} CopiesUpTo(pre: string, rest: string, ip: string)
    requires forall i :: 0 <= i < |pre| ==> !(MARK <= (pre + rest)[i..])
    ensures Replace(pre + rest, ip) == pre + Replace(rest, ip)
  {
    hide MARK;
    if pre == "" {
      assert pre + rest == rest;
    } else {
      assert (pre + rest)[0..] == pre + rest;
      assert (pre + rest)[1..] == pre[1..] + rest;
      forall i | 0 <= i < |pre[1..]| ensures !(MARK <= (pre[1..] + rest)[i..]) {
        assert (pre[1..] + rest)[i..] == (pre + rest)[i + 1..];
      }
      CopiesUpTo(pre[1..], rest, ip);
    }
  }

  lemma {:induction false} NothingToReplace(s: string, ip: string)
    requires !Contains(s)
    ensures Replace(s, ip) == s
  {
    assert s[0..] == s;
    if s == "" {
    } else {
      forall i | 0 <= i <= |s[1..]| ensures !(MARK <= s[1..][i..]) {
        assert s[1..][i..] == s[i + 1..];
      }
      NothingToReplace(s[1..], ip);
    }
  }

  // ---------- which addresses leave a placeholder ----------

  /** Where the copies of the address start in the text after replacing. */
  function Copies(s: string, ip: string): seq<nat> {
    if MARK <= s then [0] + Shifted(Copies(s[|MARK|..], ip), |ip|)
    else if s == "" then []
    else Shifted(Copies(s[1..], ip), 1)
  }

  function Shifted(at: seq<nat>, n: nat): (r: seq<nat>)
    ensures |r| == |at| && forall k :: 0 <= k < |at| ==> r[k] == at[k] + n
  {
    seq(|at|, k requires 0 <= k < |at| => at[k] + n)
  }

  lemma MarkShape()
    ensures |MARK| == 11 && MARK[0] == '{' && forall j :: 0 < j < |MARK| ==> MARK[j] != '{'
  {
  }

  lemma AtMark(s: string, ip: string)
    requires MARK <= s
    ensures var rest := s[|MARK|..];
      |rest| < |s| && Replace(s, ip) == ip + Replace(rest, ip) &&
      Copies(s, ip) == [0] + Shifted(Copies(rest, ip), |ip|)
  {
  }

  lemma AtChar(s: string, ip: string)
    requires s != "" && !(MARK <= s)
    ensures Replace(s, ip) == [s[0]] + Replace(s[1..], ip) && Copies(s, ip) == Shifted(Copies(s[1..], ip), 1)
  {
  }

  lemma {:induction false} CopiesAreCopies(s: string, ip: string, k: nat)
    requires k < |Copies(s, ip)|
    ensures var c := Copies(s, ip)[k]; c + |ip| <= |Replace(s, ip)| && Replace(s, ip)[c..c + |ip|] == ip
    decreases |s|
  {
    NoneInNothing(ip);
    hide Replace, Copies, MARK;
    if MARK <= s {
      var rest := s[|MARK|..];
      AtMark(s, ip);
      if k > 0 {
        CopiesAreCopies(rest, ip, k - 1);
        SliceBehind(ip, Replace(rest, ip), Copies(rest, ip)[k - 1], |ip|);
      }
    } else {
      AtChar(s, ip);
      CopiesAreCopies(s[1..], ip, k);
      SliceBehind([s[0]], Replace(s[1..], ip), Copies(s[1..], ip)[k], |ip|);
    }
  }

  lemma NoneInNothing(ip: string)
    ensures Copies("", ip) == [] && Replace("", ip) == ""
  {
  }

  lemma SliceBehind(a: string, t: string, c: nat, n: nat)
    requires c + n <= |t|
    ensures (a + t)[|a| + c..|a| + c + n] == t[c..c + n]
  {
  }

  lemma FirstCopy(s: string, ip: string)
    requires MARK <= s
    ensures |Copies(s, ip)| > 0 && Copies(s, ip)[0] == 0
  {
  }

  /** Up to the first copy the text is as it was. */
  lemma {:induction false} SameBeforeCopies(s: string, ip: string, n: nat)
    requires n <= |Replace(s, ip)| && forall k :: 0 <= k < |Copies(s, ip)| ==> Copies(s, ip)[k] >= n
    ensures n <= |s| && Replace(s, ip)[..n] == s[..n]
    decreases |s|
  {
    NoneInNothing(ip);
    hide Replace, Copies, MARK;
    if n == 0 {
    } else {
      if MARK <= s {
        FirstCopy(s, ip);
        assert false;
      } else {
        AtChar(s, ip);
        forall k | 0 <= k < |Copies(s[1..], ip)| ensures Copies(s[1..], ip)[k] >= n - 1 {
          assert Copies(s, ip)[k] == Copies(s[1..], ip)[k] + 1;
        }
        SameBeforeCopies(s[1..], ip, n - 1);
        assert s == [s[0]] + s[1..];
        TakeBehind(s[0], Replace(s[1..], ip), n - 1);
        TakeBehind(s[0], s[1..], n - 1);
      }
    }
  }

  lemma TakeBehind(c: char, t: string, n: nat)
    requires n <= |t|
    ensures ([c] + t)[..n + 1] == [c] + t[..n]
  {
  }

  /** The `k`-th copy and the placeholder at `i` have a place in common. */
  predicate Touches(s: string, ip: string, k: nat, i: nat)
    requires k < |Copies(s, ip)|
  {
    Copies(s, ip)[k] < i + |MARK| && i < Copies(s, ip)[k] + |ip|
  }

  /** A placeholder left after replacing touches a copy of the address. */
  lemma {:induction false} LeftoversTouch(s: string, ip: string, i: nat)
    requires ip != "" && i <= |Replace(s, ip)| && MARK <= Replace(s, ip)[i..]
    ensures exists k :: 0 <= k < |Copies(s, ip)| && Touches(s, ip, k, i)
    decreases |s|
  {
    NoneInNothing(ip);
    MarkShape();
    hide Replace, Copies, MARK;
    if MARK <= s {
      var rest := s[|MARK|..];
      AtMark(s, ip);
      if i < |ip| {
        assert Touches(s, ip, 0, i);
      } else {
        assert Replace(s, ip)[i..] == Replace(rest, ip)[i - |ip|..];
        LeftoversTouch(rest, ip, i - |ip|);
        var k :| 0 <= k < |Copies(rest, ip)| && Touches(rest, ip, k, i - |ip|);
        assert Copies(s, ip)[k + 1] == Shifted(Copies(rest, ip), |ip|)[k];
        assert Touches(s, ip, k + 1, i);
      }
    } else if i > 0 {
      AtChar(s, ip);
      assert Replace(s, ip)[i..] == Replace(s[1..], ip)[i - 1..];
      LeftoversTouch(s[1..], ip, i - 1);
      var k :| 0 <= k < |Copies(s[1..], ip)| && Touches(s[1..], ip, k, i - 1);
      assert Touches(s, ip, k, i);
    } else {
      TouchedAtStart(s, ip);
    }
  }

  lemma TouchedAtStart(s: string, ip: string)
    requires ip != "" && !(MARK <= s) && MARK <= Replace(s, ip)[0..]
    ensures exists k :: 0 <= k < |Copies(s, ip)| && Touches(s, ip, k, 0)
  {
    hide Replace, Copies, MARK;
    assert Replace(s, ip)[0..] == Replace(s, ip);
    if k :| 0 <= k < |Copies(s, ip)| && Copies(s, ip)[k] < |MARK| {
      assert Touches(s, ip, k, 0);
    } else {
      SameBeforeCopies(s, ip, |MARK|);
      assert false;
    }
  }

  /** The ways in which the address and the placeholder can overlap: one lies within the
      other, or the address ends as the placeholder begins, or begins as it ends. */
  predicate Overlaps(ip: string) {
    || (exists k :: 0 <= k <= |MARK| && ip <= MARK[k..])
    || Contains(ip)
    || (exists m :: 0 < m < |MARK| && m <= |ip| && ip[|ip| - m..] == MARK[..m])
    || (exists m :: 0 < m < |MARK| && m <= |ip| && ip[..m] == MARK[|MARK| - m..])
  }

  /** A copy of the address at `c` and a placeholder at `i` that touch overlap in one of those
      ways. */
  lemma TouchingOverlaps(out: string, ip: string, c: nat, i: nat)
    requires c + |ip| <= |out| && out[c..c + |ip|] == ip
    requires i + |MARK| <= |out| && out[i..i + |MARK|] == MARK
    requires c < i + |MARK| && i < c + |ip|
    ensures Overlaps(ip)
  {
    MarkShape();
    hide MARK, Contains;
    var n := |MARK|;
    if i <= c && c + |ip| <= i + n {
      assert MARK[c - i..][..|ip|] == out[c..c + |ip|];
      assert ip <= MARK[c - i..];
    } else if c <= i && i + n <= c + |ip| {
      assert ip[i - c..][..n] == out[i..i + n];
      ContainsAt(ip, i - c);
    } else if c < i {
      var m := c + |ip| - i;
      assert ip[|ip| - m..] == out[i..i + m] == MARK[..m];
    } else {
      var m := i + n - c;
      assert ip[..m] == out[c..c + m] == MARK[n - m..];
    }
  }

  /** If the address does not overlap the placeholder, none is left and none arises. */
  lemma NoPlaceholderLeft(s: string, ip: string)
    requires !Overlaps(ip)
    ensures !Contains(Replace(s, ip))
  {
    EmptyOverlaps();
    hide MARK, Replace, Copies, Overlaps;
    var out := Replace(s, ip);
    if i :| 0 <= i <= |out| && MARK <= out[i..] {
      LeftoversTouch(s, ip, i);
      var k :| 0 <= k < |Copies(s, ip)| && Touches(s, ip, k, i);
      CopiesAreCopies(s, ip, k);
      assert out[i..i + |MARK|] == out[i..][..|MARK|];
      TouchingOverlaps(out, ip, Copies(s, ip)[k], i);
    }
  }

  lemma EmptyOverlaps()
    ensures Overlaps("")
  {
    hide MARK;
    assert "" <= MARK[0..];
  }

  /** Placed before and after the right parts, any overlapping address leaves one. */
  function Trap(k: nat, m: nat): string
    requires k < |MARK| && m <= |MARK|
  {
    MARK[..k] + (MARK + MARK[m..])
  }

  lemma TrapReplaced(k: nat, m: nat, ip: string)
    requires k < |MARK| && 0 < m <= |MARK|
    ensures Replace(Trap(k, m), ip) == MARK[..k] + (ip + MARK[m..])
    ensures Contains(Trap(k, m))
  {
    MarkShape();
    hide MARK;
    var pre, post := MARK[..k], MARK[m..];
    var rest := MARK + post;
    forall i | 0 <= i < |pre| ensures !(MARK <= (pre + rest)[i..]) {
      if i == 0 {
        assert (pre + rest)[0..][k] == '{';
      } else {
        assert (pre + rest)[i..][0] == MARK[i];
      }
    }
    CopiesUpTo(pre, rest, ip);
    assert rest[|MARK|..] == post;
    AtMark(rest, ip);
    forall i | 0 <= i <= |post| ensures !(MARK <= post[i..]) {}
    NothingToReplace(post, ip);
    ContainsAt(Trap(k, m), k);
  }

  lemma ContainsAt(s: string, i: nat)
    requires i <= |s| && MARK <= s[i..]
    ensures Contains(s)
  {
  }

  /** A text in which the placeholder stands between two others contains it. */
  lemma ContainsBetween(a: string, b: string, out: string)
    requires out == a + (MARK + b)
    ensures Contains(out)
  {
    hide MARK;
    ContainsAt(out, |a|);
  }

  /** Exactly the addresses that overlap the placeholder can leave one. */
  lemma LeavesOneExactly(ip: string)
    ensures (exists s :: Contains(Replace(s, ip))) <==> Overlaps(ip)
  {
    hide MARK, Replace, Contains, Overlaps;
    if Overlaps(ip) {
      var s := OverlapLeaves(ip);
    } else {
      forall s ensures !Contains(Replace(s, ip)) {
        NoPlaceholderLeft(s, ip);
      }
    }
  }

  lemma OverlapLeaves(ip: string) returns (s: string)
    requires Overlaps(ip)
    ensures Contains(s) && Contains(Replace(s, ip))
  {
    MarkShape();
    hide MARK, Replace, Contains;
    if Contains(ip) {
      s := InnerLeaves(ip);
    } else if m :| 0 < m < |MARK| && m <= |ip| && ip[|ip| - m..] == MARK[..m] {
      s := EndLeaves(ip, m);
    } else if m :| 0 < m < |MARK| && m <= |ip| && ip[..m] == MARK[|MARK| - m..] {
      s := BeginLeaves(ip, m);
    } else {
      var k :| 0 <= k <= |MARK| && ip <= MARK[k..];
      s := InfixLeaves(ip, k);
    }
  }

  lemma InnerLeaves(ip: string) returns (s: string)
    requires Contains(ip)
    ensures Contains(s) && Contains(Replace(s, ip))
  {
    MarkShape();
    hide MARK, Replace, Contains;
    s := Trap(0, |MARK|);
    TrapReplaced(0, |MARK|, ip);
    assert MARK[..0] + (ip + MARK[|MARK|..]) == ip;
  }

  lemma EndLeaves(ip: string, m: nat) returns (s: string)
    requires 0 < m < |MARK| && m <= |ip| && ip[|ip| - m..] == MARK[..m]
    ensures Contains(s) && Contains(Replace(s, ip))
  {
    hide MARK, Replace, Contains;
    s := Trap(0, m);
    TrapReplaced(0, m, ip);
    var out := MARK[..0] + (ip + MARK[m..]);
    assert ip == ip[..|ip| - m] + MARK[..m];
    assert MARK == MARK[..m] + MARK[m..];
    ContainsBetween(ip[..|ip| - m], "", out);
  }

  lemma BeginLeaves(ip: string, m: nat) returns (s: string)
    requires 0 < m < |MARK| && m <= |ip| && ip[..m] == MARK[|MARK| - m..]
    ensures Contains(s) && Contains(Replace(s, ip))
  {
    hide MARK, Replace, Contains;
    var n := |MARK|;
    s := Trap(n - m, n);
    TrapReplaced(n - m, n, ip);
    var out := MARK[..n - m] + (ip + MARK[n..]);
    assert ip == MARK[n - m..] + ip[m..];
    assert MARK == MARK[..n - m] + MARK[n - m..];
    ContainsBetween("", ip[m..], out);
  }

  lemma InfixLeaves(ip: string, k: nat) returns (s: string)
    requires k <= |MARK| && ip <= MARK[k..]
    ensures Contains(s) && Contains(Replace(s, ip))
  {
    MarkShape();
    hide MARK, Replace, Contains;
    var j := if ip == "" then 1 else k;
    s := Trap(j, j + |ip|);
    TrapReplaced(j, j + |ip|, ip);
    assert ip == MARK[j..j + |ip|];
    assert MARK == MARK[..j] + (ip + MARK[j + |ip|..]);
    ContainsBetween("", "", MARK[..j] + (ip + MARK[j + |ip|..]));
  }

  /** Addresses of digits and dots do not overlap it. */
  lemma DottedDoesNotOverlap(ip: string)
    requires ip != "" && forall i :: 0 <= i < |ip| ==> ip[i] == '.' || '0' <= ip[i] <= '9'
    ensures !Overlaps(ip)
  {
    assert forall j :: 0 <= j < |MARK| ==> MARK[j] != '.' && !('0' <= MARK[j] <= '9');
    hide MARK;
    assert forall i, j :: 0 <= i < |ip| && 0 <= j < |MARK| ==> ip[i] != MARK[j];
    OverlapShares(ip);
  }

  /** Addresses that overlap it share a character with it, or are empty. */
  lemma OverlapShares(ip: string)
    ensures Overlaps(ip) && ip != "" ==> exists i, j :: 0 <= i < |ip| && 0 <= j < |MARK| && ip[i] == MARK[j]
  {
    MarkShape();
    hide MARK;
    if Overlaps(ip) && ip != "" {
      if k :| 0 <= k <= |MARK| && ip <= MARK[k..] {
        assert ip[0] == MARK[k];
      } else if i :| 0 <= i <= |ip| && MARK <= ip[i..] {
        assert ip[i] == MARK[0];
      } else if m :| 0 < m < |MARK| && m <= |ip| && ip[|ip| - m..] == MARK[..m] {
        assert ip[|ip| - m..][0] == ip[|ip| - m] && MARK[..m][0] == MARK[0];
      } else {
        var m :| 0 < m < |MARK| && m <= |ip| && ip[..m] == MARK[|MARK| - m..];
        assert ip[..m][0] == ip[0] && MARK[|MARK| - m..][0] == MARK[|MARK| - m];
      }
    }
  }

  // ---------- forwards ----------

  predicate NeedsTunnel(f: Forward) { Contains(f.destAddr) || Contains(f.listenAddr) }

  function SubstituteField(field: string, ip: string): string {
    if Contains(field) then Replace(field, ip) else field
  }

  function Substitute(f: Forward, ip: string): Forward {
    f.(listenAddr := SubstituteField(f.listenAddr, ip), destAddr := SubstituteField(f.destAddr, ip))
  }

  /** A forward with every occurrence in both fields replaced. */
  function Replaced(f: Forward, ip: string): Forward {
    Forward(Replace(f.listenAddr, ip), f.proto, Replace(f.destAddr, ip))
  }

  function SubstituteTunnelIp(forwards: seq<Forward>, ip: string): seq<Forward> {
    seq(|forwards|, i requires 0 <= i < |forwards| => Substitute(forwards[i], ip))
  }

  lemma FieldIsReplaced(field: string, ip: string)
    ensures SubstituteField(field, ip) == Replace(field, ip)
  {
    if !Contains(field) { NothingToReplace(field, ip); }
  }

  /** Substituting is plain replacement in both fields of every forward. */
  lemma SubstitutionIsReplacement(forwards: seq<Forward>, ip: string)
    ensures var out := SubstituteTunnelIp(forwards, ip);
      |out| == |forwards| && forall i :: 0 <= i < |forwards| ==> out[i] == Replaced(forwards[i], ip)
  {
    hide Contains, Replace;
    forall i | 0 <= i < |forwards| ensures Substitute(forwards[i], ip) == Replaced(forwards[i], ip) {
      FieldIsReplaced(forwards[i].listenAddr, ip);
      FieldIsReplaced(forwards[i].destAddr, ip);
    }
  }

  /** Substituting an address that does not overlap the placeholder frees both fields of every
      forward, and a second substitution, of any address, changes nothing. */
  lemma SubstitutionIsFinal(forwards: seq<Forward>, ip: string, other: string)
    requires !Overlaps(ip)
    ensures var out := SubstituteTunnelIp(forwards, ip);
      !SomeNeedTunnel(out) && SubstituteTunnelIp(out, other) == out
  {
    hide Contains, Replace, Overlaps;
    var out := SubstituteTunnelIp(forwards, ip);
    SubstitutionIsReplacement(forwards, ip);
    forall i | 0 <= i < |forwards| ensures !NeedsTunnel(out[i]) && Substitute(out[i], other) == out[i] {
      NoPlaceholderLeft(forwards[i].listenAddr, ip);
      NoPlaceholderLeft(forwards[i].destAddr, ip);
    }
  }

  // ---------- boot ----------

  datatype BootMode = Full | Claimable

  function Boot(tunnelIp: Option<string>, forwards: seq<Forward>): BootMode {
    if tunnelIp.None? && SomeNeedTunnel(forwards) then Claimable else Full
  }

  predicate SomeNeedTunnel(forwards: seq<Forward>) {
    exists i :: 0 <= i < |forwards| && NeedsTunnel(forwards[i])
  }

  /** What a full boot binds; or a failed assertion. */
  datatype Bindable = NoForwards | Resolved(forwards: seq<Forward>) | Panics

  function BindableForwards(tunnelIp: Option<string>, forwards: seq<Forward>): Bindable {
    if forwards == [] then NoForwards
    else if tunnelIp == Some("") && SomeNeedTunnel(forwards) then Panics
    else
      var resolved := if tunnelIp.Some? then SubstituteTunnelIp(forwards, tunnelIp.value) else forwards;
      if SomeNeedTunnel(resolved) then Panics else Resolved(resolved)
  }

  /** How a boot ends once the tunnel is resolved: the process exits if the tunnel cannot be
      brought up, and only then looks at the forwards. */
  datatype BootEnd = Exits | ServesClaim | Runs(bound: Bindable)

  function BootEnds(tunnelIp: Option<string>, broughtUp: bool, forwards: seq<Forward>): BootEnd {
    if tunnelIp.Some? && !broughtUp then Exits
    else if Boot(tunnelIp, forwards) == Claimable then ServesClaim
    else Runs(BindableForwards(tunnelIp, forwards))
  }

  /** A field in which substituting leaves or makes a placeholder, and where: a copy of the
      address touches it.  Which addresses can do this is said by `Overlaps`. */
  predicate LeavesOne(field: string, ip: string) {
    Contains(field) &&
    (ip == "" ||
     exists k, i :: 0 <= k < |Copies(field, ip)| && 0 <= i <= |Replace(field, ip)| &&
       MARK <= Replace(field, ip)[i..] && Touches(field, ip, k, i))
  }

  lemma LeftExactly(field: string, ip: string)
    requires ip != ""
    ensures Contains(SubstituteField(field, ip)) <==> LeavesOne(field, ip)
  {
    hide Replace, Copies, Touches;
    if Contains(field) && Contains(Replace(field, ip)) {
      var i :| 0 <= i <= |Replace(field, ip)| && MARK <= Replace(field, ip)[i..];
      LeftoversTouch(field, ip, i);
    }
  }

  /** A boot fails an assertion exactly if bringing the tunnel up accepted the address and some
      field with a placeholder has the empty address for it or keeps one that a copy of the
      address touches. */
  lemma BootPanicsExactly(tunnelIp: Option<string>, broughtUp: bool, forwards: seq<Forward>)
    ensures BootEnds(tunnelIp, broughtUp, forwards) == Runs(Panics) <==>
      tunnelIp.Some? && broughtUp &&
      exists i :: 0 <= i < |forwards| &&
        (LeavesOne(forwards[i].listenAddr, tunnelIp.value) || LeavesOne(forwards[i].destAddr, tunnelIp.value))
  {
    hide Replace, Contains, LeavesOne;
    if tunnelIp.Some? {
      var ip := tunnelIp.value;
      var out := SubstituteTunnelIp(forwards, ip);
      forall i | 0 <= i < |forwards|
        ensures (if ip == "" then NeedsTunnel(forwards[i]) else NeedsTunnel(out[i])) <==>
          LeavesOne(forwards[i].listenAddr, ip) || LeavesOne(forwards[i].destAddr, ip)
      {
        FieldLeaves(forwards[i].listenAddr, ip);
        FieldLeaves(forwards[i].destAddr, ip);
      }
      if ip == "" && !SomeNeedTunnel(forwards) {
        SubstitutionOfNothing(forwards, ip);
      }
    }
  }

  lemma FieldLeaves(field: string, ip: string)
    ensures LeavesOne(field, ip) <==> if ip == "" then Contains(field) else Contains(SubstituteField(field, ip))
  {
    if ip != "" { LeftExactly(field, ip); }
  }

  lemma SubstitutionOfNothing(forwards: seq<Forward>, ip: string)
    requires !SomeNeedTunnel(forwards)
    ensures SubstituteTunnelIp(forwards, ip) == forwards
  {
    hide Contains, Replace;
    forall i | 0 <= i < |forwards| ensures SubstituteTunnelIp(forwards, ip)[i] == forwards[i] {
      assert !NeedsTunnel(forwards[i]);
    }
  }

  /** An accepted address can make a boot fail an assertion, with some configuration, exactly
      if it overlaps the placeholder; no address of digits and dots does. */
  lemma AddressPanicsExactly(ip: string)
    ensures (exists forwards :: BootEnds(Some(ip), true, forwards) == Runs(Panics)) <==> Overlaps(ip)
  {
    hide Replace, Contains, Overlaps;
    if !Overlaps(ip) {
      EmptyOverlaps();
      forall forwards ensures BootEnds(Some(ip), true, forwards) != Runs(Panics) {
        SubstitutionIsFinal(forwards, ip, "");
      }
    }
    if Overlaps(ip) {
      var s := OverlapLeaves(ip);
      var f := Forward(s, Tcp, "");
      FieldIsReplaced(s, ip);
      assert NeedsTunnel([f][0]);
      assert NeedsTunnel(SubstituteTunnelIp([f], ip)[0]);
      assert BootEnds(Some(ip), true, [f]) == Runs(Panics);
    }
  }

  /** In a full boot with an address that does not overlap the placeholder the assertions never
      fail and everything bound is free of placeholders. */
  lemma FullBootBinds(tunnelIp: Option<string>, forwards: seq<Forward>)
    requires Boot(tunnelIp, forwards) == Full
    requires tunnelIp.Some? ==> !Overlaps(tunnelIp.value)
    ensures var b := BindableForwards(tunnelIp, forwards);
      (b.NoForwards? <==> forwards == []) && !b.Panics? &&
      (b.Resolved? ==> |b.forwards| == |forwards| && !SomeNeedTunnel(b.forwards))
  {
    hide Overlaps;
    EmptyOverlaps();
    if tunnelIp.Some? {
      SubstitutionIsFinal(forwards, tunnelIp.value, "");
    }
  }
}
