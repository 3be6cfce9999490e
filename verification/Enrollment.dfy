/** Enrolling the box with an edge: begin, poll until approved, then persist two files.  The
    edge answers whatever it likes; files are written in steps between which the power may
    go.  The invite link is taken as already parsed (see `Placeholder.ParseInviteUrl`). */
module Enrollment {
  import opened Options

  datatype Invite = Invite(code: string, iface: string, prefix: nat, listenPort: nat)

  datatype Info = Info(publicKey: string, endpoint: string, allowedIps: string)

  datatype Poll = Poll(status: string, wgIp: Option<string>, hostname: Option<string>, deviceToken: Option<string>)

  datatype Tunnel = Tunnel(iface: string, ip: string, prefix: nat, edge: Info, listenPort: nat)

  datatype Persisted = Persisted(tunnel: Tunnel, hostname: string)

  /** A file is absent, begun and not complete (so it does not parse), or whole. */
  datatype File<+T> = Absent | Torn | Whole(content: T)

  datatype Disk = Disk(tunnel: File<Persisted>, token: File<string>)

  /** What the world answers to one interaction: a call to the edge, a file being opened
      (and emptied) or written. */
  datatype Answer = Fails | Polled(poll: Poll) | Informed(info: Info) | Succeeds

  datatype Outcome =
    | Enrolled(tunnel: Tunnel) | Denied | TimedOut(polls: nat) | ApiError | IoError | Panicked

  /** Where an enrollment is; `left` is the number of polls it may still repeat. */
  datatype Phase =
    | Asking(left: nat) | Polling(left: nat) | Informing(ip: string, hostname: string, token: string)
    | OpeningTunnel(state: Persisted, token: string) | WritingTunnel(state: Persisted, token: string)
    | OpeningToken(tunnel: Tunnel, token: string) | WritingToken(tunnel: Tunnel, token: string)
    | Done(outcome: Outcome)

  /** An approval must carry an address, a name and a token. */
  function Approved(p: Poll): Phase {
    if p.wgIp.Some? && p.hostname.Some? && p.deviceToken.Some?
    then Informing(p.wgIp.value, p.hostname.value, p.deviceToken.value)
    else Done(ApiError)
  }

  /** One interaction.  Both files' contents are asserted non-empty before they are touched. */
  function EnrollStep(cfg: Invite, p: Phase, a: Answer, d: Disk): (Phase, Disk) {
    match p
    case Asking(left) =>
      if !a.Polled? then (Done(ApiError), d)
      else if a.poll.status == "denied" then (Done(Denied), d)
      else (Polling(left), d)
    case Polling(left) =>
      if !a.Polled? then (Done(ApiError), d)
      else if a.poll.status == "approved" then (Approved(a.poll), d)
      else if a.poll.status == "denied" then (Done(Denied), d)
      else if a.poll.status != "waiting" then (Done(ApiError), d)
      else if left == 0 then (Done(TimedOut(0)), d)
      else (Polling(left - 1), d)
    case Informing(ip, hostname, token) =>
      if !a.Informed? then (Done(ApiError), d)
      else if hostname == "" then (Done(Panicked), d)
      else (OpeningTunnel(Persisted(Tunnel(cfg.iface, ip, cfg.prefix, a.info, cfg.listenPort), hostname), token), d)
    case OpeningTunnel(state, token) =>
      if a.Fails? then (Done(IoError), d) else (WritingTunnel(state, token), d.(tunnel := Torn))
    case WritingTunnel(state, token) =>
      if a.Fails? then (Done(IoError), d)
      else (if token == "" then Done(Panicked) else OpeningToken(state.tunnel, token), d.(tunnel := Whole(state)))
    case OpeningToken(tunnel, token) =>
      if a.Fails? then (Done(IoError), d) else (WritingToken(tunnel, token), d.(token := Torn))
    case WritingToken(tunnel, token) =>
      if a.Fails? then (Done(IoError), d) else (Done(Enrolled(tunnel)), d.(token := Whole(token)))
    case Done(_) => (p, d)
  }

  function Rank(p: Phase): nat {
    match p
    case Asking(left) => left + 8
    case Polling(left) => left + 7
    case Informing(_, _, _) => 5
    case OpeningTunnel(_, _) => 4
    case WritingTunnel(_, _) => 3
    case OpeningToken(_, _) => 2
    case WritingToken(_, _) => 1
    case Done(_) => 0
  }

  /** An enrollment that nothing interrupts, from its i-th interaction on: how it ends, what
      it leaves on disk, and how many interactions there were. */
  function Finish(cfg: Invite, w: nat -> Answer, i: nat, p: Phase, d: Disk): (Outcome, Disk, nat)
    decreases Rank(p)
  {
    if p.Done? then (p.outcome, d, i)
    else
      var (q, e) := EnrollStep(cfg, p, w(i), d);
      Finish(cfg, w, i + 1, q, e)
  }

  lemma FinishUnfolds(cfg: Invite, w: nat -> Answer, i: nat, p: Phase, d: Disk)
    requires !p.Done?
    ensures var (q, e) := EnrollStep(cfg, p, w(i), d);
      Finish(cfg, w, i, p, d) == if q.Done? then (q.outcome, e, i + 1) else Finish(cfg, w, i + 1, q, e)
  {
  }

  class Box {
    var disk: Disk

    constructor ()
      ensures disk == Disk(Absent, Absent)
    {
      disk := Disk(Absent, Absent);
    }

    /** The k-th poll of a run is its interaction k, counted from one. */
    method Enroll(cfg: Invite, w: nat -> Answer, maxPolls: nat) returns (r: Outcome, polls: nat)
      modifies this
      ensures var (outcome, end, _) := Finish(cfg, w, 0, Asking(maxPolls), old(disk));
        r == outcome && disk == end
      ensures polls <= maxPolls + 1
      ensures r.TimedOut? ==> r == TimedOut(0) && polls == maxPolls + 1 && forall k :: 1 <= k <= polls ==> IsWaiting(w(k))
      ensures r.Enrolled? ==>
        1 <= polls && w(polls).Polled? && w(polls + 1).Informed? &&
        Recorded(cfg, w(polls).poll, w(polls + 1).info, disk)
      ensures r.Denied? || r.TimedOut? || r.ApiError? ==> disk == old(disk)
    {
      hide Finish, Rank;
      polls := 0;
      FinishUnfolds(cfg, w, 0, Asking(maxPolls), disk);
      if !w(0).Polled? { return ApiError, 0; }
      if w(0).poll.status == "denied" { return Denied, 0; }
      var left := maxPolls;
      ghost var start := Finish(cfg, w, 0, Asking(maxPolls), disk);
      while true
        invariant polls + left == maxPolls
        invariant forall k :: 1 <= k <= polls ==> IsWaiting(w(k))
        invariant Finish(cfg, w, polls + 1, Polling(left), disk) == start
        invariant disk == old(disk)
        decreases left
      {
        polls := polls + 1;
        FinishUnfolds(cfg, w, polls, Polling(left), disk);
        if !w(polls).Polled? { return ApiError, polls; }
        var status := w(polls).poll.status;
        if status == "approved" { break; }
        if status == "denied" { return Denied, polls; }
        if status != "waiting" { return ApiError, polls; }
        if left == 0 { return TimedOut(left), polls; }
        left := left - 1;
      }
      var poll := w(polls).poll;
      if poll.wgIp.None? || poll.hostname.None? || poll.deviceToken.None? { return ApiError, polls; }
      var hostname, token := poll.hostname.value, poll.deviceToken.value;
      FinishUnfolds(cfg, w, polls + 1, Informing(poll.wgIp.value, hostname, token), disk);
      if !w(polls + 1).Informed? { return ApiError, polls; }
      var tunnel := Tunnel(cfg.iface, poll.wgIp.value, cfg.prefix, w(polls + 1).info, cfg.listenPort);
      if hostname == "" { return Panicked, polls; }
      var state := Persisted(tunnel, hostname);
      r := Persist(cfg, w, polls + 2, state, token);
    }

    /** The tunnel state first, then the device token. */
    method Persist(cfg: Invite, w: nat -> Answer, i: nat, state: Persisted, token: string) returns (r: Outcome)
      modifies this
      ensures var (outcome, end, _) := Finish(cfg, w, i, OpeningTunnel(state, token), old(disk));
        r == outcome && disk == end
      ensures r.Enrolled? || r.IoError? || r.Panicked?
      ensures r.Enrolled? ==> disk == Disk(Whole(state), Whole(token)) && token != ""
    {
      hide Finish, Rank;
      FinishUnfolds(cfg, w, i, OpeningTunnel(state, token), disk);
      if w(i).Fails? { return IoError; }
      disk := disk.(tunnel := Torn);
      FinishUnfolds(cfg, w, i + 1, WritingTunnel(state, token), disk);
      if w(i + 1).Fails? { return IoError; }
      disk := disk.(tunnel := Whole(state));
      if token == "" { return Panicked; }
      FinishUnfolds(cfg, w, i + 2, OpeningToken(state.tunnel, token), disk);
      if w(i + 2).Fails? { return IoError; }
      disk := disk.(token := Torn);
      FinishUnfolds(cfg, w, i + 3, WritingToken(state.tunnel, token), disk);
      if w(i + 3).Fails? { return IoError; }
      disk := disk.(token := Whole(token));
      r := Enrolled(state.tunnel);
    }
  }

  /** The disk records an approval: its address and the edge's facts, its name and its token. */
  predicate Recorded(cfg: Invite, p: Poll, info: Info, d: Disk) {
    && p.status == "approved" && d.tunnel.Whole? && d.token.Whole?
    && p.wgIp == Some(d.tunnel.content.tunnel.ip) && info == d.tunnel.content.tunnel.edge
    && cfg.iface == d.tunnel.content.tunnel.iface && cfg.prefix == d.tunnel.content.tunnel.prefix
    && cfg.listenPort == d.tunnel.content.tunnel.listenPort
    && p.hostname == Some(d.tunnel.content.hostname) && d.tunnel.content.hostname != ""
    && p.deviceToken == Some(d.token.content) && d.token.content != ""
  }

  predicate IsWaiting(a: Answer) { a.Polled? && a.poll.status == "waiting" }

  // ---------- the life of a box ----------

  datatype ClaimState = Unclaimed | Awaiting | Failed(message: string)

  /** The process is down, enrolling as it boots, or serving the dashboard, where a claim may
      have spawned enrollment tasks. */
  datatype Process = Down | Booting(task: Phase) | Serving(claim: ClaimState, tasks: seq<Phase>)

  /** A box with its configuration: whether it names an invite to enroll with at boot. */
  datatype Machine = Machine(cfg: Invite, invited: bool, maxPolls: nat, disk: Disk, process: Process)

  /** What may happen next: a boot, a crash, one interaction of the booting or of a spawned
      enrollment, the end of either, or a claim submitted with a link that parses or not. */
  datatype Event =
    | Start | Crash | Interact(task: nat, answer: Answer) | End(task: nat) | Submit(parses: bool)

  function Fresh(cfg: Invite, invited: bool, maxPolls: nat): Machine {
    Machine(cfg, invited, maxPolls, Disk(Absent, Absent), Down)
  }

  function Message(o: Outcome): string {
    if o.Denied? then "the owner denied this machine's enrollment" else "failed"
  }

  function Next(m: Machine, e: Event): Machine {
    match e
    case Crash => m.(process := Down)
    case Start =>
      if !m.process.Down? then m
      else if !m.disk.tunnel.Whole? && m.invited then m.(process := Booting(Asking(m.maxPolls)))
      else m.(process := Serving(Unclaimed, []))
    case Interact(i, a) =>
      if m.process.Booting? then
        var (p, d) := EnrollStep(m.cfg, m.process.task, a, m.disk);
        m.(disk := d, process := Booting(p))
      else if m.process.Serving? && i < |m.process.tasks| then
        var (p, d) := EnrollStep(m.cfg, m.process.tasks[i], a, m.disk);
        m.(disk := d, process := m.process.(tasks := m.process.tasks[i := p]))
      else m
    case End(i) =>
      if m.process.Booting? && m.process.task.Done? then
        m.(process := if m.process.task.outcome.Enrolled? then Serving(Unclaimed, []) else Down)
      else if m.process.Serving? && i < |m.process.tasks| && m.process.tasks[i].Done? then
        Ended(m, i, m.process.tasks[i].outcome)
      else m
    case Submit(parses) => if m.process.Serving? then Submitted(m, parses) else m
  }

  /** A spawned enrollment that succeeds restarts the process; one that fails says so; one
      that panics says nothing. */
  function Ended(m: Machine, i: nat, o: Outcome): Machine
    requires m.process.Serving? && i < |m.process.tasks|
  {
    var rest := m.process.tasks[..i] + m.process.tasks[i + 1..];
    if o.Enrolled? then m.(process := Down)
    else if o.Panicked? then m.(process := m.process.(tasks := rest))
    else m.(process := Serving(Failed(Message(o)), rest))
  }

  function Submitted(m: Machine, parses: bool): Machine
    requires m.process.Serving?
  {
    var tasks := m.process.tasks;
    if m.disk.tunnel.Whole? then m.(process := Serving(Failed("This box is already claimed."), tasks))
    else if m.process.claim == Awaiting then m
    else if !parses then m.(process := Serving(Failed("That is not an invite link"), tasks))
    else m.(process := Serving(Awaiting, tasks + [Asking(m.maxPolls)]))
  }

  function After(m: Machine, run: seq<Event>): Machine {
    if run == [] then m else Next(After(m, run[..|run| - 1]), run[|run| - 1])
  }

  // ---------- what every run keeps ----------

  /** An enrollment that has written the tunnel state, or one that has not. */
  predicate Consistent(p: Phase, d: Disk) {
    match p
    case OpeningToken(tunnel, _) => d.tunnel.Whole? && d.tunnel.content.tunnel == tunnel
    case WritingToken(tunnel, _) => d.tunnel.Whole? && d.tunnel.content.tunnel == tunnel
    case Done(_) => true
    case _ => !d.tunnel.Whole?
  }

  predicate Sound(m: Machine) {
    && (!m.disk.token.Absent? ==> m.disk.tunnel.Whole?)
    && (m.process.Booting? ==> Consistent(m.process.task, m.disk))
    && (m.process.Serving? ==>
      && |m.process.tasks| <= 1
      && (m.process.tasks != [] ==> Consistent(m.process.tasks[0], m.disk))
      && (m.process.tasks != [] ==> m.process.claim == Awaiting || m.disk.tunnel.Whole?))
  }

  lemma StepIsConsistent(cfg: Invite, p: Phase, a: Answer, d: Disk)
    requires Consistent(p, d)
    ensures var (q, e) := EnrollStep(cfg, p, a, d);
      Consistent(q, e) && (d.tunnel.Whole? ==> e.tunnel == d.tunnel) && (e.token == d.token || e.tunnel.Whole?)
  {
  }

  lemma NextKeepsSound(m: Machine, e: Event)
    requires Sound(m)
    ensures Sound(Next(m, e))
    ensures m.disk.tunnel.Whole? ==> Next(m, e).disk.tunnel == m.disk.tunnel
  {
    if e.Interact? {
      if m.process.Booting? {
        StepIsConsistent(m.cfg, m.process.task, e.answer, m.disk);
      } else if m.process.Serving? && e.task < |m.process.tasks| {
        StepIsConsistent(m.cfg, m.process.tasks[e.task], e.answer, m.disk);
      }
    }
  }

  /** In every run from a fresh box, crashes anywhere included: a device token on disk, whole
      or torn, means a whole tunnel state on disk; and at most one enrollment is in flight. */
  lemma {:induction false} SingleFlight(m: Machine, run: seq<Event>)
    requires m == Fresh(m.cfg, m.invited, m.maxPolls)
    ensures Sound(After(m, run))
    ensures var n := After(m, run);
      (!n.disk.token.Absent? ==> n.disk.tunnel.Whole?) &&
      (n.process.Serving? ==> |n.process.tasks| <= 1)
  {
    if run == [] {
    } else {
      SingleFlight(m, run[..|run| - 1]);
      NextKeepsSound(After(m, run[..|run| - 1]), run[|run| - 1]);
    }
  }

  /** Whether an event makes an enrollment call `begin`. */
  predicate Begins(m: Machine, e: Event) {
    e.Interact? &&
    if m.process.Booting? then m.process.task.Asking?
    else m.process.Serving? && e.task < |m.process.tasks| && m.process.tasks[e.task].Asking?
  }

  lemma SoundNeverBegins(m: Machine, e: Event)
    requires Sound(m) && m.disk.tunnel.Whole?
    ensures !Begins(m, e)
  {
  }

  /** Once the tunnel state is on disk it stays as it is, and neither a later boot nor a later
      claim calls `begin`. */
  lemma {:induction false} NeverEnrollsAgain(m: Machine, run: seq<Event>, i: nat, j: nat)
    requires m == Fresh(m.cfg, m.invited, m.maxPolls)
    requires i <= j <= |run| && After(m, run[..i]).disk.tunnel.Whole?
    ensures After(m, run[..j]).disk.tunnel == After(m, run[..i]).disk.tunnel
    ensures j < |run| ==> !Begins(After(m, run[..j]), run[j])
    decreases j
  {
    hide Next, Begins, Sound;
    SingleFlight(m, run[..j]);
    if i < j {
      NeverEnrollsAgain(m, run, i, j - 1);
      SingleFlight(m, run[..j - 1]);
      assert run[..j][..j - 1] == run[..j - 1];
      NextKeepsSound(After(m, run[..j - 1]), run[j - 1]);
    }
    if j < |run| { SoundNeverBegins(After(m, run[..j]), run[j]); }
  }

  /** What the dashboard shows. */
  datatype View = ShowsClaimed(hostname: string) | ShowsUnclaimed | ShowsAwaiting | ShowsFailed(message: string)

  function RemoteView(d: Disk, claim: ClaimState): View {
    if d.tunnel.Whole? then ShowsClaimed(d.tunnel.content.hostname)
    else
      match claim
      case Unclaimed => ShowsUnclaimed
      case Awaiting => ShowsAwaiting
      case Failed(message) => ShowsFailed(message)
  }

  /** While an enrollment is in flight the dashboard shows the claim as awaiting or done. */
  lemma ViewDuringClaim(m: Machine, run: seq<Event>)
    requires m == Fresh(m.cfg, m.invited, m.maxPolls)
    requires After(m, run).process.Serving? && After(m, run).process.tasks != []
    ensures var n := After(m, run); var v := RemoteView(n.disk, n.process.claim);
      v.ShowsAwaiting? || v.ShowsClaimed?
  {
    SingleFlight(m, run);
  }

  // ---------- where it gets stuck ----------

  /** An edge answers a claim whose approval carried an empty name: the name's assertion fails
      before anything is written. */
  predicate InformsNameless(m: Machine, e: Event) {
    && m.process.Serving? && e.Interact? && e.answer.Informed?
    && e.task < |m.process.tasks| && m.process.tasks[e.task].Informing? && m.process.tasks[e.task].hostname == ""
  }

  /** The claim awaits with nothing in flight and nothing persisted. */
  predicate Stranded(m: Machine) {
    m.process == Serving(Awaiting, []) && !m.disk.tunnel.Whole?
  }

  /** The failed task has not been cleared away yet. */
  predicate Stranding(m: Machine) {
    m.process == Serving(Awaiting, [Done(Panicked)]) && !m.disk.tunnel.Whole?
  }

  ghost predicate InformedAt(m: Machine, run: seq<Event>, i: nat)
    requires i < |run|
  {
    InformsNameless(After(m, run[..i]), run[i]) && forall k :: i < k < |run| ==> !run[k].Crash?
  }

  /** Since the last start a nameless approval was informed. */
  ghost predicate Nameless(m: Machine, run: seq<Event>) {
    exists i :: 0 <= i < |run| && InformedAt(m, run, i)
  }

  /** … and its task ended after that. */
  ghost predicate NamelessEnded(m: Machine, run: seq<Event>) {
    exists i, j :: 0 <= i < j < |run| && InformedAt(m, run, i) && run[j] == End(0)
  }

  /** One event strands a machine only by ending the failed task, and that comes only of a
      nameless approval; only a crash frees it. */
  lemma StrandStep(m: Machine, e: Event)
    requires Sound(m)
    ensures Stranding(Next(m, e)) <==>
      InformsNameless(m, e) || (Stranding(m) && !e.Crash? && e != End(0))
    ensures Stranded(Next(m, e)) <==> (Stranded(m) && !e.Crash?) || (Stranding(m) && e == End(0))
  {
    var n := Next(m, e);
    if m.process.Serving? && |m.process.tasks| == 1 {
      var task := m.process.tasks[0];
      assert m.process.tasks == [task];
      if e.Interact? && e.task == 0 {
        var (p, d) := EnrollStep(m.cfg, task, e.answer, m.disk);
        assert m.process.tasks[0 := p] == [p];
      } else if e.End? && e.task == 0 {
        assert m.process.tasks[..0] + m.process.tasks[1..] == [];
      }
    } else if m.process.Serving? && n.process.Serving? && n.process.tasks != [] {
      assert n.process.tasks[0] == Asking(m.maxPolls);
    }
  }

  lemma NamelessPrefix(m: Machine, run: seq<Event>)
    requires run != []
    ensures var n := |run| - 1;
      (Nameless(m, run) <==> InformsNameless(After(m, run[..n]), run[n]) || (Nameless(m, run[..n]) && !run[n].Crash?)) &&
      (NamelessEnded(m, run) <==>
        (NamelessEnded(m, run[..n]) && !run[n].Crash?) || (Nameless(m, run[..n]) && run[n] == End(0)))
  {
    hide After, InformsNameless;
    var n := |run| - 1;
    var pre := run[..n];
    forall i | 0 <= i < n
      ensures pre[i] == run[i] && (InformedAt(m, run, i) <==> InformedAt(m, pre, i) && !run[n].Crash?)
    {
      assert pre[..i] == run[..i];
      assert forall k :: i < k < n ==> pre[k] == run[k];
    }
    if Nameless(m, pre) && !run[n].Crash? {
      var i :| 0 <= i < n && InformedAt(m, pre, i);
      assert InformedAt(m, run, i);
    }
    if InformsNameless(After(m, pre), run[n]) {
      assert InformedAt(m, run, n);
    }
    if Nameless(m, run) {
      var i :| 0 <= i < |run| && InformedAt(m, run, i);
      assert i < n ==> InformedAt(m, pre, i);
    }
    if NamelessEnded(m, run) {
      var i, j :| 0 <= i < j < |run| && InformedAt(m, run, i) && run[j] == End(0);
      assert InformedAt(m, pre, i);
      assert j < n ==> pre[j] == End(0);
    }
    if NamelessEnded(m, pre) && !run[n].Crash? {
      var i, j :| 0 <= i < j < n && InformedAt(m, pre, i) && pre[j] == End(0);
      assert InformedAt(m, run, i) && run[j] == End(0);
    }
    if Nameless(m, pre) && run[n] == End(0) {
      var i :| 0 <= i < n && InformedAt(m, pre, i);
      assert InformedAt(m, run, i) && run[n] == End(0);
    }
  }

  /** Over every run from a fresh box: the machine is stranded if and only if, since it last
      started, an approval with an empty name was informed and its task ended. */
  lemma {:induction false} StrandedExactly(m: Machine, run: seq<Event>)
    requires m == Fresh(m.cfg, m.invited, m.maxPolls)
    ensures Stranded(After(m, run)) <==> NamelessEnded(m, run)
    ensures Stranding(After(m, run)) ==> Nameless(m, run)
    ensures Nameless(m, run) ==> Stranding(After(m, run)) || NamelessEnded(m, run)
  {
    hide Next, InformsNameless, Stranded, Stranding, Nameless, NamelessEnded;
    if run == [] {
      NotStrandedAtFirst(m);
    } else {
      var n := |run| - 1;
      StrandedExactly(m, run[..n]);
      SingleFlight(m, run[..n]);
      StrandStep(After(m, run[..n]), run[n]);
      NamelessPrefix(m, run);
      StrandingIsNotStranded(After(m, run[..n]));
    }
  }

  lemma NotStrandedAtFirst(m: Machine)
    requires m.process.Down?
    ensures !Stranded(m) && !Stranding(m) && !Nameless(m, []) && !NamelessEnded(m, [])
  {
  }

  lemma StrandingIsNotStranded(m: Machine)
    ensures !(Stranding(m) && Stranded(m))
  {
  }

  /** From there nothing but the end of the process helps: no claim is ever begun again. */
  lemma {:induction false} StrandedUntilCrash(m: Machine, run: seq<Event>)
    requires Stranded(m) && forall n :: 0 <= n < |run| ==> !run[n].Crash?
    ensures After(m, run) == m
  {
    if run == [] {
    } else {
      StrandedUntilCrash(m, run[..|run| - 1]);
    }
  }

  /** Is there a run from `m` to `n`? */
  ghost predicate Reaches(m: Machine, n: Machine) { exists run :: After(m, run) == n }

  lemma ReachesItself(m: Machine)
    ensures Reaches(m, m)
  {
    assert After(m, []) == m;
  }

  lemma ReachesNext(m: Machine, n: Machine, e: Event)
    requires Reaches(m, n)
    ensures Reaches(m, Next(n, e))
  {
    hide Next;
    var run :| After(m, run) == n;
    assert (run + [e])[..|run|] == run;
    assert After(m, run + [e]) == Next(n, e);
  }

  /** What an interaction does to a process with one enrollment. */
  lemma Interacts(m: Machine, p: Phase, a: Answer)
    requires m.process == Serving(Awaiting, [p]) || m.process == Booting(p)
    ensures var (q, d) := EnrollStep(m.cfg, p, a, m.disk);
      Next(m, Interact(0, a)) ==
        m.(disk := d, process := if m.process.Booting? then Booting(q) else Serving(Awaiting, [q]))
  {
    var (q, d) := EnrollStep(m.cfg, p, a, m.disk);
    assert [p][0 := q] == [q];
  }

  /** Begun and approved at the first poll. */
  lemma Approves(cfg: Invite, left: nat, begun: Poll, p: Poll, d: Disk)
    requires begun.status == "waiting" && p.status == "approved"
    requires p.wgIp.Some? && p.hostname.Some? && p.deviceToken.Some?
    ensures EnrollStep(cfg, Asking(left), Polled(begun), d) == (Polling(left), d)
    ensures EnrollStep(cfg, Polling(left), Polled(p), d) ==
      (Informing(p.wgIp.value, p.hostname.value, p.deviceToken.value), d)
  {
    assert "waiting"[0] != "denied"[0];
  }

  /** A fresh box gets there: a claim is submitted and approved with an empty name. */
  lemma StrandingCanHappen(m: Machine, begun: Poll, p: Poll, info: Info)
    requires m == Fresh(m.cfg, false, m.maxPolls) && begun.status == "waiting" && p.status == "approved"
    requires p.wgIp.Some? && p.hostname == Some("") && p.deviceToken.Some?
    ensures exists n :: Reaches(m, n) && Stranded(n)
  {
    var m1 := m.(process := Serving(Unclaimed, []));
    var m2 := m.(process := Serving(Awaiting, [Asking(m.maxPolls)]));
    var m3 := m.(process := Serving(Awaiting, [Polling(m.maxPolls)]));
    var m4 := m.(process := Serving(Awaiting, [Informing(p.wgIp.value, "", p.deviceToken.value)]));
    var m5 := m.(process := Serving(Awaiting, [Done(Panicked)]));
    assert [] + [Asking(m.maxPolls)] == [Asking(m.maxPolls)];
    assert Next(m, Start) == m1 && Next(m1, Submit(true)) == m2;
    assert [Done(Panicked)][..0] + [Done(Panicked)][1..] == [];
    assert Stranded(Next(m5, End(0)));
    assert EnrollStep(m.cfg, m4.process.tasks[0], Informed(info), m.disk) == (Done(Panicked), m.disk);
    hide Next, EnrollStep, Reaches;
    Approves(m.cfg, m.maxPolls, begun, p, m.disk);
    Interacts(m2, Asking(m.maxPolls), Polled(begun));
    Interacts(m3, Polling(m.maxPolls), Polled(p));
    Interacts(m4, m4.process.tasks[0], Informed(info));
    ReachesItself(m);
    ReachesNext(m, m, Start);
    ReachesNext(m, m1, Submit(true));
    ReachesNext(m, m2, Interact(0, Polled(begun)));
    ReachesNext(m, m3, Interact(0, Polled(p)));
    ReachesNext(m, m4, Interact(0, Informed(info)));
    ReachesNext(m, m5, End(0));
  }

  // ---------- where the token is lost ----------

  /** Nothing is under way that would write the token. */
  predicate TokenLost(m: Machine) {
    && m.disk.tunnel.Whole? && !m.disk.token.Whole?
    && (m.process.Booting? ==> m.process.task.Done?)
    && (m.process.Serving? ==> forall i :: 0 <= i < |m.process.tasks| ==> m.process.tasks[i].Done?)
  }

  /** If an enrollment ends between the two files, because the write fails, the token is empty
      or the power goes, the device token never comes: not in any later run. */
  lemma {:induction false} LostTokenNeverComes(m: Machine, run: seq<Event>)
    requires TokenLost(m)
    ensures TokenLost(After(m, run)) && After(m, run).disk == m.disk
  {
    if run == [] {
    } else {
      LostTokenNeverComes(m, run[..|run| - 1]);
    }
  }

  /** A box that has its tunnel state and not its token can still get the token if and only if
      it is not lost. */
  lemma TokenComesExactly(m: Machine)
    requires Sound(m) && m.disk.tunnel.Whole? && !m.disk.token.Whole?
    ensures (exists n :: Reaches(m, n) && n.disk.token.Whole?) <==> !TokenLost(m)
  {
    if TokenLost(m) {
      forall run ensures !After(m, run).disk.token.Whole? {
        LostTokenNeverComes(m, run);
      }
    } else {
      var e := Interact(0, Succeeds);
      TwoMoreSteps(m);
      hide Next, Reaches;
      ReachesItself(m);
      ReachesNext(m, m, e);
      ReachesNext(m, Next(m, e), e);
    }
  }

  lemma TwoMoreSteps(m: Machine)
    requires Sound(m) && m.disk.tunnel.Whole? && !m.disk.token.Whole? && !TokenLost(m)
    ensures Next(Next(m, Interact(0, Succeeds)), Interact(0, Succeeds)).disk.token.Whole?
  {
    var task := if m.process.Booting? then m.process.task else m.process.tasks[0];
    assert task.OpeningToken? || task.WritingToken?;
  }

  /** A fresh box loses it if the approval's token is empty, or if the power goes as soon as the
      tunnel state is whole. */
  lemma LosingCanHappen(m: Machine, begun: Poll, p: Poll, info: Info, crash: bool)
    requires m == Fresh(m.cfg, true, m.maxPolls) && begun.status == "waiting" && p.status == "approved"
    requires p.wgIp.Some? && p.hostname.Some? && p.hostname.value != "" && p.deviceToken.Some?
    requires crash || p.deviceToken.value == ""
    ensures exists n :: Reaches(m, n) && TokenLost(n)
  {
    var ip, name, token := p.wgIp.value, p.hostname.value, p.deviceToken.value;
    var state := Persisted(Tunnel(m.cfg.iface, ip, m.cfg.prefix, info, m.cfg.listenPort), name);
    var m1 := m.(process := Booting(Asking(m.maxPolls)));
    var m2 := m.(process := Booting(Polling(m.maxPolls)));
    var m3 := m.(process := Booting(Informing(ip, name, token)));
    var m4 := m.(process := Booting(OpeningTunnel(state, token)));
    var m5 := m.(process := Booting(WritingTunnel(state, token)), disk := m.disk.(tunnel := Torn));
    var m6 := m.(process := Booting(if token == "" then Done(Panicked) else OpeningToken(state.tunnel, token)),
                 disk := m.disk.(tunnel := Whole(state)));
    var last := if crash then Crash else End(0);
    assert Next(m, Start) == m1 && TokenLost(Next(m6, last));
    assert EnrollStep(m.cfg, m3.process.task, Informed(info), m.disk) == (m4.process.task, m.disk);
    assert EnrollStep(m.cfg, m4.process.task, Succeeds, m.disk) == (m5.process.task, m5.disk);
    assert EnrollStep(m.cfg, m5.process.task, Succeeds, m5.disk) == (m6.process.task, m6.disk);
    hide Next, EnrollStep, Reaches, TokenLost;
    Approves(m.cfg, m.maxPolls, begun, p, m.disk);
    Interacts(m1, Asking(m.maxPolls), Polled(begun));
    Interacts(m2, Polling(m.maxPolls), Polled(p));
    Interacts(m3, m3.process.task, Informed(info));
    Interacts(m4, m4.process.task, Succeeds);
    Interacts(m5, m5.process.task, Succeeds);
    ReachesItself(m);
    ReachesNext(m, m, Start);
    ReachesNext(m, m1, Interact(0, Polled(begun)));
    ReachesNext(m, m2, Interact(0, Polled(p)));
    ReachesNext(m, m3, Interact(0, Informed(info)));
    ReachesNext(m, m4, Interact(0, Succeeds));
    ReachesNext(m, m5, Interact(0, Succeeds));
    ReachesNext(m, m6, last);
  }

  // ---------- what one enrollment leaves ----------

  /** An enrollment without interruption leaves both files whole if it succeeds, with the
      tunnel it returns, and touches the token file only when the tunnel file is whole; if the
      owner denies it or does not answer in time, or the edge misbehaves, it leaves the disk
      alone. */
  lemma WhatEnrollLeaves(cfg: Invite, w: nat -> Answer, maxPolls: nat, d: Disk)
    requires !d.tunnel.Whole?
    ensures var (o, e, _) := Finish(cfg, w, 0, Asking(maxPolls), d);
      (o.Enrolled? ==> e.token.Whole? && e.tunnel.Whole? && e.tunnel.content.tunnel == o.tunnel) &&
      (e.token != d.token ==> e.tunnel.Whole?) &&
      (o.Denied? || o.TimedOut? || o.ApiError? ==> e == d)
  {
    FinishLeaves(cfg, w, 0, Asking(maxPolls), d);
  }

  lemma {:induction false} FinishLeaves(cfg: Invite, w: nat -> Answer, i: nat, p: Phase, d: Disk)
    requires Consistent(p, d) && !p.Done?
    ensures var (o, e, _) := Finish(cfg, w, i, p, d);
      (o.Enrolled? ==> e.token.Whole? && e.tunnel.Whole? && e.tunnel.content.tunnel == o.tunnel) &&
      (e.token != d.token ==> e.tunnel.Whole?) &&
      (o.Denied? || o.TimedOut? || o.ApiError? ==> e == d && (p.Asking? || p.Polling? || p.Informing?))
    decreases Rank(p)
  {
    StepIsConsistent(cfg, p, w(i), d);
    var (q, e) := EnrollStep(cfg, p, w(i), d);
    if !q.Done? {
      FinishLeaves(cfg, w, i + 1, q, e);
    }
  }
}
