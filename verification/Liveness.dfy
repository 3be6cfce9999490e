/** The liveness cache: snapshots that overlap, each answering from the cache what is fresh
    and probing the rest with at most eight probes at a time. */
module Liveness {

  // Milliseconds.
  const CACHE_TTL: nat := 30000
  const MAX_CONCURRENT_PROBES: nat := 8

  datatype Hit = Hit(at: nat, ok: bool)

  /** A probe task waits for a permit, probes, and ends with an answer or breaks. */
  datatype Phase = Queued | Probing | Answered(ok: bool) | Broken

  datatype Task = Task(index: nat, url: string, phase: Phase)

  /** A snapshot of a catalog: the answers so far, its tasks, how many of them it has awaited,
      the permits left, and when it read the cache. */
  datatype Snap = Snap(urls: seq<string>, healthy: seq<bool>, tasks: seq<Task>, awaited: nat, permits: nat, begun: nat)

  /** A probe that took place (kept for the proofs only, no step reads it). */
  datatype Probe = Probe(url: string, at: nat, ok: bool)

  datatype State = State(now: nat, cache: map<string, Hit>, snaps: seq<Snap>, log: set<Probe>)

  datatype Event =
    | Tick(time: nat) | Begin(urls: seq<string>)
    | Acquire(snap: nat, task: nat) | EndProbe(snap: nat, task: nat, ok: bool) | Break(snap: nat, task: nat)
    | Await(snap: nat)

  predicate FreshHit(cache: map<string, Hit>, now: nat, url: string) {
    url in cache && now < cache[url].at + CACHE_TTL
  }

  /** The answers the cache gives; false where it gives none. */
  function Known(cache: map<string, Hit>, now: nat, urls: seq<string>): (healthy: seq<bool>)
    ensures |healthy| == |urls|
  {
    if urls == [] then []
    else
      var n := |urls| - 1;
      Known(cache, now, urls[..n]) + [FreshHit(cache, now, urls[n]) && cache[urls[n]].ok]
  }

  /** A task for each entry that the cache does not answer. */
  function Stale(cache: map<string, Hit>, now: nat, urls: seq<string>): seq<Task> {
    if urls == [] then []
    else
      var n := |urls| - 1;
      Stale(cache, now, urls[..n]) + if FreshHit(cache, now, urls[n]) then [] else [Task(n, urls[n], Queued)]
  }

  function Begun(cache: map<string, Hit>, now: nat, urls: seq<string>): Snap {
    Snap(urls, Known(cache, now, urls), Stale(cache, now, urls), 0, MAX_CONCURRENT_PROBES, now)
  }

  predicate Enabled(s: State, e: Event) {
    match e
    case Tick(_) => true
    case Begin(_) => true
    case Acquire(i, t) => IsTask(s, i, t) && s.snaps[i].tasks[t].phase.Queued? && s.snaps[i].permits > 0
    case EndProbe(i, t, _) => IsTask(s, i, t) && s.snaps[i].tasks[t].phase.Probing?
    case Break(i, t) => IsTask(s, i, t) && (s.snaps[i].tasks[t].phase.Queued? || s.snaps[i].tasks[t].phase.Probing?)
    case Await(i) =>
      i < |s.snaps| && s.snaps[i].awaited < |s.snaps[i].tasks| &&
      var p := s.snaps[i].tasks[s.snaps[i].awaited].phase; p.Answered? || p.Broken?
  }

  predicate IsTask(s: State, i: nat, t: nat) { i < |s.snaps| && t < |s.snaps[i].tasks| }

  function WithPhase(snap: Snap, t: nat, p: Phase): Snap
    requires t < |snap.tasks|
  {
    snap.(tasks := snap.tasks[t := snap.tasks[t].(phase := p)])
  }

  /** One step; a step that is not enabled leaves the state as it is. */
  function Next(s: State, e: Event): State {
    if !Enabled(s, e) then s
    else
      match e
      case Tick(time) => s.(now := s.now + time)
      case Begin(urls) =>
        s.(snaps := s.snaps + [Begun(s.cache, s.now, urls)])
      case Acquire(i, t) =>
        s.(snaps := s.snaps[i := WithPhase(s.snaps[i], t, Probing).(permits := s.snaps[i].permits - 1)])
      case EndProbe(i, t, ok) =>
        var url := s.snaps[i].tasks[t].url;
        State(s.now, s.cache[url := Hit(s.now, ok)],
              s.snaps[i := WithPhase(s.snaps[i], t, Answered(ok)).(permits := s.snaps[i].permits + 1)],
              s.log + {Probe(url, s.now, ok)})
      case Break(i, t) =>
        var back := if s.snaps[i].tasks[t].phase.Probing? then 1 else 0;
        s.(snaps := s.snaps[i := WithPhase(s.snaps[i], t, Broken).(permits := s.snaps[i].permits + back)])
      case Await(i) => s.(snaps := s.snaps[i := Awaited(s.snaps[i])])
  }

  /** Awaiting the next task takes its answer over, if it has one. */
  function Awaited(snap: Snap): Snap
    requires snap.awaited < |snap.tasks|
  {
    var task := snap.tasks[snap.awaited];
    var healthy :=
      if task.phase.Answered? && task.index < |snap.healthy| then snap.healthy[task.index := task.phase.ok]
      else snap.healthy;
    snap.(healthy := healthy, awaited := snap.awaited + 1)
  }

  function After(run: seq<Event>): State {
    if run == [] then State(0, map[], [], {}) else Next(After(run[..|run| - 1]), run[|run| - 1])
  }

  /** The part of a snapshot that reads the cache, under its lock. */
  method ReadCache(cache: map<string, Hit>, now: nat, urls: seq<string>) returns (healthy: seq<bool>, stale: seq<Task>)
    ensures healthy == Known(cache, now, urls) && stale == Stale(cache, now, urls)
  {
    healthy := seq(|urls|, i => false);
    stale := [];
    assert urls[..0] == [] && healthy[..0] == [];
    for n := 0 to |urls|
      invariant |healthy| == |urls|
      invariant healthy[..n] == Known(cache, now, urls[..n])
      invariant forall i :: n <= i < |urls| ==> !healthy[i]
      invariant stale == Stale(cache, now, urls[..n])
    {
      assert urls[..n + 1][..n] == urls[..n];
      ghost var before := healthy[..n];
      if urls[n] in cache && now < cache[urls[n]].at + CACHE_TTL {
        healthy := healthy[n := cache[urls[n]].ok];
      } else {
        stale := stale + [Task(n, urls[n], Queued)];
      }
      assert healthy[..n] == before;
      assert healthy[..n + 1] == before + [healthy[n]];
    }
    assert urls[..|urls|] == urls && healthy[..|urls|] == healthy;
  }

  // ---------- what every run keeps ----------

  /** A probe of the url that gave the answer, less than the cache's time to live before the
      snapshot began or later. */
  predicate Real(log: set<Probe>, begun: nat, url: string, ok: bool) {
    exists p :: p in log && p.url == url && p.ok == ok && begun < p.at + CACHE_TTL
  }

  /** A task of the snapshot that is for the entry and still out, or broken. */
  predicate Missing(snap: Snap, i: nat) {
    exists t :: 0 <= t < |snap.tasks| && snap.tasks[t].index == i && (t >= snap.awaited || snap.tasks[t].phase.Broken?)
  }

  /** Each answer is a real one for the entry's own url, or the false it starts with. */
  predicate Justified(log: set<Probe>, snap: Snap, i: nat)
    requires i < |snap.urls| == |snap.healthy|
  {
    Real(log, snap.begun, snap.urls[i], snap.healthy[i]) || (!snap.healthy[i] && Missing(snap, i))
  }

  predicate TaskIsSound(log: set<Probe>, snap: Snap, task: Task) {
    && task.index < |snap.urls| && task.url == snap.urls[task.index]
    && (task.phase.Answered? ==> Real(log, snap.begun, task.url, task.phase.ok))
  }

  predicate SnapIsSound(log: set<Probe>, now: nat, snap: Snap) {
    && |snap.healthy| == |snap.urls| && snap.begun <= now
    && (forall t :: 0 <= t < |snap.tasks| ==> TaskIsSound(log, snap, snap.tasks[t]))
    && (forall t :: 0 <= t < |snap.tasks| && t < snap.awaited ==>
          snap.tasks[t].phase.Answered? || snap.tasks[t].phase.Broken?)
    && (forall i :: 0 <= i < |snap.urls| ==> Justified(log, snap, i))
    && snap.permits + InFlight(snap.tasks) == MAX_CONCURRENT_PROBES
  }

  /** The probes of a snapshot that are running. */
  function InFlight(tasks: seq<Task>): nat {
    if tasks == [] then 0
    else InFlight(tasks[..|tasks| - 1]) + if tasks[|tasks| - 1].phase.Probing? then 1 else 0
  }

  predicate Sound(s: State) {
    && (forall url :: url in s.cache ==> Probe(url, s.cache[url].at, s.cache[url].ok) in s.log)
    && (forall i :: 0 <= i < |s.snaps| ==> SnapIsSound(s.log, s.now, s.snaps[i]))
  }

  lemma {:induction false} InFlightUpdate(tasks: seq<Task>, t: nat, task: Task)
    requires t < |tasks|
    ensures InFlight(tasks[t := task]) ==
      InFlight(tasks) + (if task.phase.Probing? then 1 else 0) - (if tasks[t].phase.Probing? then 1 else 0)
  {
    var m := |tasks| - 1;
    if t < m {
      assert tasks[t := task][..m] == tasks[..m][t := task];
      InFlightUpdate(tasks[..m], t, task);
    } else {
      assert tasks[t := task][..m] == tasks[..m];
    }
  }

  /** The log only grows, and so does what it justifies. */
  lemma GrowingLog(log: set<Probe>, more: set<Probe>, now: nat, later: nat, snap: Snap)
    requires SnapIsSound(log, now, snap) && log <= more && now <= later
    ensures SnapIsSound(more, later, snap)
  {
    hide Missing, InFlight;
    forall t | 0 <= t < |snap.tasks| ensures TaskIsSound(more, snap, snap.tasks[t]) {
      assert TaskIsSound(log, snap, snap.tasks[t]);
    }
    forall i | 0 <= i < |snap.urls| ensures Justified(more, snap, i) {
      assert Justified(log, snap, i);
    }
  }

  lemma PhaseKeepsSound(log: set<Probe>, now: nat, snap: Snap, t: nat, p: Phase, permits: nat)
    requires SnapIsSound(log, now, snap) && t < |snap.tasks|
    requires snap.tasks[t].phase.Queued? || snap.tasks[t].phase.Probing?
    requires p.Answered? ==> Real(log, snap.begun, snap.tasks[t].url, p.ok)
    requires permits ==
      snap.permits + (if snap.tasks[t].phase.Probing? then 1 else 0) - (if p.Probing? then 1 else 0)
    ensures SnapIsSound(log, now, WithPhase(snap, t, p).(permits := permits))
  {
    hide Real, InFlight;
    var next := WithPhase(snap, t, p).(permits := permits);
    InFlightUpdate(snap.tasks, t, snap.tasks[t].(phase := p));
    forall k | 0 <= k < |next.tasks| ensures TaskIsSound(log, next, next.tasks[k]) {
      assert TaskIsSound(log, snap, snap.tasks[k]);
    }
    forall i | 0 <= i < |next.urls| ensures Justified(log, next, i) {
      assert Justified(log, snap, i);
      if Missing(snap, i) {
        var k :| 0 <= k < |snap.tasks| && snap.tasks[k].index == i && (k >= snap.awaited || snap.tasks[k].phase.Broken?);
        assert next.tasks[k].index == i && (k >= next.awaited || next.tasks[k].phase.Broken?);
      }
    }
  }

  lemma AwaitKeepsSound(log: set<Probe>, now: nat, snap: Snap)
    requires SnapIsSound(log, now, snap) && snap.awaited < |snap.tasks|
    requires snap.tasks[snap.awaited].phase.Answered? || snap.tasks[snap.awaited].phase.Broken?
    ensures SnapIsSound(log, now, Awaited(snap))
  {
    hide Real, InFlight;
    var next := Awaited(snap);
    var task := snap.tasks[snap.awaited];
    assert TaskIsSound(log, snap, task);
    forall t | 0 <= t < |next.tasks| ensures TaskIsSound(log, next, next.tasks[t]) {
      assert TaskIsSound(log, snap, snap.tasks[t]);
    }
    forall i | 0 <= i < |next.urls| ensures Justified(log, next, i) {
      assert Justified(log, snap, i);
      if Missing(snap, i) {
        var k :| 0 <= k < |snap.tasks| && snap.tasks[k].index == i && (k >= snap.awaited || snap.tasks[k].phase.Broken?);
        assert next.tasks[k] == snap.tasks[k];
      }
    }
  }

  /** A new snapshot has each answer from a fresh probe, or a task out for it. */
  lemma {:induction false} BeginIsSound(log: set<Probe>, cache: map<string, Hit>, now: nat, urls: seq<string>)
    requires forall url :: url in cache ==> Probe(url, cache[url].at, cache[url].ok) in log
    ensures SnapIsSound(log, now, Begun(cache, now, urls))
  {
    var snap := Begun(cache, now, urls);
    if urls == [] {
    } else {
      var n := |urls| - 1;
      BeginIsSound(log, cache, now, urls[..n]);
      var less := Begun(cache, now, urls[..n]);
      hide Known, Stale, InFlight;
      BeginExtends(log, cache, now, urls, less, snap);
    }
  }

  lemma BeginExtends(log: set<Probe>, cache: map<string, Hit>, now: nat, urls: seq<string>, less: Snap, snap: Snap)
    requires forall url :: url in cache ==> Probe(url, cache[url].at, cache[url].ok) in log
    requires urls != [] && less.urls == urls[..|urls| - 1] && snap.urls == urls
    requires SnapIsSound(log, now, less) && less.awaited == 0 && less.permits == MAX_CONCURRENT_PROBES
    requires var url := urls[|urls| - 1]; snap == less.(urls := urls,
      healthy := less.healthy + [FreshHit(cache, now, url) && cache[url].ok],
      tasks := less.tasks + if FreshHit(cache, now, url) then [] else [Task(|urls| - 1, url, Queued)])
    requires less.begun == now
    ensures SnapIsSound(log, now, snap)
  {
    hide Real;
    var n := |urls| - 1;
    var url := urls[n];
    forall t | 0 <= t < |snap.tasks| ensures TaskIsSound(log, snap, snap.tasks[t]) {
      if t < |less.tasks| { assert TaskIsSound(log, less, less.tasks[t]); }
    }
    forall i | 0 <= i < |urls| ensures Justified(log, snap, i) {
      if i < n {
        assert Justified(log, less, i);
        if Missing(less, i) {
          var k :| 0 <= k < |less.tasks| && less.tasks[k].index == i;
          assert snap.tasks[k] == less.tasks[k];
        }
      } else if FreshHit(cache, now, url) {
        HitIsReal(log, cache, now, url);
      } else {
        assert snap.tasks[|less.tasks|].index == i;
      }
    }
    if FreshHit(cache, now, url) {
      assert snap.tasks == less.tasks;
    } else {
      assert snap.tasks[..|snap.tasks| - 1] == less.tasks;
    }
  }

  lemma HitIsReal(log: set<Probe>, cache: map<string, Hit>, now: nat, url: string)
    requires FreshHit(cache, now, url) && Probe(url, cache[url].at, cache[url].ok) in log
    ensures Real(log, now, url, cache[url].ok)
  {
  }

  lemma NextKeepsSound(s: State, e: Event)
    requires Sound(s)
    ensures Sound(Next(s, e))
  {
    var t := Next(s, e);
    if Enabled(s, e) {
      hide InFlight, Justified, TaskIsSound, Known, Stale;
      forall i | 0 <= i < |t.snaps| ensures SnapIsSound(t.log, t.now, t.snaps[i]) {
        if i < |s.snaps| {
          GrowingLog(s.log, t.log, s.now, t.now, s.snaps[i]);
          match e
          case Acquire(j, k) =>
            if j == i { PhaseKeepsSound(t.log, t.now, s.snaps[i], k, Probing, s.snaps[i].permits - 1); }
          case EndProbe(j, k, ok) =>
            if j == i {
              var url := s.snaps[i].tasks[k].url;
              assert Probe(url, s.now, ok) in t.log;
              PhaseKeepsSound(t.log, t.now, s.snaps[i], k, Answered(ok), s.snaps[i].permits + 1);
            }
          case Break(j, k) =>
            if j == i { PhaseKeepsSound(t.log, t.now, s.snaps[i], k, Broken, t.snaps[i].permits); }
          case Await(j) =>
            if j == i { AwaitKeepsSound(t.log, t.now, s.snaps[i]); }
          case Tick(_) =>
          case Begin(_) =>
        } else {
          BeginIsSound(s.log, s.cache, s.now, e.urls);
        }
      }
    }
  }

  lemma {:induction false} EveryRunKeeps(run: seq<Event>)
    ensures Sound(After(run))
  {
    if run == [] {
    } else {
      hide Sound, Next;
      EveryRunKeeps(run[..|run| - 1]);
      NextKeepsSound(After(run[..|run| - 1]), run[|run| - 1]);
    }
  }

  /** Over every run of overlapping snapshots: once a snapshot has awaited all its tasks, each
      answer is that of a real probe of the entry's own url, made less than 30 seconds before
      the snapshot began or later, or the false of a broken task; and no snapshot ever runs
      more than eight probes. */
  lemma AnswersAreReal(run: seq<Event>, n: nat, i: nat)
    requires n < |After(run).snaps| && i < |After(run).snaps[n].urls|
    ensures var s := After(run); var snap := s.snaps[n];
      InFlight(snap.tasks) <= MAX_CONCURRENT_PROBES &&
      |snap.healthy| == |snap.urls| &&
      (snap.awaited >= |snap.tasks| ==>
        Real(s.log, snap.begun, snap.urls[i], snap.healthy[i]) || (!snap.healthy[i] && HasBroken(snap, i)))
  {
    hide After, InFlight, Real;
    EveryRunKeeps(run);
    var s := After(run);
    assert SnapIsSound(s.log, s.now, s.snaps[n]) && Justified(s.log, s.snaps[n], i);
  }

  predicate HasBroken(snap: Snap, i: nat) {
    exists t :: 0 <= t < |snap.tasks| && snap.tasks[t].index == i && snap.tasks[t].phase.Broken?
  }

  /** Every probe of the run answers as the truth is, and no task breaks. */
  predicate Truthful(run: seq<Event>, truth: string -> bool) {
    run == [] ||
    var n := |run| - 1; var s := After(run[..n]);
    && Truthful(run[..n], truth)
    && !run[n].Break?
    && (run[n].EndProbe? && Enabled(s, run[n]) ==> run[n].ok == truth(s.snaps[run[n].snap].tasks[run[n].task].url))
  }

  /** If liveness does not change and no task breaks, a finished snapshot is what probing every
      entry would give, however the cache and the other snapshots came in between. */
  lemma SnapshotIsTruth(run: seq<Event>, truth: string -> bool, n: nat, i: nat)
    requires Truthful(run, truth)
    requires n < |After(run).snaps| && i < |After(run).snaps[n].urls|
    ensures var snap := After(run).snaps[n];
      snap.awaited >= |snap.tasks| ==> |snap.healthy| == |snap.urls| && snap.healthy[i] == truth(snap.urls[i])
  {
    AnswersAreReal(run, n, i);
    TruthIsLogged(run, truth);
  }

  lemma {:induction false} TruthIsLogged(run: seq<Event>, truth: string -> bool)
    requires Truthful(run, truth)
    ensures forall p :: p in After(run).log ==> p.ok == truth(p.url)
    ensures forall n, t :: 0 <= n < |After(run).snaps| && 0 <= t < |After(run).snaps[n].tasks| ==>
      !After(run).snaps[n].tasks[t].phase.Broken?
  {
    if run == [] {
    } else {
      var m := |run| - 1;
      TruthIsLogged(run[..m], truth);
      var s := After(run[..m]);
      if run[m].Begin? { NoneBroken(s.cache, s.now, run[m].urls); }
    }
  }

  lemma {:induction false} NoneBroken(cache: map<string, Hit>, now: nat, urls: seq<string>)
    ensures forall t :: 0 <= t < |Stale(cache, now, urls)| ==> !Stale(cache, now, urls)[t].phase.Broken?
  {
    if urls == [] {
    } else {
      NoneBroken(cache, now, urls[..|urls| - 1]);
    }
  }
}
