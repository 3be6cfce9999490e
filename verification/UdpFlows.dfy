/** The flow table of one UDP forward: a read loop that opens flows and one relay task per
    flow, as steps that interleave freely.  A step is what runs without another task being
    able to see its middle: one critical section, or one timed wait ending. */
module UdpFlows {

  type Addr = string

  /** A relay is about to compute its idle deadline, waits for an answer until it, is sending
      an answer on, or has taken its entry out of the table. */
  datatype Phase = Looping | Waiting(until: nat) | Sending | Gone

  /** A flow and its relay.  `last` is the flow's activity time; `answered` is the time of
      the last answer, or of the opening (kept for the proofs only, no step reads it). */
  datatype Relay = Relay(src: Addr, phase: Phase, last: nat, answered: nat) {
    predicate Live() { phase != Gone }
  }

  /** Where the read loop is: waiting for a packet, about to touch the flow it found, opening
      a flow for an address that was not in the table, the flow's relay spawned but its entry
      not yet inserted, or ended. */
  datatype Server = Idle | Found(id: nat) | Opening(src: Addr) | Spawned(src: Addr, id: nat) | Ended

  /** The table maps an address to the number of its relay; relays are numbered as spawned. */
  datatype State = State(idle: nat, now: nat, server: Server, flows: map<Addr, nat>, relays: seq<Relay>)

  datatype Event =
    | Receive(src: Addr) | Touch | OpenFailed | Spawn | Insert | End
    | Wait(id: nat) | Answer(id: nat) | Sent(id: nat) | Expire(id: nat) | Leave(id: nat)
    | Tick(time: nat)

  function Fresh(idle: nat): State { State(idle, 0, Idle, map[], []) }

  predicate Exits(e: Event) { e.Expire? || e.Leave? }

  predicate Enabled(s: State, e: Event) {
    match e
    case Receive(_) => s.server.Idle?
    case Touch => s.server.Found?
    case OpenFailed => s.server.Opening?
    case Spawn => s.server.Opening?
    case Insert => s.server.Spawned?
    case End => s.server.Idle? || s.server.Opening?
    case Wait(id) => id < |s.relays| && s.relays[id].phase.Looping?
    case Answer(id) => id < |s.relays| && s.relays[id].phase.Waiting?
    case Sent(id) => id < |s.relays| && s.relays[id].phase.Sending?
    case Expire(id) => id < |s.relays| && s.relays[id].phase.Waiting? && s.relays[id].phase.until <= s.now
    case Leave(id) => id < |s.relays| && (s.relays[id].phase.Waiting? || s.relays[id].phase.Sending?)
    case Tick(_) => true
  }

  /** One step; a step that is not enabled leaves the state as it is. */
  function Next(s: State, e: Event): State {
    if !Enabled(s, e) then s
    else
      match e
      case Receive(src) =>
        s.(server := if src in s.flows then Found(s.flows[src]) else Opening(src))
      case Touch => Touched(s, s.server.id).(server := Idle)
      case OpenFailed => s.(server := Idle)
      case Spawn =>
        var src := s.server.src;
        s.(server := Spawned(src, |s.relays|), relays := s.relays + [Relay(src, Looping, s.now, s.now)])
      case Insert => s.(server := Idle, flows := s.flows[s.server.src := s.server.id])
      case End => s.(server := Ended)
      case Wait(id) => s.(relays := s.relays[id := Asleep(s, s.relays[id])])
      case Answer(id) => s.(relays := s.relays[id := s.relays[id].(phase := Sending)])
      case Sent(id) =>
        s.(relays := s.relays[id := s.relays[id].(phase := Looping, last := s.now, answered := s.now)])
      case Expire(id) => Exited(s, id)
      case Leave(id) => Exited(s, id)
      case Tick(time) => s.(now := s.now + time)
  }

  /** A client packet updates the activity time of its flow. */
  function Touched(s: State, id: nat): State {
    if id < |s.relays| then s.(relays := s.relays[id := s.relays[id].(last := s.now)]) else s
  }

  /** The wait is for what is left of the idle timeout, if anything is. */
  function Asleep(s: State, r: Relay): Relay {
    r.(phase := Waiting(if r.last + s.idle < s.now then s.now else r.last + s.idle))
  }

  /** An exiting relay removes the entry of its address. */
  function Exited(s: State, id: nat): State
    requires id < |s.relays|
  {
    s.(flows := s.flows - {s.relays[id].src}, relays := s.relays[id := s.relays[id].(phase := Gone)])
  }

  function After(idle: nat, run: seq<Event>): State {
    if run == [] then Fresh(idle) else Next(After(idle, run[..|run| - 1]), run[|run| - 1])
  }

  // ---------- the steps as the tasks run them ----------

  class Forward {
    const idle: nat
    var now: nat
    var server: Server
    var flows: map<Addr, nat>
    var relays: seq<Relay>

    constructor (idle: nat)
      ensures Current() == Fresh(idle)
    {
      this.idle := idle;
      now, server, flows, relays := 0, Idle, map[], [];
    }

    function Current(): State
      reads this
    {
      State(idle, now, server, flows, relays)
    }

    /** The read loop looks a packet's address up. */
    method Received(src: Addr)
      requires Enabled(Current(), Receive(src)) && Inv(Current())
      modifies this
      ensures Current() == Next(old(Current()), Receive(src)) && Inv(Current())
    {
      ghost var s := Current();
      server := if src in flows then Found(flows[src]) else Opening(src);
      NextKeeps(s, Receive(src));
    }

    /** It updates the activity time of the flow it found. */
    method Touching()
      requires Enabled(Current(), Touch) && Inv(Current())
      modifies this
      ensures Current() == Next(old(Current()), Touch) && Inv(Current())
    {
      ghost var s := Current();
      var id := server.id;
      relays := relays[id := relays[id].(last := now)];
      server := Idle;
      NextKeeps(s, Touch);
    }

    /** The read loop spawns the relay, and then inserts its entry. */
    method Spawning()
      requires Enabled(Current(), Spawn) && Inv(Current())
      modifies this
      ensures Current() == Next(old(Current()), Spawn) && Inv(Current())
    {
      ghost var s := Current();
      var src := server.src;
      server := Spawned(src, |relays|);
      relays := relays + [Relay(src, Looping, now, now)];
      NextKeeps(s, Spawn);
    }

    method Inserting()
      requires Enabled(Current(), Insert) && Inv(Current())
      modifies this
      ensures Current() == Next(old(Current()), Insert) && Inv(Current())
    {
      ghost var s := Current();
      flows := flows[server.src := server.id];
      server := Idle;
      NextKeeps(s, Insert);
    }

    method Waits(id: nat)
      requires Enabled(Current(), Wait(id)) && Inv(Current())
      modifies this
      ensures Current() == Next(old(Current()), Wait(id)) && Inv(Current())
    {
      ghost var s := Current();
      var last := relays[id].last;
      var until := if last + idle < now then now else last + idle;
      relays := relays[id := relays[id].(phase := Waiting(until))];
      NextKeeps(s, Wait(id));
    }

    method Answered(id: nat)
      requires Enabled(Current(), Answer(id)) && Inv(Current())
      modifies this
      ensures Current() == Next(old(Current()), Answer(id)) && Inv(Current())
    {
      ghost var s := Current();
      relays := relays[id := relays[id].(phase := Sending)];
      NextKeeps(s, Answer(id));
    }

    /** The answer was sent on: the flow was active just now. */
    method SentOn(id: nat)
      requires Enabled(Current(), Sent(id)) && Inv(Current())
      modifies this
      ensures Current() == Next(old(Current()), Sent(id)) && Inv(Current())
    {
      ghost var s := Current();
      relays := relays[id := relays[id].(phase := Looping, last := now, answered := now)];
      NextKeeps(s, Sent(id));
    }

    method Exiting(id: nat, e: Event)
      requires Exits(e) && e.id == id && Enabled(Current(), e) && Inv(Current())
      modifies this
      ensures Current() == Next(old(Current()), e) && Inv(Current())
    {
      ghost var s := Current();
      flows := flows - {relays[id].src};
      relays := relays[id := relays[id].(phase := Gone)];
      NextKeeps(s, e);
    }
  }

  // ---------- what every interleaving keeps ----------

  /** The entry of an address is a relay of that address; a live relay is in the table unless
      its entry is still to be inserted; and while the read loop opens a flow for an address,
      the table has no entry for it. */
  predicate Inv(s: State) {
    Table(s) && forall id :: 0 <= id < |s.relays| ==> Rested(s, s.relays[id])
  }

  predicate Table(s: State) {
    && (forall src :: src in s.flows ==> s.flows[src] < |s.relays| && s.relays[s.flows[src]].src == src)
    && (forall id :: 0 <= id < |s.relays| && s.relays[id].Live() ==> Held(s, id))
    && (s.server.Found? ==> s.server.id < |s.relays|)
    && (s.server.Opening? || s.server.Spawned? ==> s.server.src !in s.flows)
    && (s.server.Spawned? ==> s.server.id < |s.relays| && s.relays[s.server.id].src == s.server.src)
  }

  predicate InTable(s: State, id: nat)
    requires id < |s.relays|
  {
    s.relays[id].src in s.flows && s.flows[s.relays[id].src] == id
  }

  predicate Held(s: State, id: nat)
    requires id < |s.relays|
  {
    InTable(s, id) || s.server == Spawned(s.relays[id].src, id)
  }

  predicate Rested(s: State, r: Relay) {
    r.answered <= r.last <= s.now && (r.phase.Waiting? ==> r.answered + s.idle <= r.phase.until)
  }

  lemma NextKeeps(s: State, e: Event)
    requires Inv(s)
    ensures Inv(Next(s, e))
  {
    if Enabled(s, e) && (Exits(e) || e.Wait? || e.Answer? || e.Sent?) {
      RelayKeepsTable(s, e);
    } else {
      ServerKeepsTable(s, e);
    }
    hide Table, Held;
    var t := Next(s, e);
    forall id | 0 <= id < |t.relays| ensures Rested(t, t.relays[id]) {
      if id < |s.relays| {
        assert Rested(s, s.relays[id]);
      }
    }
  }

  lemma ServerKeepsTable(s: State, e: Event)
    requires Table(s) && !(Enabled(s, e) && (Exits(e) || e.Wait? || e.Answer? || e.Sent?))
    ensures Table(Next(s, e))
  {
    var t := Next(s, e);
    forall id | 0 <= id < |t.relays| && t.relays[id].Live() ensures Held(t, id) {
      if id < |s.relays| {
        assert s.relays[id].Live() && s.relays[id].src == t.relays[id].src;
        assert Held(s, id);
      }
    }
  }

  lemma RelayKeepsTable(s: State, e: Event)
    requires Table(s) && Enabled(s, e) && (Exits(e) || e.Wait? || e.Answer? || e.Sent?)
    ensures Table(Next(s, e))
  {
    var t := Next(s, e);
    assert |t.relays| == |s.relays|;
    assert Held(s, e.id);
    forall id | 0 <= id < |t.relays| ensures t.relays[id].src == s.relays[id].src {}
    forall id | 0 <= id < |t.relays| && t.relays[id].Live() ensures Held(t, id) {
      assert Held(s, id);
    }
  }

  lemma {:induction false} EveryRunKeeps(idle: nat, run: seq<Event>)
    ensures Inv(After(idle, run)) && After(idle, run).idle == idle
  {
    if run == [] {
    } else {
      EveryRunKeeps(idle, run[..|run| - 1]);
      NextKeeps(After(idle, run[..|run| - 1]), run[|run| - 1]);
    }
  }

  /** In every interleaving an address has at most one live relay. */
  lemma OneRelayPerAddress(idle: nat, run: seq<Event>, i: nat, j: nat)
    ensures var relays := After(idle, run).relays;
      i < |relays| && j < |relays| && relays[i].Live() && relays[j].Live() && relays[i].src == relays[j].src
      ==> i == j
  {
    EveryRunKeeps(idle, run);
    var s := After(idle, run);
    if i < |s.relays| && j < |s.relays| && s.relays[i].Live() && s.relays[j].Live() {
      assert Held(s, i) && Held(s, j);
    }
  }

  /** In every interleaving an exiting relay takes out its own entry or none. */
  lemma RemovesOnlyItsOwn(idle: nat, run: seq<Event>, e: Event)
    requires Exits(e) && Enabled(After(idle, run), e)
    ensures var s, t := After(idle, run), Next(After(idle, run), e);
      forall src :: src in s.flows && s.flows[src] != e.id ==> src in t.flows && t.flows[src] == s.flows[src]
  {
    EveryRunKeeps(idle, run);
    assert Held(After(idle, run), e.id);
  }

  // ---------- stale entries ----------

  /** An entry whose relay is gone: its flow is found by every later packet and is never
      relayed again. */
  predicate Stale(s: State, src: Addr) {
    src in s.flows && s.flows[src] < |s.relays| && !s.relays[s.flows[src]].Live()
  }

  /** A relay that exits between its spawn and the insertion of its entry. */
  predicate ExitsEarly(s: State, e: Event, id: nat) {
    (e == Expire(id) || e == Leave(id)) && Enabled(s, e) && s.server == Spawned(s.relays[id].src, id)
  }

  predicate LeftEarly(idle: nat, run: seq<Event>, id: nat) {
    exists n :: 0 <= n < |run| && ExitsEarly(After(idle, run[..n]), run[n], id)
  }

  lemma EarlyPrefix(idle: nat, run: seq<Event>, id: nat)
    requires run != []
    ensures var m := |run| - 1;
      LeftEarly(idle, run, id) <==>
        LeftEarly(idle, run[..m], id) || ExitsEarly(After(idle, run[..m]), run[m], id)
  {
    hide After, ExitsEarly;
    var m := |run| - 1;
    if LeftEarly(idle, run, id) {
      var n :| 0 <= n < |run| && ExitsEarly(After(idle, run[..n]), run[n], id);
      if n < m {
        assert run[..m][..n] == run[..n] && run[..m][n] == run[n];
      }
    }
    if LeftEarly(idle, run[..m], id) {
      var n :| 0 <= n < m && ExitsEarly(After(idle, run[..m][..n]), run[..m][n], id);
      assert run[..m][..n] == run[..n] && run[..m][n] == run[n];
    }
  }

  /** A relay that is gone left its entry, or is to have it inserted, exactly if it exited
      early. */
  lemma {:induction false} GoneButHeld(idle: nat, run: seq<Event>, id: nat)
    ensures var s := After(idle, run);
      (LeftEarly(idle, run, id) ==> id < |s.relays| && !s.relays[id].Live() && Held(s, id)) &&
      (id < |s.relays| && !s.relays[id].Live() && Held(s, id) ==> LeftEarly(idle, run, id))
  {
    if run == [] {
    } else {
      var m := |run| - 1;
      GoneButHeld(idle, run[..m], id);
      EarlyPrefix(idle, run, id);
      EveryRunKeeps(idle, run[..m]);
      HeldStep(After(idle, run[..m]), run[m], id);
    }
  }

  /** A gone relay comes to be held only by exiting early, and stays held. */
  lemma HeldStep(s: State, e: Event, id: nat)
    requires Inv(s)
    ensures var t := Next(s, e);
      (id < |s.relays| && !s.relays[id].Live() && Held(s, id) ==> id < |t.relays| && !t.relays[id].Live() && Held(t, id)) &&
      (ExitsEarly(s, e, id) ==> id < |t.relays| && !t.relays[id].Live() && Held(t, id)) &&
      (id < |t.relays| && !t.relays[id].Live() && Held(t, id) ==>
        (id < |s.relays| && !s.relays[id].Live() && Held(s, id)) || ExitsEarly(s, e, id))
  {
    if Exits(e) && Enabled(s, e) {
      assert Held(s, e.id);
    }
  }

  /** An entry is stale exactly if its relay exited before the entry was inserted. */
  lemma StaleExactly(idle: nat, run: seq<Event>, src: Addr)
    requires src in After(idle, run).flows
    ensures Stale(After(idle, run), src) <==> LeftEarly(idle, run, After(idle, run).flows[src])
  {
    hide After, LeftEarly;
    EveryRunKeeps(idle, run);
    GoneButHeld(idle, run, After(idle, run).flows[src]);
  }

  /** So when spawn and insert happen as one step, the entries are exactly the relays that
      have not removed themselves. */
  lemma EntriesAreLiveRelays(idle: nat, run: seq<Event>)
    requires forall id :: !LeftEarly(idle, run, id)
    ensures var s := After(idle, run);
      forall id :: 0 <= id < |s.relays| ==> (s.relays[id].Live() <==> Held(s, id))
  {
    hide After, LeftEarly;
    EveryRunKeeps(idle, run);
    var s := After(idle, run);
    forall id | 0 <= id < |s.relays| ensures s.relays[id].Live() <==> Held(s, id) {
      GoneButHeld(idle, run, id);
    }
  }

  /** Once stale an entry is stale for ever: no relay is ever spawned for its address again. */
  lemma {:induction false} StaleForEver(s: State, events: seq<Event>, src: Addr)
    requires Inv(s) && Stale(s, src)
    ensures var t := Then(s, events);
      Stale(t, src) && forall id :: 0 <= id < |t.relays| && t.relays[id].src == src ==> !t.relays[id].Live()
    decreases |events|
  {
    hide Next;
    if events == [] {
      forall id | 0 <= id < |s.relays| && s.relays[id].src == src ensures !s.relays[id].Live() {
        assert s.relays[id].Live() ==> Held(s, id);
      }
    } else {
      StaleStep(s, events[0], src);
      NextKeeps(s, events[0]);
      StaleForEver(Next(s, events[0]), events[1..], src);
    }
  }

  function Then(s: State, events: seq<Event>): State
    decreases |events|
  {
    if events == [] then s else Then(Next(s, events[0]), events[1..])
  }

  lemma StaleStep(s: State, e: Event, src: Addr)
    requires Inv(s) && Stale(s, src)
    ensures Stale(Next(s, e), src)
  {
    if Exits(e) && Enabled(s, e) {
      assert Held(s, e.id);
    }
  }

  /** And it does happen, whatever the timeout: the relay may expire before the read loop
      gets to insert its entry. */
  lemma StaleCanHappen(src: Addr, idle: nat)
    ensures Stale(Then(Fresh(idle), [Receive(src), Spawn, Wait(0), Tick(idle), Expire(0), Insert]), src)
  {
    var s1 := Next(Fresh(idle), Receive(src));
    var s2 := Next(s1, Spawn);
    var s3 := Next(s2, Wait(0));
    var s4 := Next(s3, Tick(idle));
    var s5 := Next(s4, Expire(0));
    assert s2.relays == [Relay(src, Looping, 0, 0)];
    assert s3.relays == [Relay(src, Waiting(idle), 0, 0)];
    assert Stale(Next(s5, Insert), src);
    ThenUnfolds(Fresh(idle), Receive(src), [Spawn, Wait(0), Tick(idle), Expire(0), Insert]);
    ThenUnfolds(s1, Spawn, [Wait(0), Tick(idle), Expire(0), Insert]);
    ThenUnfolds(s2, Wait(0), [Tick(idle), Expire(0), Insert]);
    ThenUnfolds(s3, Tick(idle), [Expire(0), Insert]);
    ThenUnfolds(s4, Expire(0), [Insert]);
    ThenUnfolds(s5, Insert, []);
  }

  lemma ThenUnfolds(s: State, e: Event, rest: seq<Event>)
    ensures Then(s, [e] + rest) == Then(Next(s, e), rest)
  {
    assert ([e] + rest)[1..] == rest;
  }

  // ---------- idle expiry ----------

  /** A relay expires only after the destination kept silent for the idle timeout. */
  lemma ExpiresAfterSilence(idle: nat, run: seq<Event>, id: nat)
    requires Enabled(After(idle, run), Expire(id))
    ensures After(idle, run).relays[id].answered + idle <= After(idle, run).now
  {
    EveryRunKeeps(idle, run);
    assert Rested(After(idle, run), After(idle, run).relays[id]);
  }

  /** The client's own packets do not postpone the expiry of a relay that already waits: here
      one arrives an instant before. */
  lemma ClientDoesNotPostpone(src: Addr, idle: nat)
    requires idle > 0
    ensures var s := Then(Fresh(idle),
        [Receive(src), Spawn, Insert, Wait(0), Tick(idle - 1), Receive(src), Touch, Tick(1)]);
      Enabled(s, Expire(0)) && s.relays[0].last + 1 == s.now
  {
    var s1 := Next(Fresh(idle), Receive(src));
    var s2 := Next(s1, Spawn);
    var s3 := Next(s2, Insert);
    var s4 := Next(s3, Wait(0));
    var s5 := Next(s4, Tick(idle - 1));
    var s6 := Next(s5, Receive(src));
    var s7 := Next(s6, Touch);
    assert s2.relays == [Relay(src, Looping, 0, 0)];
    assert s4.relays == [Relay(src, Waiting(idle), 0, 0)];
    assert s7.relays == [Relay(src, Waiting(idle), idle - 1, 0)];
    ThenUnfolds(Fresh(idle), Receive(src), [Spawn, Insert, Wait(0), Tick(idle - 1), Receive(src), Touch, Tick(1)]);
    ThenUnfolds(s1, Spawn, [Insert, Wait(0), Tick(idle - 1), Receive(src), Touch, Tick(1)]);
    ThenUnfolds(s2, Insert, [Wait(0), Tick(idle - 1), Receive(src), Touch, Tick(1)]);
    ThenUnfolds(s3, Wait(0), [Tick(idle - 1), Receive(src), Touch, Tick(1)]);
    ThenUnfolds(s4, Tick(idle - 1), [Receive(src), Touch, Tick(1)]);
    ThenUnfolds(s5, Receive(src), [Touch, Tick(1)]);
    ThenUnfolds(s6, Touch, [Tick(1)]);
    ThenUnfolds(s7, Tick(1), []);
  }
}
