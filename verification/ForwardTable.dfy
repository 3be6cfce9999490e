/** The live forward table: stats rows, task handles and serve tasks, under serial adds and
    removes. */
module ForwardTable {
  import opened Retry

  datatype Proto = Tcp | Udp

  function AsStr(p: Proto): string { if p.Tcp? then "tcp" else "udp" }

  datatype Forward = Forward(listenAddr: string, proto: Proto, destAddr: string)

  function ForwardKey(f: Forward): string { AsStr(f.proto) + "://" + f.listenAddr }

  /** Two forwards share a key exactly if they listen at the same place. */
  lemma KeyIsPlace(f: Forward, g: Forward)
    ensures ForwardKey(f) == ForwardKey(g) <==> f.proto == g.proto && f.listenAddr == g.listenAddr
  {
    assert ForwardKey(f)[0] == (if f.proto.Tcp? then 't' else 'u');
    assert ForwardKey(g)[0] == (if g.proto.Tcp? then 't' else 'u');
    assert ForwardKey(f)[6..] == f.listenAddr && ForwardKey(g)[6..] == g.listenAddr;
  }

  datatype Row = Row(proto: Proto, listenAddr: string, destAddr: string, bound: bool, failure: Result)

  /** Rows and handles are keyed alike; a handle is the number of the task it aborts. */
  datatype Table = Table(rows: map<string, Row>, handles: map<string, nat>, running: set<nat>, spawned: nat)

  function Empty(): Table { Table(map[], map[], {}, 0) }

  /** The operations: an add with what its binding came to and the address it got, a remove,
      a serve task that ends by itself, and the static binding of a configured forward. */
  datatype Op =
    | Add(forward: Forward, binding: Result, actual: string)
    | Remove(forward: Forward)
    | TaskEnds(task: nat)
    | BindStatic(forward: Forward, binding: Result, actual: string)

  function Recorded(f: Forward, binding: Result, actual: string): Row {
    Row(f.proto, if binding.Listening? then actual else f.listenAddr, f.destAddr, binding.Listening?, binding)
  }

  /** The state after an operation, and whether it answers Ok (or, for a remove, true). */
  function Step(s: Table, op: Op): (bool, Table) {
    match op
    case Add(f, binding, actual) =>
      var k := ForwardKey(f);
      if k in s.handles then (true, s)
      else
        var rows := s.rows[k := Recorded(f, binding, actual)];
        if binding.Listening?
        then (true, Table(rows, s.handles[k := s.spawned], s.running + {s.spawned}, s.spawned + 1))
        else (false, s.(rows := rows))
    case Remove(f) =>
      var k := ForwardKey(f);
      if k in s.handles
      then (true, s.(rows := s.rows - {k}, handles := s.handles - {k}, running := s.running - {s.handles[k]}))
      else (false, s)
    case TaskEnds(task) => (true, s.(running := s.running - {task}))
    case BindStatic(f, binding, actual) =>
      var rows := s.rows[ForwardKey(f) := Recorded(f, binding, actual)];
      if binding.Listening?
      then (true, s.(rows := rows, running := s.running + {s.spawned}, spawned := s.spawned + 1))
      else (false, s.(rows := rows))
  }

  function After(run: seq<Op>): Table {
    if run == [] then Empty() else Step(After(run[..|run| - 1]), run[|run| - 1]).1
  }

  function Answer(run: seq<Op>, n: nat): bool
    requires n < |run|
  {
    Step(After(run[..n]), run[n]).0
  }

  /** Ready: some row is bound. */
  ghost predicate Ready(s: Table) {
    exists k :: k in s.rows && s.rows[k].bound
  }

  class Forwarder {
    const bindTimeout: nat
    var rows: map<string, Row>
    var handles: map<string, nat>
    var running: set<nat>
    var spawned: nat

    /** A forwarder that starts with no forwards. */
    constructor NewLive(bindTimeout: nat)
      ensures this.bindTimeout == bindTimeout && Current() == Empty() && Valid()
    {
      this.bindTimeout := bindTimeout;
      rows, handles, running, spawned := map[], map[], {}, 0;
    }

    function Current(): Table
      reads this
    {
      Table(rows, handles, running, spawned)
    }

    ghost predicate Valid()
      reads this
    {
      Sound(Current())
    }

    /** Binds with retries, then records and spawns; never touches another forward. */
    method AddForward(f: Forward, w: World, actual: string) returns (ok: bool, binding: Result)
      requires Valid()
      modifies this
      ensures Valid() && (ok, Current()) == Step(old(Current()), Add(f, binding, actual))
      ensures ForwardKey(f) !in old(handles) ==>
        exists n: nat :: LastAttempt(w, bindTimeout, n) && binding == Verdict(w, bindTimeout, n)
    {
      ghost var s := Current();
      binding := Cancelled;
      var key := ForwardKey(f);
      if key in handles {
        return true, binding;
      }
      var bound, attempts := RetryWithBackoff(w, bindTimeout);
      binding := bound;
      StepKeepsSound(s, Add(f, binding, actual));
      if bound.Listening? {
        rows := rows[key := Row(f.proto, actual, f.destAddr, true, bound)];
        running := running + {spawned};
        handles := handles[key := spawned];
        spawned := spawned + 1;
        ok := true;
      } else {
        rows := rows[key := Row(f.proto, f.listenAddr, f.destAddr, false, bound)];
        ok := false;
      }
    }

    /** Takes the handle, aborts its task and drops the row. */
    method RemoveForward(f: Forward) returns (aborted: bool)
      requires Valid()
      modifies this
      ensures Valid() && (aborted, Current()) == Step(old(Current()), Remove(f))
    {
      StepKeepsSound(Current(), Remove(f));
      var key := ForwardKey(f);
      aborted := key in handles;
      if aborted {
        var task := handles[key];
        handles := handles - {key};
        running := running - {task};
        rows := rows - {key};
      }
    }
  }

  // ---------- what every live run keeps ----------

  predicate Live(op: Op) { !op.BindStatic? }

  /** A key has a handle exactly if its row says bound; every running task is held by a
      handle, and no two handles hold the same task. */
  ghost predicate Sound(s: Table) {
    && (forall k :: k in s.handles <==> k in s.rows && s.rows[k].bound)
    && (forall k :: k in s.handles ==> s.handles[k] < s.spawned)
    && (forall j, k :: j in s.handles && k in s.handles && s.handles[j] == s.handles[k] ==> j == k)
    && (forall t :: t in s.running ==> t < s.spawned && t in s.handles.Values)
  }

  lemma StepKeepsSound(s: Table, op: Op)
    requires Sound(s) && Live(op)
    ensures Sound(Step(s, op).1)
  {
    var t := Step(s, op).1;
    hide ForwardKey;
    forall task | task in t.running ensures task < t.spawned && task in t.handles.Values {
      if task in s.running {
        var k :| k in s.handles && s.handles[k] == task;
        assert k in t.handles && t.handles[k] == task;
      } else {
        var k := ForwardKey(op.forward);
        assert k in t.handles && t.handles[k] == task;
      }
    }
  }

  /** Over every serial run from an empty live forwarder. */
  lemma {:induction false} HandleIffBound(run: seq<Op>)
    requires forall n :: 0 <= n < |run| ==> Live(run[n])
    ensures Sound(After(run))
  {
    if run == [] {
    } else {
      HandleIffBound(run[..|run| - 1]);
      StepKeepsSound(After(run[..|run| - 1]), run[|run| - 1]);
    }
  }

  /** Readiness holds exactly if some handle is registered. */
  lemma ReadyExactly(run: seq<Op>)
    requires forall n :: 0 <= n < |run| ==> Live(run[n])
    ensures Ready(After(run)) <==> After(run).handles != map[]
  {
    HandleIffBound(run);
    var s := After(run);
    if s.handles != map[] {
      var k :| k in s.handles;
      assert k in s.rows && s.rows[k].bound;
    }
  }

  predicate Concerns(op: Op, key: string) {
    !op.TaskEnds? && ForwardKey(op.forward) == key
  }

  /** Whether a key is served, told by its operations alone: the last one on it was an add
      that answered Ok. */
  predicate Served(run: seq<Op>, key: string) {
    run != [] &&
    var n := |run| - 1;
    if Concerns(run[n], key) then run[n].Add? && Answer(run, n) else Served(run[..n], key)
  }

  /** A key has a handle exactly if the last operation on it was an add that answered Ok,
      whatever happened to other keys in between. */
  lemma {:induction false} ServedExactly(run: seq<Op>, key: string)
    requires forall n :: 0 <= n < |run| ==> Live(run[n])
    ensures key in After(run).handles <==> Served(run, key)
  {
    if run == [] {
    } else {
      ServedExactly(run[..|run| - 1], key);
    }
  }

  /** Did the task end by itself after it was spawned? */
  ghost predicate Ended(run: seq<Op>, task: nat) {
    exists n :: 0 <= n < |run| && run[n] == TaskEnds(task) && task < After(run[..n]).spawned
  }

  lemma EndedUpTo(run: seq<Op>, task: nat)
    requires run != []
    ensures var n := |run| - 1;
      Ended(run, task) <==> Ended(run[..n], task) || (run[n] == TaskEnds(task) && task < After(run[..n]).spawned)
  {
    hide After;
    var n := |run| - 1;
    forall i | 0 <= i < n ensures run[..n][..i] == run[..i] {}
    if Ended(run[..n], task) {
      var i :| 0 <= i < n && run[..n][i] == TaskEnds(task) && task < After(run[..n][..i]).spawned;
      assert run[i] == TaskEnds(task);
    }
    if Ended(run, task) {
      var i :| 0 <= i <= n && run[i] == TaskEnds(task) && task < After(run[..i]).spawned;
      assert i < n ==> run[..n][i] == TaskEnds(task);
    }
  }

  /** A handle's task is running exactly if it did not end by itself.  The table does not say
      which: the handle and the bound row are there in both cases. */
  lemma {:induction false} RunsUnlessEnded(run: seq<Op>, key: string)
    requires (forall n :: 0 <= n < |run| ==> Live(run[n])) && key in After(run).handles
    ensures var task := After(run).handles[key]; task in After(run).running <==> !Ended(run, task)
  {
    var n := |run| - 1;
    var s, op := After(run[..n]), run[n];
    var task := After(run).handles[key];
    HandleIffBound(run[..n]);
    EndedUpTo(run, task);
    hide After, Ended, ForwardKey;
    if key in s.handles && s.handles[key] == task {
      RunsUnlessEnded(run[..n], key);
      if op.Remove? && ForwardKey(op.forward) in s.handles {
        assert s.handles[ForwardKey(op.forward)] != task;
      }
    } else {
      NotEndedYet(run[..n], s.spawned);
    }
  }

  /** A task that is not spawned yet has not ended. */
  lemma {:induction false} NotEndedYet(run: seq<Op>, task: nat)
    requires task >= After(run).spawned
    ensures !Ended(run, task)
  {
    if run == [] {
    } else {
      EndedUpTo(run, task);
      NotEndedYet(run[..|run| - 1], task);
    }
  }

  /** A key whose task ended: adding it answers Ok and changes nothing, so that nothing serves
      it, and its row says bound, until it is removed. */
  lemma {:induction false} DeadUntilRemoved(s: Table, later: seq<Op>, key: string)
    requires Sound(s) && key in s.handles && s.handles[key] !in s.running
    requires forall n :: 0 <= n < |later| ==> Live(later[n]) && !(later[n].Remove? && Concerns(later[n], key))
    ensures var t := Then(s, later);
      key in t.handles && t.handles[key] == s.handles[key] && t.handles[key] !in t.running &&
      key in t.rows && t.rows[key].bound
    ensures forall f, binding, actual :: ForwardKey(f) == key ==>
      Step(Then(s, later), Add(f, binding, actual)) == (true, Then(s, later))
    decreases |later|
  {
    if later == [] {
    } else {
      var op := later[0];
      StepKeepsSound(s, op);
      hide ForwardKey;
      DeadUntilRemoved(Step(s, op).1, later[1..], key);
    }
  }

  /** The table after more operations. */
  function Then(s: Table, later: seq<Op>): Table
    decreases |later|
  {
    if later == [] then s else Then(Step(s, later[0]).1, later[1..])
  }

  /** It can happen: after one add whose task ended the forwarder is ready and serves nothing. */
  lemma ReadyWithoutServing(f: Forward, socket: nat, actual: string)
    ensures var t := After([Add(f, Listening(socket), actual), TaskEnds(0)]);
      Ready(t) && ForwardKey(f) in t.handles && t.running == {}
  {
    var add, end := Add(f, Listening(socket), actual), TaskEnds(0);
    assert [add, end][..1] == [add] && [add][..0] == [];
    var s := Step(Empty(), add).1;
    assert After([add]) == s;
    var t := Step(s, end).1;
    assert After([add, end]) == t;
    assert ForwardKey(f) in t.rows && t.rows[ForwardKey(f)].bound;
  }

  /** An operation on one key leaves the row, the handle and the task of every other. */
  lemma TouchesOnlyItsKey(s: Table, op: Op, key: string)
    requires Sound(s) && Live(op) && !op.TaskEnds? && !Concerns(op, key)
    ensures var t := Step(s, op).1;
      (key in t.rows <==> key in s.rows) && (key in s.rows ==> t.rows[key] == s.rows[key]) &&
      (key in t.handles <==> key in s.handles) &&
      (key in s.handles ==>
        t.handles[key] == s.handles[key] && (s.handles[key] in t.running <==> s.handles[key] in s.running))
  {
    var k := ForwardKey(op.forward);
    if op.Remove? && k in s.handles && key in s.handles {
      assert s.handles[k] != s.handles[key];
    }
  }

  /** Adding a served forward again changes nothing, not even to another destination. */
  lemma ReAddIsNoOp(s: Table, f: Forward, g: Forward, binding: Result, actual: string)
    requires ForwardKey(f) in s.handles && f.proto == g.proto && f.listenAddr == g.listenAddr
    ensures Step(s, Add(g, binding, actual)) == (true, s)
  {
    KeyIsPlace(f, g);
  }

  /** The row of a key is that of an add of its place: with its destination, and either bound
      at the address the socket got or unbound at the address asked for, with the failure. */
  predicate RowOf(row: Row, op: Op) {
    op.Add? && row.proto == op.forward.proto && row.destAddr == op.forward.destAddr &&
    row.bound == op.binding.Listening? && row.failure == op.binding &&
    row.listenAddr == if row.bound then op.actual else op.forward.listenAddr
  }

  /** Every row of a live run is that of an add of its key. */
  lemma {:induction false} RowsComeFromAdds(run: seq<Op>, key: string)
    requires (forall n :: 0 <= n < |run| ==> Live(run[n])) && key in After(run).rows
    ensures exists n :: 0 <= n < |run| && Concerns(run[n], key) && RowOf(After(run).rows[key], run[n])
  {
    var m := |run| - 1;
    var s, t := After(run[..m]), After(run);
    if key in s.rows && t.rows[key] == s.rows[key] {
      RowsComeFromAdds(run[..m], key);
      var n :| 0 <= n < m && Concerns(run[..m][n], key) && RowOf(s.rows[key], run[..m][n]);
      assert run[n] == run[..m][n];
    } else {
      assert Concerns(run[m], key) && RowOf(t.rows[key], run[m]);
    }
  }

  /** Removing what was just added restores the table, but for the row of a failed add
      before it and the numbering of tasks. */
  lemma RemoveUndoesAdd(s: Table, f: Forward, binding: Result, actual: string)
    requires Sound(s) && ForwardKey(f) !in s.handles && binding.Listening?
    ensures var t := Step(Step(s, Add(f, binding, actual)).1, Remove(f));
      t.0 && t.1 == s.(rows := s.rows - {ForwardKey(f)}, spawned := s.spawned + 1)
  {
    var k := ForwardKey(f);
    var t := Step(Step(s, Add(f, binding, actual)).1, Remove(f)).1;
    assert t.rows == s.rows - {k};
    assert t.handles == s.handles;
    assert t.running == s.running;
  }

  /** The row of a failed add cannot be removed. */
  lemma FailedRowStays(s: Table, f: Forward)
    requires Sound(s) && ForwardKey(f) in s.rows && !s.rows[ForwardKey(f)].bound
    ensures Step(s, Remove(f)) == (false, s)
  {
  }

  // ---------- statically bound forwards ----------

  /** A static binding does no harm exactly if it fails at a place that is not served: one
      that succeeds has a bound row and a running task without a handle, and one that fails at
      a served place marks its row unbound although its task still runs. */
  lemma StaticBindExactly(s: Table, f: Forward, binding: Result, actual: string)
    requires Sound(s)
    ensures Sound(Step(s, BindStatic(f, binding, actual)).1) <==> !binding.Listening? && ForwardKey(f) !in s.handles
  {
    hide ForwardKey;
    var t := Step(s, BindStatic(f, binding, actual)).1;
    var k := ForwardKey(f);
    if binding.Listening? {
      if k in s.handles {
        NoHandleFor(s, t);
      } else {
        assert k in t.rows && t.rows[k].bound && k !in t.handles;
      }
    } else if k in s.handles {
      assert k in t.handles && !t.rows[k].bound;
    } else {
      assert forall task :: task in t.running ==> task in s.running;
    }
  }

  /** A task spawned without a handle is held by none. */
  lemma NoHandleFor(s: Table, t: Table)
    requires Sound(s) && t.handles == s.handles && s.spawned in t.running
    ensures !Sound(t)
  {
  }

  /** The operation is live, or a static binding that does no harm. */
  predicate Harmless(s: Table, op: Op) {
    op.BindStatic? ==> !op.binding.Listening? && ForwardKey(op.forward) !in s.handles
  }

  /** The table stays sound throughout a run exactly if every static binding in it is harmless
      when it happens. */
  lemma SoundThroughoutExactly(run: seq<Op>)
    ensures (forall n :: 0 <= n <= |run| ==> Sound(After(run[..n]))) <==>
      (forall n :: 0 <= n < |run| ==> Harmless(After(run[..n]), run[n]))
  {
    hide Step, Sound;
    if forall n :: 0 <= n < |run| ==> Harmless(After(run[..n]), run[n]) {
      forall n | 0 <= n <= |run| ensures Sound(After(run[..n])) {
        HarmlessKeepsSound(run, n);
      }
    }
    if forall n :: 0 <= n <= |run| ==> Sound(After(run[..n])) {
      forall n | 0 <= n < |run| ensures Harmless(After(run[..n]), run[n]) {
        assert run[..n + 1][..n] == run[..n];
        assert Sound(After(run[..n])) && Sound(After(run[..n + 1]));
        StepSoundExactly(After(run[..n]), run[n]);
      }
    }
  }

  lemma {:induction false} HarmlessKeepsSound(run: seq<Op>, n: nat)
    requires n <= |run| && forall i :: 0 <= i < n ==> Harmless(After(run[..i]), run[i])
    ensures Sound(After(run[..n]))
  {
    hide Step;
    if n == 0 {
      EmptyIsSound();
    } else {
      HarmlessKeepsSound(run, n - 1);
      assert run[..n][..n - 1] == run[..n - 1];
      hide Sound;
      StepSoundExactly(After(run[..n - 1]), run[n - 1]);
    }
  }

  lemma EmptyIsSound()
    ensures Sound(Empty())
  {
  }

  lemma StepSoundExactly(s: Table, op: Op)
    requires Sound(s)
    ensures Sound(Step(s, op).1) <==> Harmless(s, op)
  {
    hide Step, Sound;
    match op
    case BindStatic(f, binding, actual) => StaticBindExactly(s, f, binding, actual);
    case _ => StepKeepsSound(s, op);
  }

  /** A run of that kind: a place bound statically and added again, which the system refuses,
      is marked unbound while its task runs. */
  lemma StaticRowsHaveNoHandle(f: Forward, socket: nat, error: nat, actual: string)
    ensures var run := [BindStatic(f, Listening(socket), actual), Add(f, NonTransient(error), actual)];
      !Sound(After(run[..1])) && !After(run).rows[ForwardKey(f)].bound && After(run).running == {0}
  {
    var bind, add := BindStatic(f, Listening(socket), actual), Add(f, NonTransient(error), actual);
    var run := [bind, add];
    assert run[..1] == [bind] && [bind][..0] == [];
    var s := Step(Empty(), bind).1;
    assert After([bind]) == s;
    assert s.rows[ForwardKey(f)].bound && ForwardKey(f) !in s.handles;
    assert After(run) == Step(s, add).1;
  }
}
