/** A connection counter shared by any number of tasks.  Each task adds one when its
    connection opens and takes one off when it ends; the decrement reads the counter first
    and subtracts only if it read more than zero, and other tasks may come in between. */
module Counters {

  /** What a task has done to the counter: added its one, read the counter on its way out,
      or finished (having subtracted or, on a reading of zero or less, not). */
  datatype Phase = Counted | HasRead(seen: int) | Finished

  datatype State = State(count: int, tasks: seq<Phase>)

  /** Tasks are numbered in the order in which they add. */
  datatype Event = Add | Read(id: nat) | Finish(id: nat)

  predicate Enabled(s: State, e: Event) {
    match e
    case Add => true
    case Read(id) => id < |s.tasks| && s.tasks[id].Counted?
    case Finish(id) => id < |s.tasks| && s.tasks[id].HasRead?
  }

  /** One step; a step that is not enabled leaves the state as it is. */
  function Next(s: State, e: Event): State {
    if !Enabled(s, e) then s
    else
      match e
      case Add => State(s.count + 1, s.tasks + [Counted])
      case Read(id) => s.(tasks := s.tasks[id := HasRead(s.count)])
      case Finish(id) =>
        State(if s.tasks[id].seen > 0 then s.count - 1 else s.count, s.tasks[id := Finished])
  }

  function After(run: seq<Event>): State {
    if run == [] then State(0, []) else Next(After(run[..|run| - 1]), run[|run| - 1])
  }

  /** The tasks that have added and not finished. */
  function Open(tasks: seq<Phase>): nat {
    if tasks == [] then 0
    else Open(tasks[..|tasks| - 1]) + if tasks[|tasks| - 1].Finished? then 0 else 1
  }

  class Counter {
    var count: int
    var tasks: seq<Phase>

    constructor ()
      ensures Current() == After([])
    {
      count, tasks := 0, [];
    }

    function Current(): State
      reads this
    {
      State(count, tasks)
    }

    predicate Valid()
      reads this
    {
      Conserved(Current())
    }

    method Increment() returns (id: nat)
      requires Valid()
      modifies this
      ensures Valid() && Current() == Next(old(Current()), Add) && id == |old(tasks)|
    {
      NextConserves(Current(), Add);
      id := |tasks|;
      count := count + 1;
      tasks := tasks + [Counted];
    }

    /** The first half of a decrement. */
    method Load(id: nat)
      requires Valid() && Enabled(Current(), Read(id))
      modifies this
      ensures Valid() && Current() == Next(old(Current()), Read(id))
    {
      NextConserves(Current(), Read(id));
      tasks := tasks[id := HasRead(count)];
    }

    /** The second half: the guard never holds the subtraction back. */
    method Subtract(id: nat)
      requires Valid() && Enabled(Current(), Finish(id))
      modifies this
      ensures Valid() && Current() == Next(old(Current()), Finish(id)) && count == old(count) - 1
    {
      NextConserves(Current(), Finish(id));
      if tasks[id].seen > 0 {
        count := count - 1;
      }
      tasks := tasks[id := Finished];
    }
  }

  /** The counter is the number of open tasks, and every reading found more than zero. */
  predicate Conserved(s: State) {
    && s.count == Open(s.tasks)
    && forall id :: 0 <= id < |s.tasks| && s.tasks[id].HasRead? ==> s.tasks[id].seen > 0
  }

  lemma {:induction false} OpenUpdate(tasks: seq<Phase>, id: nat, p: Phase)
    requires id < |tasks| && !tasks[id].Finished?
    ensures Open(tasks) >= 1
    ensures Open(tasks[id := p]) == Open(tasks) - if p.Finished? then 1 else 0
  {
    var m := |tasks| - 1;
    if id < m {
      assert tasks[id := p][..m] == tasks[..m][id := p];
      OpenUpdate(tasks[..m], id, p);
    } else {
      assert tasks[id := p][..m] == tasks[..m];
    }
  }

  lemma NextConserves(s: State, e: Event)
    requires Conserved(s)
    ensures Conserved(Next(s, e))
  {
    var t := Next(s, e);
    if Enabled(s, e) {
      if e.Add? {
        assert t.tasks[..|s.tasks|] == s.tasks;
      } else {
        OpenUpdate(s.tasks, e.id, t.tasks[e.id]);
      }
      hide Open;
      forall id | 0 <= id < |t.tasks| && t.tasks[id].HasRead? ensures t.tasks[id].seen > 0 {
        if id < |s.tasks| && t.tasks[id] == s.tasks[id] {
          assert s.tasks[id].seen > 0;
        }
      }
    }
  }

  /** In every interleaving the counter is the number of tasks that have added and not yet
      taken their one off; it is never negative. */
  lemma {:induction false} CountsOpenTasks(run: seq<Event>)
    ensures Conserved(After(run)) && After(run).count >= 0
  {
    if run == [] {
    } else {
      CountsOpenTasks(run[..|run| - 1]);
      NextConserves(After(run[..|run| - 1]), run[|run| - 1]);
    }
  }

  /** In every interleaving the guard lets every decrement through. */
  lemma GuardNeverSuppresses(run: seq<Event>, id: nat)
    requires Enabled(After(run), Finish(id))
    ensures Next(After(run), Finish(id)).count == After(run).count - 1 >= 0
  {
    CountsOpenTasks(run);
    NextConserves(After(run), Finish(id));
  }

  /** When every task has finished the counter is back at zero. */
  lemma {:induction false} DrainsToZero(run: seq<Event>)
    requires forall id :: 0 <= id < |After(run).tasks| ==> After(run).tasks[id].Finished?
    ensures After(run).count == 0
  {
    CountsOpenTasks(run);
    NoneOpen(After(run).tasks);
  }

  lemma {:induction false} NoneOpen(tasks: seq<Phase>)
    requires forall id :: 0 <= id < |tasks| ==> tasks[id].Finished?
    ensures Open(tasks) == 0
  {
    if tasks == [] {
    } else {
      NoneOpen(tasks[..|tasks| - 1]);
    }
  }
}
