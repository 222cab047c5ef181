/** The scheduler as the kernel runs it on one CPU at a time: an intrusive linked run queue, task
    fields and per-CPU slots updated in place, with the lock held throughout each queue operation. */
module Scheduler {
  import opened Bits
  import opened RunQueueSteps
  import opened SchedulerModel

  lemma Ends(q: seq<nat>, t: nat)
    ensures Last(q).Null? <==> q == []
    ensures q != [] ==> Last(q) == To(q[|q| - 1])
    ensures First(q + [t]) == if q == [] then To(t) else First(q)
    ensures Last(q + [t]) == To(t)
  {
  }

  lemma FirstNull(q: seq<nat>)
    ensures First(q).Null? <==> q == []
    ensures q != [] ==> First(q) == To(q[0])
  {
  }

  lemma ChainInRange(next: seq<Ptr>, q: seq<nat>)
    requires Chain(next, q)
    ensures forall k :: 0 <= k < |q| ==> q[k] < |next|
  {
  }

  /** What taking the first entry off the list leaves. */
  lemma Unlink(next: seq<Ptr>, q: seq<nat>)
    requires q != [] && Chain(next, q) && Distinct(q)
    ensures q[0] < |next| && next[q[0]] == First(q[1..])
    ensures Chain(next[q[0] := Null], q[1..]) && Distinct(q[1..])
    ensures Last(q[1..]) == if First(q[1..]).Null? then Null else Last(q)
    ensures forall k :: 0 <= k < |q[1..]| ==> q[1..][k] < |next|
  {
    hide Chain, Distinct;
    ChainInRange(next, q);
    ChainTail(next, q);
    DropFirst(q);
    ChainFrame(next, q[1..], q[0]);
  }

  class TaskScheduler {
    var head: Ptr
    var tail: Ptr
    var count: nat
    const next: array<Ptr>
    const state: array<TaskState>
    const current: array<Ptr>
    const idle: seq<nat>
    ghost var queue: seq<nat>
    ghost var spawned: set<nat>

    ghost predicate Valid()
      reads this, next, state, current
    {
      && next != current && next.Length == state.Length
      && Chain(next[..], queue) && head == First(queue) && tail == Last(queue)
      && count == |queue| % U32
      && Distinct(queue)
      && SchedOk(Contents())
    }

    ghost function Contents(): (s: Sched)
      reads this, state, current
    {
      Sched(queue, current[..], idle, state[..], spawned)
    }

    constructor (tasks: nat, idleTasks: seq<nat>)
      requires forall c :: 0 <= c < |idleTasks| ==> idleTasks[c] < tasks
      ensures Valid() && Contents() == Boot(idleTasks, tasks)
    {
      head, tail, count := Null, Null, 0;
      next := new Ptr[tasks](_ => Null);
      state := new TaskState[tasks](_ => READY);
      current := new Ptr[|idleTasks|](_ => Null);
      idle := idleTasks;
      queue, spawned := [], {};
    }

    method Enqueue(t: nat)
      requires Valid() && t < state.Length && t !in queue
      modifies this`head, this`tail, this`count, this`queue, next, state
      ensures Valid() && queue == old(queue) + [t]
      ensures state[..] == old(state[..])[t := READY] && current[..] == old(current[..])
    {
      hide SchedOk, Distinct, Chain, First, Last;
      Ends(queue, t);
      WrapSucc(|queue|);
      state[t] := READY;
      next[t] := Null;
      ChainFrame(old(next[..]), queue, t);
      assert next[..] == old(next[..])[t := Null];
      if tail.Null? {
        head := To(t);
        tail := To(t);
        SingleChain(next[..], t);
        assert queue + [t] == [t];
      } else {
        LastInRange(next[..], queue);
        LinkAtEnd(next[..], queue, t);
        ghost var before := next[..];
        next[tail.task] := To(t);
        assert next[..] == before[tail.task := To(t)];
        tail := To(t);
      }
      count := (count + 1) % U32;
      AppendDistinct(queue, t);
      queue := queue + [t];
      StillOk(old(Contents()), Contents());
    }

    method Dequeue() returns (r: Ptr)
      requires Valid()
      modifies this`head, this`tail, this`count, this`queue, next
      ensures Valid() && r == First(old(queue))
      ensures queue == if old(queue) == [] then [] else old(queue)[1..]
      ensures state[..] == old(state[..]) && current[..] == old(current[..])
    {
      hide SchedOk, Distinct, Chain, First, Last;
      r := head;
      FirstNull(queue);
      if r.To? {
        ghost var before := next[..];
        Unlink(before, queue);
        WrapSucc(|queue| - 1);
        head := next[r.task];
        if head.Null? {
          tail := Null;
        }
        count := (count - 1) % U32;
        next[r.task] := Null;
        assert next[..] == before[r.task := Null];
        queue := queue[1..];
        StillOk(old(Contents()), Contents());
      }
    }

    method YieldTask(c: nat)
      requires Valid() && c < current.Length
      requires current[c].To? ==> current[c].task !in queue
      modifies this`head, this`tail, this`count, this`queue, next, state, current
      ensures Valid() && Contents() == Yield(old(Contents()), c)
    {
      hide Distinct, Chain;
      var prev := current[c];
      var pick := Dequeue();
      if pick.Null? {
        if prev.To? && state[prev.task] == RUNNING {
          return;
        }
        pick := To(idle[c]);
      }
      if prev.To? && state[prev.task] == RUNNING {
        Enqueue(prev.task);
      }
      assert pick.task < state.Length;
      state[pick.task] := RUNNING;
      current[c] := pick;
    }

    method TaskExit(c: nat)
      requires Valid() && c < current.Length && current[c].To? && current[c].task !in queue
      modifies this`head, this`tail, this`count, this`queue, next, state, current
      ensures Valid() && Contents() == Exit(old(Contents()), c)
    {
      state[current[c].task] := DEAD;
      YieldTask(c);
    }

    /** `task_create` followed by `scheduler_enqueue`. */
    method SpawnTask(t: nat)
      requires Valid() && t < state.Length && t !in queue
      modifies this`head, this`tail, this`count, this`queue, this`spawned, next, state
      ensures Valid() && Contents() == Spawn(old(Contents()), t)
    {
      hide Chain, Distinct, First, Last;
      Enqueue(t);
      spawned := spawned + {t};
    }

    /** The entry of `cpu_enter_worker`. */
    method EnterLoop(c: nat)
      requires Valid() && c < current.Length
      modifies current
      ensures Valid() && Contents() == EnterWorker(old(Contents()), c)
    {
      hide Chain, Distinct, First, Last;
      current[c] := To(idle[c]);
    }

    /** One turn of the worker loop. */
    method WorkerTurn(c: nat)
      requires Valid() && c < current.Length
      modifies this`head, this`tail, this`count, this`queue, next, state, current
      ensures Valid() && Contents() == Worker(old(Contents()), c)
    {
      hide Chain, Distinct, First, Last;
      FirstNull(queue);
      var task := Dequeue();
      if task.To? {
        state[task.task] := RUNNING;
        current[c] := task;
      }
    }
  }

  lemma SingleChain(next: seq<Ptr>, t: nat)
    requires t < |next| && next[t] == Null
    ensures Chain(next, [t])
  {
  }

  lemma LastInRange(next: seq<Ptr>, q: seq<nat>)
    requires q != [] && Chain(next, q)
    ensures q[|q| - 1] < |next|
  {
  }

  /** The scheduler state stays in range when queue and states change within it. */
  lemma StillOk(s: Sched, s': Sched)
    requires SchedOk(s) && |s'.state| == |s.state| && s'.current == s.current && s'.idle == s.idle && s'.spawned == s.spawned
    requires forall k :: 0 <= k < |s'.queue| ==> s'.queue[k] < |s.state|
    ensures SchedOk(s')
  {
  }
}
