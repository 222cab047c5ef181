/** Scheduling decisions over the FIFO run queue: which task each CPU runs after a yield, a timer tick,
    an exit or a turn of the worker loop.  A yield and the context switch it ends with are one step. */
module SchedulerModel {
  import opened Options
  import opened RunQueueSteps

  /** `spawned` holds the tasks ever handed to the run queue; idle tasks are never spawned. */
  datatype Sched = Sched(queue: seq<nat>, current: seq<Ptr>, idle: seq<nat>, state: seq<TaskState>, spawned: set<nat>)

  predicate SchedOk(s: Sched) {
    && |s.current| == |s.idle|
    && (forall c :: 0 <= c < |s.idle| ==> s.idle[c] < |s.state|)
    && (forall c :: 0 <= c < |s.current| && s.current[c].To? ==> s.current[c].task < |s.state|)
    && (forall k :: 0 <= k < |s.queue| ==> s.queue[k] < |s.state|)
    && (forall t :: t in s.spawned ==> t < |s.state|)
  }

  predicate IsRunning(s: Sched, p: Ptr)
    requires p.To? ==> p.task < |s.state|
  {
    p.To? && s.state[p.task] == RUNNING
  }

  /** `scheduler_yield` on CPU `c`, with the switch. */
  function Yield(s: Sched, c: nat): (s': Sched)
    requires SchedOk(s) && c < |s.current|
    ensures SchedOk(s')
  {
    var prev := s.current[c];
    if s.queue == [] && IsRunning(s, prev) then s
    else
      var next := if s.queue == [] then s.idle[c] else s.queue[0];
      var rest := if s.queue == [] then [] else s.queue[1..];
      var s1 := if IsRunning(s, prev)
                then s.(queue := rest + [prev.task], state := s.state[prev.task := READY])
                else s.(queue := rest);
      s1.(state := s1.state[next := RUNNING], current := s.current[c := To(next)])
  }

  /** `task_exit` on CPU `c`. */
  function Exit(s: Sched, c: nat): (s': Sched)
    requires SchedOk(s) && c < |s.current| && s.current[c].To?
    ensures SchedOk(s')
  {
    Yield(s.(state := s.state[s.current[c].task := DEAD]), c)
  }

  /** `task_create` followed by `scheduler_enqueue`. */
  function Spawn(s: Sched, t: nat): (s': Sched)
    requires SchedOk(s) && t < |s.state|
    ensures SchedOk(s')
  {
    s.(queue := s.queue + [t], state := s.state[t := READY], spawned := s.spawned + {t})
  }

  /** One turn of the loop in `cpu_enter_worker`. */
  function Worker(s: Sched, c: nat): (s': Sched)
    requires SchedOk(s) && c < |s.current|
    ensures SchedOk(s')
  {
    if s.queue == [] then s
    else s.(queue := s.queue[1..], state := s.state[s.queue[0] := RUNNING], current := s.current[c := To(s.queue[0])])
  }

  function EnterWorker(s: Sched, c: nat): (s': Sched)
    requires SchedOk(s) && c < |s.current|
    ensures SchedOk(s')
  {
    s.(current := s.current[c := To(s.idle[c])])
  }

  datatype Action =
    | DoYield(cpu: nat) | DoExit(cpu: nat) | DoWorker(cpu: nat) | DoEnterWorker(cpu: nat) | DoSpawn(task: nat)

  predicate OnIdle(s: Sched, c: nat)
    requires SchedOk(s) && c < |s.current|
  {
    s.current[c] == To(s.idle[c])
  }

  /** When control can be at each entry point: the worker loop runs on the idle task, idle tasks do not
      exit, and a task is spawned once. */
  predicate Possible(s: Sched, a: Action)
    requires SchedOk(s)
  {
    match a
    case DoYield(c) => c < |s.current|
    case DoExit(c) => c < |s.current| && s.current[c].To? && !OnIdle(s, c)
    case DoWorker(c) => c < |s.current| && OnIdle(s, c)
    case DoEnterWorker(c) => c < |s.current| && (s.current[c].Null? || OnIdle(s, c))
    case DoSpawn(t) => t < |s.state| && t !in s.spawned && t !in s.idle
  }

  function Act(s: Sched, a: Action): (s': Sched)
    requires SchedOk(s) && Possible(s, a)
    ensures SchedOk(s')
  {
    match a
    case DoYield(c) => Yield(s, c)
    case DoExit(c) => Exit(s, c)
    case DoWorker(c) => Worker(s, c)
    case DoEnterWorker(c) => EnterWorker(s, c)
    case DoSpawn(t) => Spawn(s, t)
  }

  // ----- every task in exactly one place -----------------------------------

  predicate Somewhere(s: Sched, t: nat) {
    t in s.queue || To(t) in s.current
  }

  predicate IdlesApart(s: Sched) {
    && (forall c, d :: 0 <= c < d < |s.idle| ==> s.idle[c] != s.idle[d])
    && (forall c :: 0 <= c < |s.idle| ==> s.idle[c] !in s.spawned)
  }

  /** Queued once and READY, or current on one CPU and RUNNING, or dead and nowhere. */
  predicate Placed(s: Sched)
    requires SchedOk(s)
  {
    && Distinct(s.queue)
    && (forall k :: 0 <= k < |s.queue| ==> s.state[s.queue[k]] == READY && To(s.queue[k]) !in s.current)
    && (forall c, d :: 0 <= c < d < |s.current| && s.current[c].To? ==> s.current[c] != s.current[d])
    && (forall c :: 0 <= c < |s.current| && s.current[c].To? && s.current[c].task in s.spawned ==>
          s.state[s.current[c].task] == RUNNING)
    && (forall t :: t in s.spawned ==> (Somewhere(s, t) <==> s.state[t] != DEAD))
  }

  /** The invariant of many CPUs: in addition, idle tasks stay off the queue and on their own CPU. */
  predicate MultiInv(s: Sched) {
    && SchedOk(s) && IdlesApart(s) && Placed(s)
    && (forall k :: 0 <= k < |s.queue| ==> s.queue[k] in s.spawned)
    && (forall c :: 0 <= c < |s.current| && s.current[c].To? ==>
          s.current[c] == To(s.idle[c]) || s.current[c].task in s.spawned)
  }

  // ----- the parts of a yield ----------------------------------------------

  /** Taking the current entry off CPU `c`: onto the queue, or into the grave, or (idle) simply aside. */
  function Requeue(s: Sched, c: nat): (s': Sched)
    requires SchedOk(s) && c < |s.current| && s.current[c].To?
    ensures SchedOk(s')
  {
    var t := s.current[c].task;
    s.(queue := s.queue + [t], state := s.state[t := READY], current := s.current[c := Null])
  }

  function Bury(s: Sched, c: nat): (s': Sched)
    requires SchedOk(s) && c < |s.current| && s.current[c].To?
    ensures SchedOk(s')
  {
    s.(state := s.state[s.current[c].task := DEAD], current := s.current[c := Null])
  }

  function Park(s: Sched, c: nat): (s': Sched)
    requires SchedOk(s) && c < |s.current|
    ensures SchedOk(s')
  {
    s.(current := s.current[c := Null])
  }

  /** Putting the next task on a vacant CPU. */
  function Pick(s: Sched, c: nat): (s': Sched)
    requires SchedOk(s) && c < |s.current|
    ensures SchedOk(s')
  {
    if s.queue == [] then s.(state := s.state[s.idle[c] := RUNNING], current := s.current[c := To(s.idle[c])])
    else s.(queue := s.queue[1..], state := s.state[s.queue[0] := RUNNING], current := s.current[c := To(s.queue[0])])
  }

  lemma YieldParts(s: Sched, c: nat)
    requires SchedOk(s) && c < |s.current|
    ensures IsRunning(s, s.current[c]) && s.queue != [] ==> Yield(s, c) == Pick(Requeue(s, c), c)
    ensures !IsRunning(s, s.current[c]) ==> Yield(s, c) == Pick(Park(s, c), c)
  {
    var p := s.current[c];
    assert s.current[c := Null][c := Yield(s, c).current[c]] == s.current[c := Yield(s, c).current[c]];
    if IsRunning(s, p) && s.queue != [] {
      var q := s.queue + [p.task];
      assert q[0] == s.queue[0] && q[1..] == s.queue[1..] + [p.task];
    }
  }

  lemma ExitParts(s: Sched, c: nat)
    requires SchedOk(s) && c < |s.current| && s.current[c].To?
    ensures Exit(s, c) == Pick(Bury(s, c), c)
  {
    YieldParts(s.(state := s.state[s.current[c].task := DEAD]), c);
  }

  lemma WorkerParts(s: Sched, c: nat)
    requires SchedOk(s) && c < |s.current| && s.queue != []
    ensures Worker(s, c) == Pick(Park(s, c), c)
  {
    assert s.current[c := Null][c := To(s.queue[0])] == s.current[c := To(s.queue[0])];
  }

  // ----- many CPUs ---------------------------------------------------------

  /** Membership in `current` after an update, spelled out. */
  lemma CurrentAfter(s: Sched, c: nat, p: Ptr)
    requires c < |s.current|
    ensures forall x: Ptr :: x in s.current[c := p] ==> x == p || x in s.current
    ensures forall x: Ptr :: x in s.current && x != s.current[c] ==> x in s.current[c := p]
    ensures p in s.current[c := p]
  {
    var cur := s.current[c := p];
    forall x: Ptr | x in s.current && x != s.current[c]
      ensures x in cur
    {
      var d :| 0 <= d < |s.current| && s.current[d] == x;
      assert cur[d] == x;
    }
    assert cur[c] == p;
  }

  lemma Vacated(s: Sched, c: nat)
    requires SchedOk(s) && Placed(s) && c < |s.current| && s.current[c].To?
    ensures s.current[c] !in s.current[c := Null]
  {
  }

  lemma RequeueInv(s: Sched, c: nat)
    requires MultiInv(s) && c < |s.current| && s.current[c].To? && s.current[c].task in s.spawned
    ensures MultiInv(Requeue(s, c))
  {
    var t := s.current[c].task;
    CurrentAfter(s, c, Null);
    Vacated(s, c);
    assert t !in s.queue;
    var s' := Requeue(s, c);
    assert t in s'.queue;
  }

  lemma BuryInv(s: Sched, c: nat)
    requires MultiInv(s) && c < |s.current| && s.current[c].To? && s.current[c].task in s.spawned
    ensures MultiInv(Bury(s, c))
  {
    var t := s.current[c].task;
    CurrentAfter(s, c, Null);
    Vacated(s, c);
    assert t !in s.queue;
  }

  lemma ParkInv(s: Sched, c: nat)
    requires MultiInv(s) && c < |s.current| && (s.current[c].Null? || OnIdle(s, c))
    ensures MultiInv(Park(s, c))
  {
    CurrentAfter(s, c, Null);
  }

  lemma PickInv(s: Sched, c: nat)
    requires MultiInv(s) && c < |s.current| && s.current[c].Null?
    ensures MultiInv(Pick(s, c))
  {
    var s' := Pick(s, c);
    if s.queue == [] {
      CurrentAfter(s, c, To(s.idle[c]));
      assert To(s.idle[c]) !in s.current;
    } else {
      var t := s.queue[0];
      CurrentAfter(s, c, To(t));
      DropFirst(s.queue);
      assert s.queue == [t] + s.queue[1..];
    }
  }

  /** A tick that interrupts a RUNNING idle task while work is queued. */
  predicate IdleTick(s: Sched, a: Action)
    requires SchedOk(s) && Possible(s, a)
  {
    a.DoYield? && OnIdle(s, a.cpu) && IsRunning(s, s.current[a.cpu]) && s.queue != []
  }

  lemma ActInv(s: Sched, a: Action)
    requires MultiInv(s) && Possible(s, a) && !IdleTick(s, a)
    ensures MultiInv(Act(s, a))
  {
    match a
    case DoYield(c) =>
      hide Placed, Pick, Requeue, Park;
      YieldParts(s, c);
      if IsRunning(s, s.current[c]) {
        if s.queue != [] {
          RequeueInv(s, c);
          RequeueVacates(s, c);
          PickInv(Requeue(s, c), c);
        }
      } else {
        RunningUnlessIdle(s, c);
        ParkInv(s, c);
        ParkVacates(s, c);
        PickInv(Park(s, c), c);
      }
    case DoExit(c) =>
      hide Placed, Pick, Bury;
      ExitParts(s, c);
      BuryInv(s, c);
      BuryVacates(s, c);
      PickInv(Bury(s, c), c);
    case DoWorker(c) =>
      hide Placed, Pick, Park;
      if s.queue != [] {
        WorkerParts(s, c);
        ParkInv(s, c);
        ParkVacates(s, c);
        PickInv(Park(s, c), c);
      }
    case DoEnterWorker(c) =>
      EnterInv(s, c);
    case DoSpawn(t) =>
      SpawnInv(s, t);
  }

  lemma RequeueVacates(s: Sched, c: nat)
    requires SchedOk(s) && c < |s.current| && s.current[c].To?
    ensures Requeue(s, c).current[c].Null? && |Requeue(s, c).current| == |s.current|
  {
  }

  lemma BuryVacates(s: Sched, c: nat)
    requires SchedOk(s) && c < |s.current| && s.current[c].To?
    ensures Bury(s, c).current[c].Null? && |Bury(s, c).current| == |s.current|
  {
  }

  lemma ParkVacates(s: Sched, c: nat)
    requires SchedOk(s) && c < |s.current|
    ensures Park(s, c).current[c].Null? && |Park(s, c).current| == |s.current|
  {
  }

  lemma RunningUnlessIdle(s: Sched, c: nat)
    requires MultiInv(s) && c < |s.current| && !IsRunning(s, s.current[c])
    ensures s.current[c].Null? || OnIdle(s, c)
  {
  }

  lemma EnterInv(s: Sched, c: nat)
    requires MultiInv(s) && c < |s.current| && (s.current[c].Null? || OnIdle(s, c))
    ensures MultiInv(EnterWorker(s, c))
  {
    CurrentAfter(s, c, To(s.idle[c]));
  }

  lemma SpawnInv(s: Sched, t: nat)
    requires MultiInv(s) && t < |s.state| && t !in s.spawned && t !in s.idle
    ensures MultiInv(Spawn(s, t))
  {
    var s' := Spawn(s, t);
    assert t !in s.queue;
    assert To(t) !in s.current by {
      assert forall c :: 0 <= c < |s.current| && s.current[c] == To(t) ==> t == s.idle[c] || t in s.spawned;
    }
    assert t in s'.queue;
  }

  /** A yield keeps every task in one place exactly when it does not enqueue an idle task. */
  lemma YieldExact(s: Sched, c: nat)
    requires MultiInv(s) && c < |s.current|
    ensures MultiInv(Yield(s, c)) <==> !IdleTick(s, DoYield(c))
  {
    if IdleTick(s, DoYield(c)) {
      var s' := Yield(s, c);
      assert s'.queue[|s'.queue| - 1] == s.idle[c];
    } else {
      ActInv(s, DoYield(c));
    }
  }

  /** A dead task never comes back. */
  lemma DeadStaysDead(s: Sched, a: Action, t: nat)
    requires MultiInv(s) && Possible(s, a) && t in s.spawned && s.state[t] == DEAD
    ensures Act(s, a).state[t] == DEAD && t in Act(s, a).spawned
  {
    assert !Somewhere(s, t);
    if s.queue != [] {
      assert s.queue[0] in s.queue;
    }
    if !a.DoSpawn? {
      assert s.current[a.cpu] in s.current;
    }
  }

  // ----- runs of many CPUs -------------------------------------------------

  function Boot(idle: seq<nat>, tasks: nat): (s: Sched)
  {
    Sched([], seq(|idle|, _ => Null), idle, seq(tasks, _ => READY), {})
  }

  /** A run in which no tick interrupts a RUNNING idle task while work is queued. */
  predicate GoodRun(s: Sched, run: seq<Action>, s': Sched)
    requires SchedOk(s)
    decreases |run|
  {
    if run == [] then s == s'
    else Possible(s, run[0]) && !IdleTick(s, run[0]) && GoodRun(Act(s, run[0]), run[1..], s')
  }

  /** In every such run of any number of CPUs each spawned task is queued once and READY, or current on
      one CPU and RUNNING, or dead; dead tasks stay dead, and idle tasks are never queued. */
  lemma {:induction false} TaskConservation(s: Sched, run: seq<Action>, s': Sched)
    requires MultiInv(s) && GoodRun(s, run, s')
    ensures MultiInv(s')
    ensures s.spawned <= s'.spawned
    ensures forall t :: t in s.spawned && s.state[t] == DEAD ==> s'.state[t] == DEAD && !Somewhere(s', t)
    decreases |run|
  {
    hide Act, Possible, IdleTick, Placed;
    if run == [] {
      DeadNowhere(s);
    } else {
      var a := run[0];
      var s1 := Act(s, a);
      ActInv(s, a);
      SpawnedGrows(s, a);
      TaskConservation(s1, run[1..], s');
      forall t | t in s.spawned && s.state[t] == DEAD
        ensures s'.state[t] == DEAD && !Somewhere(s', t)
      {
        DeadStaysDead(s, a, t);
      }
    }
  }

  lemma DeadNowhere(s: Sched)
    requires MultiInv(s)
    ensures forall t :: t in s.spawned && s.state[t] == DEAD ==> !Somewhere(s, t)
  {
  }

  lemma SpawnedGrows(s: Sched, a: Action)
    requires SchedOk(s) && Possible(s, a)
    ensures s.spawned <= Act(s, a).spawned
  {
  }

  lemma BootInv(idle: seq<nat>, tasks: nat)
    requires Distinct(idle) && forall c :: 0 <= c < |idle| ==> idle[c] < tasks
    ensures MultiInv(Boot(idle, tasks))
  {
  }

  /** So from boot, and with nothing about the initial state left to check. */
  lemma BootConservation(idle: seq<nat>, tasks: nat, run: seq<Action>, s: Sched)
    requires Distinct(idle) && forall c :: 0 <= c < |idle| ==> idle[c] < tasks
    requires GoodRun(Boot(idle, tasks), run, s)
    ensures MultiInv(s) && !SharesTask(s)
  {
    BootInv(idle, tasks);
    TaskConservation(Boot(idle, tasks), run, s);
  }

  /** One task is current on two CPUs. */
  ghost predicate SharesTask(s: Sched) {
    exists c, d :: 0 <= c < d < |s.current| && s.current[c].To? && s.current[c] == s.current[d]
  }

  // ----- what an idle tick does --------------------------------------------

  function ActAll(s: Sched, run: seq<Action>): (r: Option<Sched>)
    requires SchedOk(s)
    ensures r.Some? ==> SchedOk(r.value)
    decreases |run|
  {
    if run == [] then Some(s)
    else if !Possible(s, run[0]) then None
    else ActAll(Act(s, run[0]), run[1..])
  }

  lemma ActAllCons(s: Sched, a: Action, rest: seq<Action>)
    requires SchedOk(s) && Possible(s, a)
    ensures ActAll(s, [a] + rest) == ActAll(Act(s, a), rest)
  {
    assert ([a] + rest)[1..] == rest;
  }

  lemma {:induction false} ActAllAppend(s: Sched, a: seq<Action>, b: seq<Action>)
    requires SchedOk(s) && ActAll(s, a).Some?
    ensures ActAll(s, a + b) == ActAll(ActAll(s, a).value, b)
    decreases |a|
  {
    if a == [] {
      assert a + b == b;
    } else {
      assert (a + b)[1..] == a[1..] + b;
      ActAllAppend(Act(s, a[0]), a[1..], b);
    }
  }

  lemma ActAllSnoc(s: Sched, run: seq<Action>, s1: Sched, a: Action)
    requires SchedOk(s) && ActAll(s, run) == Some(s1) && Possible(s1, a)
    ensures ActAll(s, run + [a]) == Some(Act(s1, a))
  {
    ActAllAppend(s, run, [a]);
    ActAllCons(s1, a, []);
    assert [a] + [] == [a];
    NoActions(Act(s1, a));
  }

  /** Both CPUs are in their worker loops and nothing is queued. */
  predicate Looping(s: Sched, t: nat) {
    && SchedOk(s) && |s.current| >= 2 && s.queue == [] && OnIdle(s, 0) && OnIdle(s, 1)
    && t < |s.state| && t !in s.idle && t !in s.spawned
    && s.state[s.idle[0]] == READY && s.idle[0] != s.idle[1]
  }

  lemma ReachLooping(idle: seq<nat>, tasks: nat, t: nat) returns (run: seq<Action>, s: Sched)
    requires |idle| >= 2 && Distinct(idle) && (forall c :: 0 <= c < |idle| ==> idle[c] < tasks) && t < tasks && t !in idle
    ensures SchedOk(Boot(idle, tasks)) && ActAll(Boot(idle, tasks), run) == Some(s) && Looping(s, t)
  {
    hide ActAll;
    var s0 := Boot(idle, tasks);
    NoActions(s0);
    ActAllSnoc(s0, [], s0, DoEnterWorker(0));
    var s1 := Act(s0, DoEnterWorker(0));
    ActAllSnoc(s0, [] + [DoEnterWorker(0)], s1, DoEnterWorker(1));
    run := [] + [DoEnterWorker(0)] + [DoEnterWorker(1)];
    s := Act(s1, DoEnterWorker(1));
  }

  /** A yield makes CPU 0's idle task RUNNING; the next, with work queued, enqueues it. */
  lemma IdleEnqueued(s: Sched, t: nat) returns (run: seq<Action>, s': Sched)
    requires Looping(s, t)
    ensures ActAll(s, run) == Some(s') && s'.queue == [s.idle[0]] && s'.idle == s.idle
    ensures |s'.current| == |s.current| && s'.current[0] == To(t) && OnIdle(s', 1)
  {
    hide ActAll;
    var s1 := Act(s, DoYield(0));
    NoActions(s);
    ActAllSnoc(s, [], s, DoYield(0));
    var s2 := Act(s1, DoSpawn(t));
    ActAllSnoc(s, [] + [DoYield(0)], s1, DoSpawn(t));
    assert s2.queue == [t] && IsRunning(s2, s2.current[0]);
    s' := Act(s2, DoYield(0));
    run := [] + [DoYield(0)] + [DoSpawn(t)];
    ActAllSnoc(s, run, s2, DoYield(0));
    run := run + [DoYield(0)];
    assert s2.queue[1..] + [s.idle[0]] == [s.idle[0]];
  }

  /** Then CPU 1 picks it up, and CPU 0 falls back to it when its task exits. */
  lemma IdleShared(s: Sched, t: nat) returns (run: seq<Action>, s': Sched)
    requires SchedOk(s) && |s.current| >= 2 && s.queue == [s.idle[0]] && s.current[0] == To(t) && t != s.idle[0] && OnIdle(s, 1)
    ensures ActAll(s, run) == Some(s') && SharesTask(s')
  {
    hide ActAll;
    var s1 := Act(s, DoWorker(1));
    NoActions(s);
    ActAllSnoc(s, [], s, DoWorker(1));
    assert s1.queue == [] && s1.current[1] == To(s.idle[0]);
    s' := Act(s1, DoExit(0));
    ActAllSnoc(s, [] + [DoWorker(1)], s1, DoExit(0));
    run := [] + [DoWorker(1)] + [DoExit(0)];
    assert s'.current[0] == s'.current[1] == To(s.idle[0]);
  }

  /** Without a task to spawn every CPU stays idle. */
  predicate AllIdle(s: Sched) {
    && SchedOk(s) && s.queue == [] && (forall t: nat :: t < |s.state| ==> t in s.idle)
    && forall c :: 0 <= c < |s.current| ==> s.current[c].Null? || OnIdle(s, c)
  }

  lemma {:induction false} StaysIdle(s: Sched, run: seq<Action>)
    requires AllIdle(s) && ActAll(s, run).Some?
    ensures AllIdle(ActAll(s, run).value) && ActAll(s, run).value.idle == s.idle
    decreases |run|
  {
    if run != [] {
      var s1 := Act(s, run[0]);
      assert AllIdle(s1) && s1.idle == s.idle;
      StaysIdle(s1, run[1..]);
    }
  }

  lemma {:induction false} CpusStay(s: Sched, run: seq<Action>)
    requires SchedOk(s) && ActAll(s, run).Some?
    ensures |ActAll(s, run).value.current| == |s.current|
    decreases |run|
  {
    if run != [] {
      CpusStay(Act(s, run[0]), run[1..]);
    }
  }

  lemma IdlesNotShared(s: Sched)
    requires AllIdle(s) && Distinct(s.idle)
    ensures !SharesTask(s)
  {
  }

  lemma ReachSharing(idle: seq<nat>, tasks: nat, t: nat) returns (run: seq<Action>)
    requires |idle| >= 2 && Distinct(idle) && (forall c :: 0 <= c < |idle| ==> idle[c] < tasks) && t < tasks && t !in idle
    ensures SchedOk(Boot(idle, tasks)) && ActAll(Boot(idle, tasks), run).Some? && SharesTask(ActAll(Boot(idle, tasks), run).value)
  {
    hide ActAll, Boot, SharesTask;
    var a, s := ReachLooping(idle, tasks, t);
    assert s.idle[0] in s.idle;
    var b, s1 := IdleEnqueued(s, t);
    var c, s2 := IdleShared(s1, t);
    ActAllAppend(Boot(idle, tasks), a, b);
    ActAllAppend(Boot(idle, tasks), a + b, c);
    run := a + b + c;
  }

  /** With ticks on RUNNING idle tasks allowed, one task can become current on two CPUs if and only if
      there are two CPUs and a task to spawn. */
  lemma SharingReachableIff(idle: seq<nat>, tasks: nat)
    requires Distinct(idle) && forall c :: 0 <= c < |idle| ==> idle[c] < tasks
    ensures SchedOk(Boot(idle, tasks))
    ensures (exists run :: ActAll(Boot(idle, tasks), run).Some? && SharesTask(ActAll(Boot(idle, tasks), run).value)) <==>
            |idle| >= 2 && exists t: nat :: t < tasks && t !in idle
  {
    hide ActAll;
    BootOk(idle, tasks);
    var s := Boot(idle, tasks);
    if |idle| >= 2 && exists t: nat :: t < tasks && t !in idle {
      var t: nat :| t < tasks && t !in idle;
      var run := ReachSharing(idle, tasks, t);
    } else {
      forall run | ActAll(s, run).Some?
        ensures !SharesTask(ActAll(s, run).value)
      {
        CpusStay(s, run);
        if |idle| >= 2 {
          StaysIdle(s, run);
          IdlesNotShared(ActAll(s, run).value);
        }
      }
    }
  }

  lemma NoActions(s: Sched)
    requires SchedOk(s)
    ensures ActAll(s, []) == Some(s)
  {
  }

  lemma BootOk(idle: seq<nat>, tasks: nat)
    requires forall c :: 0 <= c < |idle| ==> idle[c] < tasks
    ensures SchedOk(Boot(idle, tasks))
  {
  }

  // ----- one CPU -----------------------------------------------------------

  /** On one CPU nothing is current and queued at once, idle task included. */
  predicate SinglePart(s: Sched) {
    && SchedOk(s) && |s.current| == 1 && IdlesApart(s) && Placed(s)
    && (forall k :: 0 <= k < |s.queue| ==> s.queue[k] in s.spawned || s.queue[k] == s.idle[0])
    && (s.current[0].To? ==> s.current[0] == To(s.idle[0]) || s.current[0].task in s.spawned)
    && (s.current[0].To? && s.current[0] != To(s.idle[0]) ==> s.state[s.current[0].task] == RUNNING)
  }

  lemma SinglePick(s: Sched)
    requires SinglePart(s) && s.current[0].Null?
    ensures SinglePart(Pick(s, 0))
  {
    var s' := Pick(s, 0);
    assert forall x: Ptr :: x in s'.current ==> x == s'.current[0];
    if s.queue != [] {
      DropFirst(s.queue);
      assert s.queue == [s.queue[0]] + s.queue[1..];
    }
    assert forall t :: To(t) in s'.current ==> To(t) == s'.current[0];
    assert s'.current[0] in s'.current;
  }

  lemma SingleRequeue(s: Sched)
    requires SinglePart(s) && s.current[0].To?
    ensures SinglePart(Requeue(s, 0))
  {
    var t := s.current[0].task;
    var s' := Requeue(s, 0);
    assert s.current[0] in s.current;
    assert t !in s.queue;
    assert t in s'.queue;
    assert forall x: nat :: To(x) !in s'.current;
  }

  lemma SingleVacate(s: Sched, s': Sched)
    requires SinglePart(s)
    requires (s' == Park(s, 0) && (s.current[0].Null? || OnIdle(s, 0)))
             || (s.current[0].To? && s' == Bury(s, 0) && !OnIdle(s, 0))
    ensures SinglePart(s') && s'.current[0].Null?
  {
    assert s.current[0] in s.current;
    assert forall x: nat :: To(x) !in s'.current;
  }

  /** The same between actions: before the first switch the idle task is not queued. */
  predicate SingleInv(s: Sched) {
    SinglePart(s) && (s.current[0].Null? ==> s.idle[0] !in s.queue)
  }

  lemma SingleBoot(idle: nat, tasks: nat)
    requires idle < tasks
    ensures SingleInv(Boot([idle], tasks))
  {
  }

  /** On one CPU every action keeps each task in one place, ticks on the idle task included. */
  lemma SingleActInv(s: Sched, a: Action)
    requires SingleInv(s) && Possible(s, a)
    ensures SingleInv(Act(s, a))
  {
    SingleActPart(s, a);
    if a.DoSpawn? {
      assert s.idle[0] in s.idle;
    }
  }

  lemma SingleActPart(s: Sched, a: Action)
    requires SingleInv(s) && Possible(s, a)
    ensures SinglePart(Act(s, a))
  {
    match a
    case DoYield(c) =>
      hide Placed, Pick, Requeue, Park;
      YieldParts(s, 0);
      if IsRunning(s, s.current[0]) {
        if s.queue != [] {
          SingleRequeue(s);
          RequeueVacates(s, 0);
          SinglePick(Requeue(s, 0));
        }
      } else {
        SingleVacate(s, Park(s, 0));
        SinglePick(Park(s, 0));
      }
    case DoExit(c) =>
      hide Placed, Pick, Bury;
      ExitParts(s, 0);
      SingleVacate(s, Bury(s, 0));
      SinglePick(Bury(s, 0));
    case DoWorker(c) =>
      hide Placed, Pick, Park;
      if s.queue != [] {
        WorkerParts(s, 0);
        SingleVacate(s, Park(s, 0));
        SinglePick(Park(s, 0));
      }
    case DoEnterWorker(c) =>
      SingleEnter(s);
    case DoSpawn(t) =>
      SingleSpawn(s, t);
  }

  lemma SingleEnter(s: Sched)
    requires SingleInv(s) && (s.current[0].Null? || OnIdle(s, 0))
    ensures SinglePart(EnterWorker(s, 0))
  {
  }

  lemma SingleSpawn(s: Sched, t: nat)
    requires SinglePart(s) && t < |s.state| && t !in s.spawned && t !in s.idle
    ensures SinglePart(Spawn(s, t))
  {
    var s' := Spawn(s, t);
    assert s.idle[0] in s.idle;
    assert t !in s.queue;
    assert To(t) !in s.current;
    assert t in s'.queue;
  }

  lemma {:induction false} SingleConservation(s: Sched, run: seq<Action>)
    requires SingleInv(s)
    ensures ActAll(s, run).Some? ==> SingleInv(ActAll(s, run).value)
    decreases |run|
  {
    hide SingleInv, Act, Possible;
    if run != [] {
      SingleOk(s);
      if Possible(s, run[0]) {
        SingleActInv(s, run[0]);
        SingleConservation(Act(s, run[0]), run[1..]);
      }
    }
  }

  lemma SingleOk(s: Sched)
    requires SingleInv(s)
    ensures SchedOk(s)
  {
  }

  // ----- round robin -------------------------------------------------------

  function Yields(s: Sched, c: nat, n: nat): (s': Sched)
    requires SchedOk(s) && c < |s.current|
    ensures SchedOk(s') && |s'.current| == |s.current|
  {
    if n == 0 then s else Yield(Yields(s, c, n - 1), c)
  }

  /** The configuration after `k` turns: task `k` of the ring runs, the others wait in ring order. */
  function Turned(s: Sched, c: nat, k: nat): (s': Sched)
    requires SchedOk(s) && c < |s.current| && s.current[c].To? && k <= |s.queue|
  {
    var ring := [s.current[c].task] + s.queue;
    s.(queue := ring[k + 1..] + ring[..k], current := s.current[c := To(ring[k])],
       state := s.state[ring[0] := READY][ring[k] := RUNNING])
  }

  predicate FairStart(s: Sched, c: nat) {
    && SchedOk(s) && c < |s.current| && IsRunning(s, s.current[c])
    && Distinct([s.current[c].task] + s.queue)
    && (forall k :: 0 <= k < |s.queue| ==> s.state[s.queue[k]] == READY)
  }

  /** The waiting tasks move up by one. */
  lemma RingStep(ring: seq<nat>, k: nat)
    requires k + 1 < |ring|
    ensures var q := ring[k + 1..] + ring[..k];
            q[0] == ring[k + 1] && q[1..] + [ring[k]] == ring[k + 2..] + ring[..k + 1]
  {
    var q := ring[k + 1..] + ring[..k];
    assert q[1..] == ring[k + 2..] + ring[..k];
    assert ring[..k] + [ring[k]] == ring[..k + 1];
  }

  lemma TurnStep(s: Sched, c: nat, k: nat)
    requires FairStart(s, c) && k < |s.queue|
    ensures SchedOk(Turned(s, c, k)) && Yield(Turned(s, c, k), c) == Turned(s, c, k + 1)
  {
    var ring := [s.current[c].task] + s.queue;
    var u, v := Turned(s, c, k), Turned(s, c, k + 1);
    RingStep(ring, k);
    var base := s.state[ring[0] := READY];
    assert base[ring[k]] == READY;
    assert base[ring[k] := RUNNING][ring[k] := READY] == base;
    assert u.current[c := To(ring[k + 1])] == v.current;
  }

  lemma RingTurn(first: nat, queue: seq<nat>)
    requires queue != []
    ensures var ring := [first] + queue;
            ring[..|queue|][1..] + [ring[|queue|]] == queue
  {
  }

  /** Handing RUNNING from `b` back to `a`. */
  lemma StatesTurn(state: seq<TaskState>, a: nat, b: nat)
    requires a < |state| && b < |state| && a != b && state[a] == RUNNING && state[b] == READY
    ensures var base := state[a := READY];
            base[b := RUNNING][b := READY] == base && base[a := RUNNING] == state
  {
  }

  lemma LastTurn(s: Sched, c: nat)
    requires FairStart(s, c) && s.queue != []
    ensures var n := |s.queue|;
            SchedOk(Turned(s, c, n)) && Yield(Turned(s, c, n), c) == s
  {
    var n := |s.queue|;
    var ring := [s.current[c].task] + s.queue;
    var u := Turned(s, c, n);
    RingTurn(ring[0], s.queue);
    assert u.queue == ring[..n];
    StatesTurn(s.state, ring[0], ring[n]);
    assert u.current[c := To(ring[0])] == s.current;
  }

  lemma {:induction false} FullTurn(s: Sched, c: nat, k: nat)
    requires FairStart(s, c) && k <= |s.queue|
    ensures Yields(s, c, k) == Turned(s, c, k)
  {
    hide Yield, Turned;
    if k > 0 {
      FullTurn(s, c, k - 1);
      TurnStep(s, c, k - 1);
    } else {
      FirstTurn(s, c);
    }
  }

  /** Round robin: with `n` tasks queued behind a running one, the `k`-th yield runs the `k`-th of them,
      and `n + 1` yields restore the configuration. */
  lemma RoundRobin(s: Sched, c: nat, k: nat)
    requires FairStart(s, c) && k <= |s.queue|
    ensures Yields(s, c, k) == Turned(s, c, k)
    ensures Yields(s, c, |s.queue| + 1) == s
  {
    hide Yield, Turned;
    FullTurn(s, c, k);
    FullTurn(s, c, |s.queue|);
    if s.queue == [] {
      FirstTurn(s, c);
      AloneKeepsRunning(s, c);
    } else {
      LastTurn(s, c);
    }
  }

  lemma FirstTurn(s: Sched, c: nat)
    requires FairStart(s, c)
    ensures Turned(s, c, 0) == s
  {
    var ring := [s.current[c].task] + s.queue;
    assert ring[1..] + ring[..0] == s.queue;
    assert s.state[ring[0] := READY][ring[0] := RUNNING] == s.state;
    assert s.current[c := To(ring[0])] == s.current;
  }

  lemma AloneKeepsRunning(s: Sched, c: nat)
    requires FairStart(s, c) && s.queue == []
    ensures Yield(s, c) == s
  {
  }
}
