/** Scheduling decisions carried out by the context switch: every switch the scheduler asks for resumes a
    task that no other core runs. */
module ScheduledSwitches {
  import opened Options
  import opened RunQueueSteps
  import opened SchedulerModel
  import C = ContextSwitch

  /** The task whose context CPU `c` is in; before its first switch a CPU saves into its idle task. */
  function Running(s: Sched): (r: seq<nat>)
    requires SchedOk(s)
  {
    seq(|s.current|, c requires 0 <= c < |s.current| => if s.current[c].To? then s.current[c].task else s.idle[c])
  }

  function Made(s: Sched): (r: set<nat>) { s.spawned + set t | t in s.idle }

  /** Machine and scheduler agree on who runs where and which tasks exist. */
  ghost predicate Agree(l: seq<C.Place>, s: Sched, m: C.Machine) {
    SchedOk(s) && MultiInv(s) && C.MachineOk(l, m) && |l| == |s.state| && m.running == Running(s) && m.made == Made(s)
  }

  /** The task an action switches to, if it calls the switch routine at all. */
  function Target(s: Sched, a: Action): (r: Option<nat>)
    requires SchedOk(s) && Possible(s, a)
    ensures r.Some? ==> !a.DoSpawn? && a.cpu < |s.current|
  {
    match a
    case DoYield(c) =>
      if s.queue == [] then (if IsRunning(s, s.current[c]) then None else Some(s.idle[c])) else Some(s.queue[0])
    case DoExit(c) => Some(if s.queue == [] then s.idle[c] else s.queue[0])
    case DoWorker(c) => if s.queue == [] then None else Some(s.queue[0])
    case _ => None
  }

  lemma BootAgrees(l: seq<C.Place>, idle: seq<nat>, mem: C.Memory, cores: seq<C.Core>)
    requires C.LayoutOk(l) && |cores| == |idle| && Distinct(idle) && forall c :: 0 <= c < |idle| ==> idle[c] < |l|
    ensures Agree(l, Boot(idle, |l|), C.Machine(mem, cores, idle, set t | t in idle))
  {
    hide C.LayoutOk;
    BootInv(idle, |l|);
    C.BootMachineOk(l, mem, cores, idle);
    assert Running(Boot(idle, |l|)) == idle;
  }

  /** Nobody else runs the task an action switches to. */
  lemma TargetFree(s: Sched, a: Action)
    requires MultiInv(s) && Possible(s, a) && !IdleTick(s, a) && Target(s, a).Some?
    ensures var t := Target(s, a).value;
            && t in Made(s) && a.cpu < |s.current|
            && forall d :: 0 <= d < |s.current| && d != a.cpu ==> Running(s)[d] != t
  {
    var t := Target(s, a).value;
    if s.queue != [] && t == s.queue[0] {
      assert t in s.spawned;
      forall d | 0 <= d < |s.current| && d != a.cpu
        ensures Running(s)[d] != t
      {
        assert s.current[d] in s.current;
      }
    } else {
      assert t in s.idle;
    }
  }

  /** What an action does to the slots of the CPUs. */
  lemma SlotsAfter(s: Sched, a: Action)
    requires SchedOk(s) && Possible(s, a)
    ensures var s' := Act(s, a);
            && s'.idle == s.idle && |s'.state| == |s.state|
            && s'.spawned == (if a.DoSpawn? then s.spawned + {a.task} else s.spawned)
            && s'.current == if Target(s, a).Some? then s.current[a.cpu := To(Target(s, a).value)]
                             else if a.DoEnterWorker? then s.current[a.cpu := To(s.idle[a.cpu])] else s.current
  {
  }

  /** Who runs where after an action. */
  lemma RunningAfter(s: Sched, a: Action)
    requires SchedOk(s) && Possible(s, a)
    ensures Running(Act(s, a)) == if Target(s, a).Some? then Running(s)[a.cpu := Target(s, a).value] else Running(s)
    ensures Made(Act(s, a)) == if a.DoSpawn? then Made(s) + {a.task} else Made(s)
    ensures |Act(s, a).state| == |s.state|
  {
    hide Act, Target;
    SlotsAfter(s, a);
  }

  /** The core is on its own stack. */
  ghost predicate Ready(l: seq<C.Place>, m: C.Machine, c: nat)
    requires C.MachineOk(l, m)
  {
    c < |m.cores| && C.OnOwnStack(l, m, c)
  }

  /** The machine event of an action: a switch, a creation, or nothing. */
  function EventOf(s: Sched, a: Action, f: C.Fresh): (r: Option<C.Event>)
    requires SchedOk(s) && Possible(s, a)
  {
    if a.DoSpawn? then Some(C.Create(a.task, f))
    else match Target(s, a) case None => None case Some(t) => Some(C.SwitchTo(a.cpu, t))
  }

  /** Every decision outside an idle tick is an allowed machine event, if the core is on its own stack. */
  lemma DecisionAllowed(l: seq<C.Place>, s: Sched, m: C.Machine, a: Action, f: C.Fresh)
    requires Agree(l, s, m) && Possible(s, a) && !IdleTick(s, a)
    requires Target(s, a).Some? ==> Ready(l, m, a.cpu)
    ensures EventOf(s, a, f).Some? ==> C.Allowed(l, m, EventOf(s, a, f).value)
  {
    hide SchedOk, MultiInv, IdleTick, Act, Made;
    if a.DoSpawn? {
      NotMade(s, a.task);
    } else if Target(s, a).Some? {
      TargetFree(s, a);
      var t := Target(s, a).value;
      if t != m.running[a.cpu] {
        forall d | 0 <= d < |m.running|
          ensures m.running[d] != t
        {
        }
      }
    }
  }

  lemma NotMade(s: Sched, t: nat)
    requires SchedOk(s) && Possible(s, DoSpawn(t))
    ensures t < |s.state| && t !in Made(s)
  {
  }

  /** And scheduler and machine still agree afterwards. */
  lemma DecisionAgrees(l: seq<C.Place>, s: Sched, m: C.Machine, a: Action, f: C.Fresh)
    requires Agree(l, s, m) && Possible(s, a) && !IdleTick(s, a) && (Target(s, a).Some? ==> Ready(l, m, a.cpu))
    ensures EventOf(s, a, f).Some? ==> C.Allowed(l, m, EventOf(s, a, f).value)
    ensures Agree(l, Act(s, a), if EventOf(s, a, f).Some? then C.Happen(l, m, EventOf(s, a, f).value) else m)
  {
    hide SchedOk, MultiInv, C.MachineOk, Act, Made, Running, C.Switch, C.CreateFrame, IdleTick, Target, Possible, C.Allowed, Ready;
    DecisionAllowed(l, s, m, a, f);
    ActInv(s, a);
    RunningAfter(s, a);
    if EventOf(s, a, f).Some? {
      C.StepOk(l, m, EventOf(s, a, f).value);
    }
  }

  /** What the machine does on a decision. */
  ghost function Carry(l: seq<C.Place>, s: Sched, m: C.Machine, a: Action, f: C.Fresh): (m': C.Machine)
    requires Agree(l, s, m) && Possible(s, a) && !IdleTick(s, a) && (Target(s, a).Some? ==> Ready(l, m, a.cpu))
    ensures Agree(l, Act(s, a), m')
  {
    DecisionAgrees(l, s, m, a, f);
    if EventOf(s, a, f).Some? then C.Happen(l, m, EventOf(s, a, f).value) else m
  }

  // ----- runs --------------------------------------------------------------

  datatype Item =
    | Decide(action: Action, begin: C.Fresh)
    | Work(core: nat, after: C.Core, mem: C.Memory) // ordinary code between decisions

  ghost predicate ItemOk(l: seq<C.Place>, s: Sched, m: C.Machine, i: Item)
    requires Agree(l, s, m)
  {
    match i
    case Decide(a, _) =>
      && Possible(s, a) && !IdleTick(s, a)
      && (Target(s, a).Some? ==> Ready(l, m, a.cpu))
    case Work(c, after, mem) => C.Allowed(l, m, C.Compute(c, after, mem))
  }

  /** Scheduler and machine after an item, and the machine events it took. */
  ghost function Done(l: seq<C.Place>, s: Sched, m: C.Machine, i: Item): (r: (Sched, C.Machine, seq<C.Event>))
    requires Agree(l, s, m) && ItemOk(l, s, m, i)
    ensures Agree(l, r.0, r.1)
  {
    match i
    case Decide(a, f) =>
      (Act(s, a), Carry(l, s, m, a, f), if EventOf(s, a, f).Some? then [EventOf(s, a, f).value] else [])
    case Work(c, after, mem) =>
      var e := C.Compute(c, after, mem);
      C.StepOk(l, m, e);
      (s, C.Happen(l, m, e), [e])
  }

  /** A run of decisions and ordinary code, with the machine events it takes. */
  ghost predicate JointRun(l: seq<C.Place>, s: Sched, m: C.Machine, run: seq<Item>, s': Sched, m': C.Machine, events: seq<C.Event>)
    requires Agree(l, s, m)
    decreases |run|
  {
    if run == [] then s == s' && m == m' && events == []
    else
      && ItemOk(l, s, m, run[0])
      && var (s1, m1, es) := Done(l, s, m, run[0]);
      && es <= events && JointRun(l, s1, m1, run[1..], s', m', events[|es|..])
  }

  lemma ItemLeads(l: seq<C.Place>, s: Sched, m: C.Machine, i: Item)
    requires Agree(l, s, m) && ItemOk(l, s, m, i)
    ensures C.Leads(l, m, Done(l, s, m, i).2, Done(l, s, m, i).1)
  {
    hide SchedOk, MultiInv, Made, Running, C.MachineOk, C.Happen, Act, IdleTick;
    if i.Decide? {
      DecisionAllowed(l, s, m, i.action, i.begin);
    }
    var (_, m1, es) := Done(l, s, m, i);
    if es != [] {
      OneLeads(l, m, es[0], m1);
      assert es == [es[0]];
    } else {
      assert m1 == m;
    }
  }

  lemma OneLeads(l: seq<C.Place>, m: C.Machine, e: C.Event, m': C.Machine)
    requires C.MachineOk(l, m) && C.Allowed(l, m, e) && m' == C.Happen(l, m, e)
    ensures C.Leads(l, m, [e], m')
  {
    hide C.Allowed, C.Happen, C.MachineOk;
    C.StepOk(l, m, e);
    assert [e][1..] == [];
    assert C.Leads(l, m', [], m');
  }

  lemma {:induction false} LeadsAppend(l: seq<C.Place>, m: C.Machine, a: seq<C.Event>, m1: C.Machine, b: seq<C.Event>, m2: C.Machine)
    requires C.MachineOk(l, m) && C.Leads(l, m, a, m1) && C.MachineOk(l, m1) && C.Leads(l, m1, b, m2)
    ensures C.Leads(l, m, a + b, m2)
    decreases |a|
  {
    hide C.Allowed, C.Happen, C.MachineOk;
    if a == [] {
      assert a + b == b;
    } else {
      assert (a + b)[1..] == a[1..] + b;
      LeadsAppend(l, C.Happen(l, m, a[0]), a[1..], m1, b, m2);
    }
  }

  /** Every run of decisions in which no tick interrupts a RUNNING idle task while work is queued is a run
      of the machine: no switch in it resumes a task that another core runs, and scheduler and machine
      agree to the end. */
  lemma {:induction false} DecisionsAreAllowed(l: seq<C.Place>, s: Sched, m: C.Machine, run: seq<Item>, s': Sched, m': C.Machine, events: seq<C.Event>)
    requires Agree(l, s, m) && JointRun(l, s, m, run, s', m', events)
    ensures Agree(l, s', m') && C.Leads(l, m, events, m')
    decreases |run|
  {
    hide SchedOk, MultiInv, Made, Running, C.MachineOk, C.Leads, Act, Done, ItemOk;
    if run == [] {
      NothingLeads(l, m);
    } else {
      var (s1, m1, es) := Done(l, s, m, run[0]);
      ItemLeads(l, s, m, run[0]);
      DecisionsAreAllowed(l, s1, m1, run[1..], s', m', events[|es|..]);
      LeadsAppend(l, m, es, m1, events[|es|..], m');
      assert events == es + events[|es|..];
    }
  }

  lemma NothingLeads(l: seq<C.Place>, m: C.Machine)
    requires C.MachineOk(l, m)
    ensures C.Leads(l, m, [], m)
  {
  }

  /** On CPU `i` action `a` decides for task `u`, which leads to `s'` and `m'`. */
  ghost predicate Decides(l: seq<C.Place>, s: Sched, m: C.Machine, a: Action, i: nat, u: nat, s': Sched, m': C.Machine)
    requires Agree(l, s, m)
  {
    && Possible(s, a) && !IdleTick(s, a) && Target(s, a) == Some(u) && a.cpu == i && Ready(l, m, i)
    && s' == Act(s, a) && m' == Carry(l, s, m, a, C.Fresh(0, 0, 0, 0))
  }

  lemma DecidesSwitch(l: seq<C.Place>, s: Sched, m: C.Machine, a: Action, i: nat, u: nat, s': Sched, m': C.Machine)
    requires Agree(l, s, m) && Decides(l, s, m, a, i, u, s', m')
    ensures C.MachineOk(l, m) && i < |m.running| && i < |m.cores| && C.Allowed(l, m, C.SwitchTo(i, u))
    ensures m' == C.Happen(l, m, C.SwitchTo(i, u)) && Agree(l, s', m') && C.MachineOk(l, m')
  {
    hide SchedOk, MultiInv, Made, Running, C.MachineOk, C.Happen, C.Allowed, Act, Target, IdleTick, Possible, C.OnOwnStack;
    DecisionAgrees(l, s, m, a, C.Fresh(0, 0, 0, 0));
    MachineCores(l, m);
  }

  lemma MachineCores(l: seq<C.Place>, m: C.Machine)
    requires C.MachineOk(l, m)
    ensures |m.cores| == |m.running|
  {
  }

  /** Context round trip under the scheduler: a task that a decision on CPU `i` switches away from resumes,
      at the decision on CPU `j` that next picks it, with the context it called the routine with. */
  lemma ScheduledRoundTrip(l: seq<C.Place>, s: Sched, m: C.Machine, a: Action, i: nat, u: nat, s1: Sched, m1: C.Machine,
                           run: seq<Item>, s2: Sched, m2: C.Machine, events: seq<C.Event>,
                           b: Action, j: nat, t: nat, s3: Sched, m3: C.Machine)
    requires Agree(l, s, m) && Decides(l, s, m, a, i, u, s1, m1) && i < |m.running| && t == m.running[i] && u != t
    requires Agree(l, s1, m1) && JointRun(l, s1, m1, run, s2, m2, events) && C.Away(events, t)
    requires Agree(l, s2, m2) && Decides(l, s2, m2, b, j, t, s3, m3)
    ensures i < |m.cores| && j < |m3.cores| && m3.cores[j] == C.CallerContext(m.cores[i], m.mem)
  {
    hide Agree, Decides, JointRun, C.Away, C.Happen, C.Allowed, C.MachineOk, C.Leads, C.CallerContext;
    DecidesSwitch(l, s, m, a, i, u, s1, m1);
    DecidesSwitch(l, s2, m2, b, j, t, s3, m3);
    MachineCores(l, m3);
    SameCores(l, m2, j, t);
    DecisionsAreAllowed(l, s1, m1, run, s2, m2, events);
    C.RoundTrip(l, m, i, u, events, m2, j);
  }

  lemma SameCores(l: seq<C.Place>, m: C.Machine, j: nat, t: nat)
    requires C.MachineOk(l, m) && C.Allowed(l, m, C.SwitchTo(j, t))
    ensures |C.Happen(l, m, C.SwitchTo(j, t)).cores| == |m.cores|
  {
  }
}
