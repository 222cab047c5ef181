/** Application-processor start-up: the boot processor patches one shared trampoline data area per AP,
    and the APs check in on a counter and wait at a barrier.  Steps are single loads and stores; sending
    an IPI and sleeping are abstract steps, and a timeout of the boot processor's wait is an event. */
module SmpStartup {
  import opened Options

  const AP_MAIN: nat := 1

  const AP_STACK_SIZE: nat := 0x4000
  const MAX_APS: nat := 16

  /** `get_ap_stack`: the top of the stack of a CPU number, relative to the stack area. */
  function StackTop(cpu: nat): (top: nat) { AP_STACK_SIZE * (cpu + 1) }

  /** `cpus` processors numbered by processor UID, of which `boot` is the boot processor. */
  datatype Config = Config(cpus: nat, boot: nat)

  predicate ConfigOk(c: Config) { c.boot < c.cpus <= MAX_APS }

  datatype Ap =
    | Off | WaitSipi | Woken
    | HasStack(stack: nat) | HasEntry(stack: nat, entry: nat)
    | CheckedIn(stack: nat) | Working(stack: nat)
    | Lost // jumped to something that is not ap_main

  datatype Pc = NextCpu | ReadStarted | PatchStack | PatchEntry | SendInit | Sipi1 | Sipi2 | Wait | FinalWait | Done

  datatype State = State(
    started: nat, expected: nat,
    slotStack: nat, slotEntry: nat,
    pc: Pc, cpu: nat, target: nat, // `target` is the source's local `expected`
    aps: seq<Ap>)

  function Start(c: Config): (s: State)
    requires ConfigOk(c)
  {
    State(0, c.cpus - 1, 0, 0, NextCpu, 0, 0, seq(c.cpus, _ => Off))
  }

  datatype Event = Boot | Timeout | Step(ap: nat)

  predicate Enabled(c: Config, s: State, e: Event) {
    match e
    case Boot => s.pc != Done
    case Timeout => s.pc == Wait && s.started < s.target
    case Step(k) => k < |s.aps| && k != c.boot && !s.aps[k].Off? && !s.aps[k].WaitSipi? && !s.aps[k].Working? && !s.aps[k].Lost?
  }

  function BootStep(c: Config, s: State): (s': State)
    requires |s.aps| == c.cpus
  {
    match s.pc
    case NextCpu =>
      if s.cpu >= c.cpus then s.(pc := FinalWait)
      else if s.cpu == c.boot then s.(cpu := s.cpu + 1)
      else s.(pc := ReadStarted)
    case ReadStarted => s.(target := s.started + 1, pc := PatchStack)
    case PatchStack => s.(slotStack := StackTop(s.cpu), pc := PatchEntry)
    case PatchEntry => s.(slotEntry := AP_MAIN, pc := SendInit)
    case SendInit => if s.cpu < |s.aps| then s.(aps := s.aps[s.cpu := WaitSipi], pc := Sipi1) else s
    case Sipi1 => if s.cpu < |s.aps| then s.(aps := Sipi(s.aps, s.cpu), pc := Sipi2) else s
    case Sipi2 => if s.cpu < |s.aps| then s.(aps := Sipi(s.aps, s.cpu), pc := Wait) else s
    case Wait => if s.started < s.target then s else s.(cpu := s.cpu + 1, pc := NextCpu)
    case FinalWait => if s.started < s.expected then s else s.(pc := Done)
    case Done => s
  }

  /** A start-up IPI wakes a processor that waits for one and is otherwise ignored. */
  function Sipi(aps: seq<Ap>, k: nat): (r: seq<Ap>)
    requires k < |aps|
  {
    if aps[k].WaitSipi? then aps[k := Woken] else aps
  }

  function ApStep(s: State, k: nat): (s': State)
    requires k < |s.aps|
  {
    match s.aps[k]
    case Woken => s.(aps := s.aps[k := HasStack(s.slotStack)])
    case HasStack(st) => s.(aps := s.aps[k := HasEntry(st, s.slotEntry)])
    case HasEntry(st, entry) =>
      if entry == AP_MAIN then s.(aps := s.aps[k := CheckedIn(st)], started := s.started + 1)
      else s.(aps := s.aps[k := Lost])
    case CheckedIn(st) => if s.started < s.expected then s else s.(aps := s.aps[k := Working(st)])
    case _ => s
  }

  function Next(c: Config, s: State, e: Event): (s': State)
    requires |s.aps| == c.cpus && Enabled(c, s, e)
    ensures |s'.aps| == c.cpus
  {
    match e
    case Boot => BootStep(c, s)
    case Timeout => s.(cpu := s.cpu + 1, pc := NextCpu)
    case Step(k) => ApStep(s, k)
  }

  // ----- counting check-ins ------------------------------------------------

  predicate Checked(a: Ap) { a.CheckedIn? || a.Working? }

  function Count(aps: seq<Ap>): (n: nat)
    ensures n <= |aps|
  {
    if aps == [] then 0 else Count(aps[..|aps| - 1]) + (if Checked(aps[|aps| - 1]) then 1 else 0)
  }

  lemma {:induction false} CountUpdate(aps: seq<Ap>, k: nat, a: Ap)
    requires k < |aps|
    ensures Count(aps[k := a]) == Count(aps) - (if Checked(aps[k]) then 1 else 0) + (if Checked(a) then 1 else 0)
  {
    var n := |aps| - 1;
    if k == n {
      assert aps[k := a][..n] == aps[..n];
    } else {
      assert aps[k := a][..n] == aps[..n][k := a];
      CountUpdate(aps[..n], k, a);
    }
  }

  /** A full count, less one for the boot processor, leaves nobody out. */
  lemma {:induction false} CountFull(aps: seq<Ap>)
    ensures Count(aps) == |aps| <==> forall k :: 0 <= k < |aps| ==> Checked(aps[k])
  {
    if aps != [] {
      CountFull(aps[..|aps| - 1]);
      assert forall k :: 0 <= k < |aps| - 1 ==> aps[..|aps| - 1][k] == aps[k];
    }
  }

  lemma CountAllButOne(aps: seq<Ap>, b: nat)
    requires b < |aps| && !Checked(aps[b])
    ensures Count(aps) <= |aps| - 1
    ensures Count(aps) == |aps| - 1 <==> forall k :: 0 <= k < |aps| && k != b ==> Checked(aps[k])
  {
    var full := aps[b := CheckedIn(0)];
    CountUpdate(aps, b, CheckedIn(0));
    CountFull(full);
    assert (forall k :: 0 <= k < |full| ==> Checked(full[k])) <==> (forall k :: 0 <= k < |aps| && k != b ==> Checked(aps[k])) by {
      if forall k :: 0 <= k < |full| ==> Checked(full[k]) {
        forall k | 0 <= k < |aps| && k != b
          ensures Checked(aps[k])
        {
          assert full[k] == aps[k];
        }
      }
    }
  }

  // ----- the barrier, with or without timeouts -----------------------------

  predicate BeforeInit(pc: Pc) { pc.NextCpu? || pc.ReadStarted? || pc.PatchStack? || pc.PatchEntry? || pc.SendInit? }
  predicate InLoop(pc: Pc) { !pc.NextCpu? && !pc.FinalWait? && !pc.Done? }

  predicate BarrierInv(c: Config, s: State) {
    && ConfigOk(c) && |s.aps| == c.cpus && s.cpu <= c.cpus
    && s.expected == c.cpus - 1
    && s.aps[c.boot].Off?
    && s.started == Count(s.aps)
    && (InLoop(s.pc) ==> s.cpu < c.cpus && s.cpu != c.boot)
    && (forall k :: s.cpu < k < c.cpus ==> s.aps[k].Off?)
    && (BeforeInit(s.pc) && s.cpu < c.cpus ==> s.aps[s.cpu].Off?)
    && (s.pc.Done? || (exists k :: 0 <= k < c.cpus && s.aps[k].Working?) ==> s.started >= s.expected)
  }

  lemma BarrierBoot(c: Config, s: State)
    requires BarrierInv(c, s) && s.pc != Done
    ensures BarrierInv(c, BootStep(c, s))
  {
    hide Count;
    if s.cpu < |s.aps| {
      CountUpdate(s.aps, s.cpu, WaitSipi);
      CountUpdate(s.aps, s.cpu, Woken);
    }
    var s' := BootStep(c, s);
    forall k | 0 <= k < c.cpus && s'.aps[k].Working?
      ensures s.aps[k].Working?
    {
    }
  }

  lemma BarrierAp(c: Config, s: State, k: nat)
    requires BarrierInv(c, s) && Enabled(c, s, Step(k))
    ensures BarrierInv(c, ApStep(s, k))
  {
    hide Count;
    var s' := ApStep(s, k);
    CountUpdate(s.aps, k, s'.aps[k]);
    assert s'.aps == s.aps || s'.aps == s.aps[k := s'.aps[k]];
    assert forall j :: 0 <= j < c.cpus && j != k ==> s'.aps[j] == s.aps[j];
  }

  lemma BarrierStep(c: Config, s: State, e: Event)
    requires BarrierInv(c, s) && Enabled(c, s, e)
    ensures BarrierInv(c, Next(c, s, e))
  {
    match e
    case Boot => BarrierBoot(c, s);
    case Timeout => assert s.cpu < c.cpus;
    case Step(k) => BarrierAp(c, s, k);
  }

  /** What the barrier invariant says: nobody works before everybody has checked in, and a returning
      `smp_init` has seen exactly one check-in per application processor. */
  lemma BarrierMeaning(c: Config, s: State)
    requires BarrierInv(c, s)
    ensures s.started <= c.cpus - 1
    ensures s.pc.Done? || (exists k :: 0 <= k < c.cpus && s.aps[k].Working?) ==>
              s.started == c.cpus - 1 && forall k :: 0 <= k < c.cpus && k != c.boot ==> Checked(s.aps[k])
  {
    CountAllButOne(s.aps, c.boot);
  }

  // ----- runs --------------------------------------------------------------

  /** The state after a run, if every event was enabled when it came. */
  function RunOf(c: Config, run: seq<Event>): (r: Option<State>)
    requires ConfigOk(c)
    ensures r.Some? ==> |r.value.aps| == c.cpus
    decreases |run|
  {
    if run == [] then Some(Start(c))
    else
      match RunOf(c, run[..|run| - 1])
      case None => None
      case Some(s) => if Enabled(c, s, run[|run| - 1]) then Some(Next(c, s, run[|run| - 1])) else None
  }

  lemma StartBarrier(c: Config)
    requires ConfigOk(c)
    ensures BarrierInv(c, Start(c))
  {
    NobodyChecked(c.cpus);
  }

  lemma {:induction false} NobodyChecked(n: nat)
    ensures Count(seq(n, _ => Off)) == 0
  {
    if n > 0 {
      var aps: seq<Ap> := seq(n, _ => Off);
      var fewer: seq<Ap> := seq(n - 1, _ => Off);
      assert aps[..n - 1] == fewer;
      NobodyChecked(n - 1);
    }
  }

  /** In every run, timeouts included, no processor enters the worker loop before all have checked in. */
  lemma {:induction false} BarrierHolds(c: Config, run: seq<Event>)
    requires ConfigOk(c) && RunOf(c, run).Some?
    ensures BarrierInv(c, RunOf(c, run).value)
    ensures var s := RunOf(c, run).value;
            s.pc.Done? || (exists k :: 0 <= k < c.cpus && s.aps[k].Working?) ==>
              s.started == c.cpus - 1 && forall k :: 0 <= k < c.cpus && k != c.boot ==> Checked(s.aps[k])
    decreases |run|
  {
    hide Next, BarrierInv, Enabled;
    if run == [] {
      StartBarrier(c);
    } else {
      BarrierHolds(c, run[..|run| - 1]);
      BarrierStep(c, RunOf(c, run[..|run| - 1]).value, run[|run| - 1]);
    }
    BarrierMeaning(c, RunOf(c, run).value);
  }

  // ----- private stacks ----------------------------------------------------

  predicate PatchedStack(pc: Pc) { pc.PatchEntry? || PatchedEntry(pc) }
  predicate PatchedEntry(pc: Pc) { pc.SendInit? || pc.Sipi1? || pc.Sipi2? || pc.Wait? }

  /** Processor `k` holds nothing but its own stack and the right entry point, and if it has been woken
      but not read its stack slot, the slot still holds its own. */
  predicate ApOk(s: State, k: nat)
    requires k < |s.aps|
  {
    match s.aps[k]
    case Off => true
    case WaitSipi => k == s.cpu && s.pc.Sipi1? && s.slotEntry == AP_MAIN
    case Woken => s.slotStack == StackTop(k) && s.slotEntry == AP_MAIN
    case HasStack(st) => st == StackTop(k) && s.slotEntry == AP_MAIN
    case HasEntry(st, entry) => st == StackTop(k) && entry == AP_MAIN
    case CheckedIn(st) => st == StackTop(k)
    case Working(st) => st == StackTop(k)
    case Lost => false
  }

  predicate StackInv(s: State) {
    && (forall k :: 0 <= k < |s.aps| ==> ApOk(s, k))
    && (PatchedStack(s.pc) ==> s.slotStack == StackTop(s.cpu))
    && (PatchedEntry(s.pc) ==> s.slotEntry == AP_MAIN)
  }

  /** The failing store: the stack slot is patched while a woken processor has yet to read it. */
  predicate Clobbers(s: State, e: Event) {
    e.Boot? && s.pc.PatchStack? && exists k :: 0 <= k < |s.aps| && s.aps[k].Woken?
  }

  lemma StackBoot(c: Config, s: State)
    requires BarrierInv(c, s) && StackInv(s) && !Clobbers(s, Boot)
    ensures StackInv(BootStep(c, s))
  {
    hide Count, StackTop;
    var s' := BootStep(c, s);
    forall k | 0 <= k < |s'.aps|
      ensures ApOk(s', k)
    {
      assert ApOk(s, k);
    }
  }

  lemma StackAp(s: State, j: nat)
    requires StackInv(s) && j < |s.aps|
    ensures StackInv(ApStep(s, j))
  {
    hide StackTop;
    var s' := ApStep(s, j);
    assert ApOk(s, j);
    forall k | 0 <= k < |s'.aps|
      ensures ApOk(s', k)
    {
      assert ApOk(s, k);
    }
  }

  lemma StackTimeout(c: Config, s: State)
    requires StackInv(s) && Enabled(c, s, Timeout)
    ensures StackInv(s.(cpu := s.cpu + 1, pc := NextCpu))
  {
    hide StackTop;
    var s' := s.(cpu := s.cpu + 1, pc := NextCpu);
    forall k | 0 <= k < |s'.aps|
      ensures ApOk(s', k)
    {
      assert ApOk(s, k);
    }
  }

  lemma StackStep(c: Config, s: State, e: Event)
    requires BarrierInv(c, s) && StackInv(s) && Enabled(c, s, e) && !Clobbers(s, e)
    ensures StackInv(Next(c, s, e))
  {
    hide StackInv, BootStep, ApStep, Count;
    match e
    case Boot => StackBoot(c, s);
    case Timeout => StackTimeout(c, s);
    case Step(j) => StackAp(s, j);
  }

  /** Processor `k` has been passed by, and has read or will read a stack that is not its own. */
  predicate Misled(s: State, k: nat)
    requires k < |s.aps|
  {
    && k < s.cpu
    && match s.aps[k]
       case Woken => s.slotStack != StackTop(k)
       case HasStack(st) => st != StackTop(k)
       case HasEntry(st, _) => st != StackTop(k)
       case CheckedIn(st) => st != StackTop(k)
       case Working(st) => st != StackTop(k)
       case Lost => true
       case _ => false
  }

  /** A clobbering store misleads a processor. */
  lemma ClobberMisleads(c: Config, s: State, e: Event) returns (k: nat)
    requires BarrierInv(c, s) && Enabled(c, s, e) && Clobbers(s, e)
    ensures k < |s.aps| && s.aps[k].Woken? && k != c.boot && k < s.cpu && Misled(Next(c, s, e), k)
  {
    hide Count;
    k :| 0 <= k < |s.aps| && s.aps[k].Woken?;
    StackTopInjective(k, s.cpu);
  }

  /** And no later step puts it right. */
  lemma MisledStays(c: Config, s: State, e: Event, k: nat)
    requires BarrierInv(c, s) && Enabled(c, s, e) && k < |s.aps| && Misled(s, k)
    ensures Misled(Next(c, s, e), k)
  {
    hide Count, StackTop;
    StackTopInjective(k, s.cpu);
  }

  lemma MisledNotOk(s: State, k: nat)
    requires k < |s.aps| && Misled(s, k)
    ensures !StackInv(s)
  {
    assert !ApOk(s, k);
  }

  /** The step-level condition: a step keeps every processor on its own stack if and only if it is not
      the clobbering store. */
  lemma StackStepIff(c: Config, s: State, e: Event)
    requires BarrierInv(c, s) && StackInv(s) && Enabled(c, s, e)
    ensures StackInv(Next(c, s, e)) <==> !Clobbers(s, e)
  {
    hide StackInv, Clobbers, Misled, Count;
    if Clobbers(s, e) {
      var k := ClobberMisleads(c, s, e);
      MisledNotOk(Next(c, s, e), k);
    } else {
      StackStep(c, s, e);
    }
  }

  /** While the boot processor may still repatch the slots, every processor started before has checked
      in, and the wait target is the next check-in. */
  predicate InOrder(c: Config, s: State) {
    && (forall k :: 0 <= k < s.cpu && k < |s.aps| && k != c.boot ==> Checked(s.aps[k]))
    && (InLoop(s.pc) && !s.pc.ReadStarted? && s.cpu < |s.aps| ==>
          s.target == s.started + (if Checked(s.aps[s.cpu]) then 0 else 1))
  }

  lemma OrderStep(c: Config, s: State, e: Event)
    requires BarrierInv(c, s) && InOrder(c, s) && Enabled(c, s, e) && !e.Timeout?
    ensures InOrder(c, Next(c, s, e))
  {
    hide Count, StackTop;
    var s' := Next(c, s, e);
    forall k | 0 <= k < s'.cpu && k < |s'.aps| && k != c.boot
      ensures Checked(s'.aps[k])
    {
      if k < s.cpu {
        assert Checked(s.aps[k]);
      }
    }
    if e.Step? {
      OrderAp(c, s, e.ap);
    }
  }

  lemma OrderAp(c: Config, s: State, k: nat)
    requires BarrierInv(c, s) && InOrder(c, s) && Enabled(c, s, Step(k))
    ensures k <= s.cpu
    ensures var s' := ApStep(s, k);
            s.cpu < |s.aps| ==>
              s'.started + (if Checked(s'.aps[s.cpu]) then 0 else 1) == s.started + (if Checked(s.aps[s.cpu]) then 0 else 1)
  {
    hide Count, StackTop;
    if k < s.cpu {
      assert Checked(s.aps[k]);
    }
  }

  /** Some step of the run clobbers the slot. */
  predicate Clobbered(c: Config, run: seq<Event>)
    requires ConfigOk(c)
    decreases |run|
  {
    run != [] &&
    var init := run[..|run| - 1];
    Clobbered(c, init) || (RunOf(c, init).Some? && Clobbers(RunOf(c, init).value, run[|run| - 1]))
  }

  lemma StackTopInjective(a: nat, b: nat)
    ensures StackTop(a) == StackTop(b) <==> a == b
    ensures StackTop(a) >= 0x4000 && (a < b ==> StackTop(a) <= StackTop(b) - 0x4000)
    ensures a < 16 ==> StackTop(a) <= 16 * 0x4000
  {
  }

  predicate OnStack(a: Ap, st: nat) { (a.HasStack? || a.HasEntry? || a.CheckedIn? || a.Working?) && a.stack == st }

  ghost predicate Shares(s: State) {
    exists j, k, st :: 0 <= j < k < |s.aps| && OnStack(s.aps[j], st) && OnStack(s.aps[k], st)
  }

  lemma {:induction false} ClobberedMisled(c: Config, run: seq<Event>) returns (k: nat)
    requires ConfigOk(c) && RunOf(c, run).Some? && Clobbered(c, run)
    ensures k < c.cpus && Misled(RunOf(c, run).value, k)
    decreases |run|
  {
    hide Next, BarrierInv, Enabled, Clobbers, Misled;
    var init, e := run[..|run| - 1], run[|run| - 1];
    BarrierHolds(c, init);
    var s := RunOf(c, init).value;
    if Clobbered(c, init) {
      k := ClobberedMisled(c, init);
      MisledStays(c, s, e, k);
    } else {
      k := ClobberMisleads(c, s, e);
    }
  }

  /** In every run, timeouts or not: each processor is on its own stack, or will read its own, if and only
      if no step patched the slot under a woken processor; and then no two share a stack. */
  lemma {:induction false} StacksPrivateIff(c: Config, run: seq<Event>)
    requires ConfigOk(c) && RunOf(c, run).Some?
    ensures StackInv(RunOf(c, run).value) <==> !Clobbered(c, run)
    ensures !Clobbered(c, run) ==> !Shares(RunOf(c, run).value)
    decreases |run|
  {
    hide Next, BarrierInv, Enabled, Clobbers, StackInv, Shares, Misled;
    if Clobbered(c, run) {
      var k := ClobberedMisled(c, run);
      MisledNotOk(RunOf(c, run).value, k);
    } else {
      if run == [] {
        StartStacks(c);
      } else {
        var init := run[..|run| - 1];
        StacksPrivateIff(c, init);
        BarrierHolds(c, init);
        StackStep(c, RunOf(c, init).value, run[|run| - 1]);
      }
      NotShared(RunOf(c, run).value);
    }
  }

  lemma NotShared(s: State)
    requires StackInv(s)
    ensures !Shares(s)
  {
    hide StackTop;
    if Shares(s) {
      var j, k, st :| 0 <= j < k < |s.aps| && OnStack(s.aps[j], st) && OnStack(s.aps[k], st);
      assert ApOk(s, j) && ApOk(s, k);
      StackTopInjective(j, k);
    }
  }

  lemma StartStacks(c: Config)
    requires ConfigOk(c)
    ensures StackInv(Start(c)) && InOrder(c, Start(c))
  {
  }

  /** In a run without timeouts the slots are repatched only after the previous processor has read them
      and checked in; so nothing is ever clobbered. */
  lemma {:induction false} StartedInOrder(c: Config, run: seq<Event>)
    requires ConfigOk(c) && RunOf(c, run).Some? && Timeout !in run
    ensures InOrder(c, RunOf(c, run).value)
    ensures !Clobbered(c, run)
    decreases |run|
  {
    hide Next, BarrierInv, Enabled, InOrder, Clobbers;
    if run == [] {
      StartStacks(c);
    } else {
      var init, e := run[..|run| - 1], run[|run| - 1];
      assert Timeout !in init;
      assert e in run;
      StartedInOrder(c, init);
      BarrierHolds(c, init);
      var s := RunOf(c, init).value;
      OrderStep(c, s, e);
      OrderReads(c, s, e);
    }
  }

  lemma OrderReads(c: Config, s: State, e: Event)
    requires BarrierInv(c, s) && InOrder(c, s)
    ensures !Clobbers(s, e)
  {
  }

  /** All the guarantees of a run without timeouts. */
  lemma NoTimeoutSafe(c: Config, run: seq<Event>)
    requires ConfigOk(c) && RunOf(c, run).Some? && Timeout !in run
    ensures var s := RunOf(c, run).value;
            && InOrder(c, s) && StackInv(s) && !Shares(s)
            && (s.pc.Done? ==> s.started == c.cpus - 1)
  {
    hide InOrder, StackInv, RunOf, Shares;
    StartedInOrder(c, run);
    StacksPrivateIff(c, run);
    BarrierHolds(c, run);
  }

  // ----- progress ----------------------------------------------------------

  /** Between the IPIs and the wait the processor being started is awake, and the final wait begins after
      the last number. */
  predicate AwakeInv(c: Config, s: State) {
    && (s.pc.Sipi1? && s.cpu < |s.aps| ==> s.aps[s.cpu].WaitSipi?)
    && ((s.pc.Sipi2? || s.pc.Wait?) && s.cpu < |s.aps| ==> !s.aps[s.cpu].Off? && !s.aps[s.cpu].WaitSipi?)
    && (s.pc.FinalWait? || s.pc.Done? ==> s.cpu >= c.cpus)
  }

  lemma AwakeStep(c: Config, s: State, e: Event)
    requires BarrierInv(c, s) && AwakeInv(c, s) && Enabled(c, s, e)
    ensures AwakeInv(c, Next(c, s, e))
  {
    hide Count, StackTop;
  }

  lemma {:induction false} AwakeHolds(c: Config, run: seq<Event>)
    requires ConfigOk(c) && RunOf(c, run).Some?
    ensures AwakeInv(c, RunOf(c, run).value)
    decreases |run|
  {
    hide Next, BarrierInv, Enabled, AwakeInv;
    if run == [] {
      StartAwake(c);
    } else {
      var init := run[..|run| - 1];
      AwakeHolds(c, init);
      BarrierHolds(c, init);
      AwakeStep(c, RunOf(c, init).value, run[|run| - 1]);
    }
  }

  lemma StartAwake(c: Config)
    requires ConfigOk(c)
    ensures AwakeInv(c, Start(c))
  {
  }

  /** The wait for a processor, in every state reached without timeouts: the boot processor goes on to the
      next number if that processor has checked in, and otherwise stays. */
  lemma WaitEndsIff(c: Config, run: seq<Event>)
    requires ConfigOk(c) && RunOf(c, run).Some? && Timeout !in run && RunOf(c, run).value.pc.Wait?
    ensures var s := RunOf(c, run).value;
            && s.cpu < |s.aps|
            && BootStep(c, s) == if Checked(s.aps[s.cpu]) then s.(cpu := s.cpu + 1, pc := NextCpu) else s
  {
    hide RunOf, Count;
    BarrierHolds(c, run);
    StartedInOrder(c, run);
  }

  /** Steps the processor being started has still to take. */
  function ApRank(a: Ap): (n: nat)
    ensures n <= 3
  {
    match a case Woken => 3 case HasStack(_) => 2 case HasEntry(_, _) => 1 case _ => 0
  }

  function PcRank(s: State): (n: nat)
    ensures n <= 12
  {
    match s.pc
    case NextCpu => 12 case ReadStarted => 11 case PatchStack => 10 case PatchEntry => 9 case SendInit => 8
    case Sipi1 => 7 case Sipi2 => 6
    case Wait => if s.cpu < |s.aps| then 2 + ApRank(s.aps[s.cpu]) else 2
    case FinalWait => 1
    case Done => 0
  }

  function ToGo(c: Config, s: State): (n: nat)
  {
    (if s.cpu < c.cpus then 16 * (c.cpus - s.cpu) else 0) + PcRank(s)
  }

  /** An event that brings the start-up closer to its end. */
  function NextGood(s: State): (e: Event)
    ensures e != Timeout
  {
    if s.pc.Wait? && s.cpu < |s.aps| && !Checked(s.aps[s.cpu]) then Step(s.cpu) else Boot
  }

  lemma GoodProgress(c: Config, s: State)
    requires BarrierInv(c, s) && StackInv(s) && InOrder(c, s) && AwakeInv(c, s) && s.pc != Done
    ensures Enabled(c, s, NextGood(s))
    ensures var s' := Next(c, s, NextGood(s)); s'.cpu <= c.cpus && ToGo(c, s') < ToGo(c, s)
  {
    hide Count, StackTop;
    if s.pc.Wait? {
      assert ApOk(s, s.cpu);
    } else if s.pc.FinalWait? {
      AllIn(c, s);
    }
  }

  lemma AllIn(c: Config, s: State)
    requires BarrierInv(c, s) && InOrder(c, s) && s.cpu >= c.cpus
    ensures s.started == s.expected
  {
    CountAllButOne(s.aps, c.boot);
  }

  /** No deadlock: every run without timeouts can be continued, without timeouts, until `smp_init` returns,
      and then every application processor has checked in. */
  lemma {:induction false} CanFinish(c: Config, run: seq<Event>) returns (run': seq<Event>)
    requires ConfigOk(c) && RunOf(c, run).Some? && Timeout !in run
    ensures run <= run' && RunOf(c, run').Some? && Timeout !in run'
    ensures var s := RunOf(c, run').value;
            && s.pc == Done && s.started == c.cpus - 1
            && forall k :: 0 <= k < c.cpus && k != c.boot ==> Checked(s.aps[k])
    decreases ToGo(c, RunOf(c, run).value)
  {
    hide RunOf, Next, Enabled, BarrierInv, StackInv, InOrder, AwakeInv, ToGo, NextGood;
    var s := RunOf(c, run).value;
    BarrierHolds(c, run);
    if s.pc == Done {
      run' := run;
    } else {
      NoTimeoutSafe(c, run);
      AwakeHolds(c, run);
      GoodProgress(c, s);
      RunSnoc(c, run, NextGood(s), s);
      run' := CanFinish(c, run + [NextGood(s)]);
    }
  }

  // ----- what a timeout can do ---------------------------------------------

  lemma RunSnoc(c: Config, run: seq<Event>, e: Event, s: State)
    requires ConfigOk(c) && RunOf(c, run) == Some(s) && Enabled(c, s, e)
    ensures RunOf(c, run + [e]) == Some(Next(c, s, e))
  {
    assert (run + [e])[..|run + [e]| - 1] == run;
  }

  /** The boot processor, about to start a processor, has patched the slots and woken it. */
  function Launching(c: Config, s: State): (s': State)
    requires |s.aps| == c.cpus && s.cpu < c.cpus
  {
    s.(slotStack := StackTop(s.cpu), slotEntry := AP_MAIN, pc := Wait, aps := s.aps[s.cpu := Woken])
  }

  /** Five steps of the boot processor start a processor. */
  lemma Launch(c: Config, run: seq<Event>, s: State) returns (run': seq<Event>)
    requires ConfigOk(c) && RunOf(c, run) == Some(s) && s.pc.PatchStack? && s.cpu < c.cpus
    ensures run <= run' && RunOf(c, run') == Some(Launching(c, s))
  {
    hide RunOf, StackTop;
    var s1 := BootStep(c, s);
    RunSnoc(c, run, Boot, s);
    var s2 := BootStep(c, s1);
    RunSnoc(c, run + [Boot], Boot, s1);
    run' := LaunchIpis(c, run + [Boot] + [Boot], s2);
    assert s.aps[s.cpu := WaitSipi][s.cpu := Woken] == s.aps[s.cpu := Woken];
  }

  lemma LaunchIpis(c: Config, run: seq<Event>, s: State) returns (run': seq<Event>)
    requires ConfigOk(c) && RunOf(c, run) == Some(s) && s.pc.SendInit? && s.cpu < |s.aps|
    ensures run <= run' && RunOf(c, run') == Some(s.(pc := Wait, aps := s.aps[s.cpu := WaitSipi][s.cpu := Woken]))
  {
    hide RunOf;
    var s1 := BootStep(c, s);
    RunSnoc(c, run, Boot, s);
    var s2 := BootStep(c, s1);
    RunSnoc(c, run + [Boot], Boot, s1);
    var s3 := BootStep(c, s2);
    RunSnoc(c, run + [Boot] + [Boot], Boot, s2);
    run' := run + [Boot] + [Boot] + [Boot];
  }

  /** Two steps take the boot processor from the head of its loop to the store. */
  lemma Approach(c: Config, run: seq<Event>, s: State) returns (run': seq<Event>)
    requires ConfigOk(c) && RunOf(c, run) == Some(s) && s.pc.NextCpu? && s.cpu < c.cpus && s.cpu != c.boot
    ensures run <= run' && RunOf(c, run') == Some(s.(target := s.started + 1, pc := PatchStack))
  {
    hide RunOf;
    RunSnoc(c, run, Boot, s);
    var s1 := BootStep(c, s);
    RunSnoc(c, run + [Boot], Boot, s1);
    run' := run + [Boot] + [Boot];
  }

  /** Every clobbering store, in whatever run, can be continued to two processors on one stack. */
  lemma ClobberLeadsToSharing(c: Config, run: seq<Event>) returns (run': seq<Event>)
    requires ConfigOk(c) && RunOf(c, run).Some? && Clobbers(RunOf(c, run).value, Boot)
    ensures run <= run' && RunOf(c, run').Some? && Shares(RunOf(c, run').value)
  {
    hide RunOf, StackTop, BarrierInv;
    var s := RunOf(c, run).value;
    BarrierHolds(c, run);
    BootInRange(c, s);
    var k := ClobberMisleads(c, s, Boot);
    run' := Launch(c, run, s);
    var s1 := Launching(c, s);
    RunSnoc(c, run', Step(k), s1);
    var s2 := Next(c, s1, Step(k));
    RunSnoc(c, run' + [Step(k)], Step(s.cpu), s2);
    var s3 := Next(c, s2, Step(s.cpu));
    run' := run' + [Step(k)] + [Step(s.cpu)];
    assert OnStack(s3.aps[k], StackTop(s.cpu)) && OnStack(s3.aps[s.cpu], StackTop(s.cpu));
  }

  lemma BootInRange(c: Config, s: State)
    requires BarrierInv(c, s) && s.pc.PatchStack?
    ensures s.cpu < c.cpus && s.cpu != c.boot
  {
  }

  /** From the head of the loop with a processor just woken, a timeout and at most three more steps lead to
      the clobbering store for processor `next`. */
  lemma TimeoutClobbers(c: Config, run: seq<Event>, s: State, next: nat) returns (run': seq<Event>)
    requires ConfigOk(c) && RunOf(c, run) == Some(s) && s.pc.Wait? && s.started < s.target
    requires s.cpu < c.cpus && s.aps[s.cpu].Woken?
    requires s.cpu < next < c.cpus && next != c.boot && (next == s.cpu + 1 || (next == s.cpu + 2 && s.cpu + 1 == c.boot))
    ensures run <= run' && RunOf(c, run').Some? && Clobbers(RunOf(c, run').value, Boot)
  {
    hide RunOf, StackTop;
    RunSnoc(c, run, Timeout, s);
    var s1 := Next(c, s, Timeout);
    run' := run + [Timeout];
    if next != s1.cpu {
      RunSnoc(c, run', Boot, s1);
      s1 := BootStep(c, s1);
      run' := run' + [Boot];
    }
    run' := Approach(c, run', s1);
    assert s1.aps[s.cpu].Woken?;
  }

  /** So the code lets two processors share a stack exactly when there are two to start. */
  lemma SharingPossibleIff(c: Config)
    requires ConfigOk(c)
    ensures (exists run :: RunOf(c, run).Some? && Shares(RunOf(c, run).value)) <==> c.cpus >= 3
  {
    hide RunOf, StackTop, Shares, Clobbers;
    if c.cpus >= 3 {
      var s := Start(c);
      EmptyRun(c);
      var run := [];
      if c.boot == 0 {
        RunSnoc(c, run, Boot, s);
        s := BootStep(c, s);
        run := run + [Boot];
      }
      run := Approach(c, run, s);
      s := s.(target := s.started + 1, pc := PatchStack);
      run := Launch(c, run, s);
      s := Launching(c, s);
      run := TimeoutClobbers(c, run, s, if s.cpu + 1 == c.boot then s.cpu + 2 else s.cpu + 1);
      run := ClobberLeadsToSharing(c, run);
    } else if exists run :: RunOf(c, run).Some? && Shares(RunOf(c, run).value) {
      var run :| RunOf(c, run).Some? && Shares(RunOf(c, run).value);
      BarrierHolds(c, run);
      SharersAreTwo(c, RunOf(c, run).value);
    }
  }

  lemma SharersAreTwo(c: Config, s: State)
    requires BarrierInv(c, s) && Shares(s)
    ensures c.cpus >= 3
  {
  }

  lemma EmptyRun(c: Config)
    requires ConfigOk(c)
    ensures RunOf(c, []) == Some(Start(c))
  {
  }
}
