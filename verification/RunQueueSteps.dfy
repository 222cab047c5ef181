/** The run queue shared by all CPUs, one load or store at a time.

    Any number of CPUs interleave single steps of `scheduler_enqueue` and `scheduler_dequeue`; the
    spinlock is a test-and-set.  Every completed call leaves a label at its unlock, and the theorem is
    that the labels of any run are a history of one plain FIFO sequence. */
module RunQueueSteps {
  import opened Bits
  import opened Options

  datatype Ptr = Null | To(task: nat)

  datatype TaskState = READY | RUNNING | BLOCKED | DEAD

  /** `next` and `state` are the fields of the tasks, by task number. */
  datatype Shared = Shared(locked: bool, head: Ptr, tail: Ptr, count: nat, next: seq<Ptr>, state: seq<TaskState>)

  /** The next instruction of a CPU. */
  datatype Pc =
    | Idle
    | EnqState | EnqNext | EnqLock | EnqTest
    | EnqHead | EnqTailEmpty | EnqLoadTail | EnqLink | EnqTail
    | EnqLoadCount | EnqStoreCount | EnqUnlock
    | DeqLock | DeqLoadHead | DeqLoadNext | DeqStoreHead | DeqTestHead | DeqClearTail
    | DeqLoadCount | DeqStoreCount | DeqClearNext | DeqUnlock

  /** `task` is the argument or result, `reg` and `cnt` are registers. */
  datatype Cpu = Cpu(pc: Pc, task: Ptr, reg: Ptr, cnt: nat)

  datatype Label = Tau | Enq(task: nat) | Deq(result: Ptr)

  predicate Enqueuing(c: Cpu) {
    match c.pc
    case EnqState | EnqNext | EnqLock | EnqTest | EnqHead | EnqTailEmpty | EnqLoadTail | EnqLink | EnqTail
      | EnqLoadCount | EnqStoreCount | EnqUnlock => true
    case _ => false
  }

  /** Between a successful test-and-set and the release. */
  predicate Critical(c: Cpu) {
    match c.pc
    case Idle | EnqState | EnqNext | EnqLock | DeqLock => false
    case _ => true
  }

  predicate SharedOk(sh: Shared) { |sh.next| == |sh.state| }

  predicate Pointers(sh: Shared, c: Cpu) {
    && (c.task.To? ==> c.task.task < |sh.next|)
    && (c.reg.To? ==> c.reg.task < |sh.next|)
    && (Enqueuing(c) ==> c.task.To?)
    && (c.pc.DeqLoadNext? || c.pc.DeqClearNext? ==> c.task.To?)
    && (c.pc.EnqLink? ==> c.reg.To?)
  }

  /** One instruction. */
  function Instr(sh: Shared, c: Cpu): (r: (Shared, Cpu, Label))
    requires SharedOk(sh) && Pointers(sh, c)
  {
    match c.pc
    case Idle => (sh, c, Tau)
    case EnqState => (sh.(state := sh.state[c.task.task := READY]), c.(pc := EnqNext), Tau)
    case EnqNext => (sh.(next := sh.next[c.task.task := Null]), c.(pc := EnqLock), Tau)
    case EnqLock => if sh.locked then (sh, c, Tau) else (sh.(locked := true), c.(pc := EnqTest), Tau)
    case EnqTest => (sh, c.(pc := if sh.tail.Null? then EnqHead else EnqLoadTail), Tau)
    case EnqHead => (sh.(head := c.task), c.(pc := EnqTailEmpty), Tau)
    case EnqTailEmpty => (sh.(tail := c.task), c.(pc := EnqLoadCount), Tau)
    case EnqLoadTail => (sh, c.(pc := EnqLink, reg := sh.tail), Tau)
    case EnqLink => (sh.(next := sh.next[c.reg.task := c.task]), c.(pc := EnqTail), Tau)
    case EnqTail => (sh.(tail := c.task), c.(pc := EnqLoadCount), Tau)
    case EnqLoadCount => (sh, c.(pc := EnqStoreCount, cnt := sh.count), Tau)
    case EnqStoreCount => (sh.(count := (c.cnt + 1) % U32), c.(pc := EnqUnlock), Tau)
    case EnqUnlock => (sh.(locked := false), c.(pc := Idle), Enq(c.task.task))
    case DeqLock => if sh.locked then (sh, c, Tau) else (sh.(locked := true), c.(pc := DeqLoadHead), Tau)
    case DeqLoadHead => (sh, c.(pc := if sh.head.Null? then DeqUnlock else DeqLoadNext, task := sh.head), Tau)
    case DeqLoadNext => (sh, c.(pc := DeqStoreHead, reg := sh.next[c.task.task]), Tau)
    case DeqStoreHead => (sh.(head := c.reg), c.(pc := DeqTestHead), Tau)
    case DeqTestHead => (sh, c.(pc := if sh.head.Null? then DeqClearTail else DeqLoadCount), Tau)
    case DeqClearTail => (sh.(tail := Null), c.(pc := DeqLoadCount), Tau)
    case DeqLoadCount => (sh, c.(pc := DeqStoreCount, cnt := sh.count), Tau)
    case DeqStoreCount => (sh.(count := (c.cnt - 1) % U32), c.(pc := DeqClearNext), Tau)
    case DeqClearNext => (sh.(next := sh.next[c.task.task := Null]), c.(pc := DeqUnlock), Tau)
    case DeqUnlock => (sh.(locked := false), c.(pc := Idle), Deq(c.task))
  }

  // ----- the reference: one plain sequence ---------------------------------

  function FifoStep(q: seq<nat>, l: Label): (r: Option<seq<nat>>)
  {
    match l
    case Tau => Some(q)
    case Enq(t) => Some(q + [t])
    case Deq(Null) => if q == [] then Some(q) else None
    case Deq(To(t)) => if q != [] && q[0] == t then Some(q[1..]) else None
  }

  /** The queue a history of completed calls leaves, if it is a history of a FIFO at all. */
  function Replay(h: seq<Label>): (r: Option<seq<nat>>)
  {
    if h == [] then Some([])
    else
      match Replay(h[..|h| - 1])
      case None => None
      case Some(q) => FifoStep(q, h[|h| - 1])
  }

  // ----- what the linked list holds ----------------------------------------

  predicate Distinct(q: seq<nat>) { forall i, j :: 0 <= i < j < |q| ==> q[i] != q[j] }

  function First(q: seq<nat>): (p: Ptr) { if q == [] then Null else To(q[0]) }
  function Last(q: seq<nat>): (p: Ptr) { if q == [] then Null else To(q[|q| - 1]) }

  /** Acyclic and null-terminated: the `next` fields run through `q` in order. */
  predicate Chain(next: seq<Ptr>, q: seq<nat>) {
    forall k :: 0 <= k < |q| ==> q[k] < |next| && next[q[k]] == Successor(q, k)
  }

  function Successor(q: seq<nat>, k: nat): (p: Ptr)
    requires k < |q|
  {
    if k + 1 < |q| then To(q[k + 1]) else Null
  }

  predicate ListIs(sh: Shared, q: seq<nat>) {
    Chain(sh.next, q) && sh.head == First(q) && sh.tail == Last(q)
  }

  /** The half-finished list an enqueuing CPU has produced from the queue `q`. */
  predicate EnqInv(sh: Shared, c: Cpu, q: seq<nat>)
    requires Critical(c) && Enqueuing(c) && Pointers(sh, c)
  {
    var t := c.task.task;
    && t !in q && sh.next[t] == Null
    && match c.pc
       case EnqTest => ListIs(sh, q) && sh.count == |q| % U32
       case EnqHead => q == [] && ListIs(sh, q) && sh.count == |q| % U32
       case EnqTailEmpty => q == [] && sh.head == To(t) && sh.count == |q| % U32
       case EnqLoadTail => q != [] && ListIs(sh, q) && sh.count == |q| % U32
       case EnqLink => q != [] && ListIs(sh, q) && c.reg == Last(q) && sh.count == |q| % U32
       case EnqTail => q != [] && Chain(sh.next, q + [t]) && sh.head == First(q) && sh.count == |q| % U32
       case EnqLoadCount => ListIs(sh, q + [t]) && sh.count == |q| % U32
       case EnqStoreCount => ListIs(sh, q + [t]) && c.cnt == |q| % U32
       case EnqUnlock => ListIs(sh, q + [t]) && sh.count == (|q| + 1) % U32
  }

  /** The half-finished list a dequeuing CPU has produced from the queue `q`. */
  predicate DeqInv(sh: Shared, c: Cpu, q: seq<nat>)
    requires Critical(c) && !Enqueuing(c) && Pointers(sh, c)
  {
    match c.pc
    case DeqLoadHead => ListIs(sh, q) && sh.count == |q| % U32
    case DeqLoadNext => q != [] && c.task == First(q) && ListIs(sh, q) && sh.count == |q| % U32
    case DeqStoreHead =>
      q != [] && c.task == First(q) && ListIs(sh, q) && c.reg == First(q[1..]) && sh.count == |q| % U32
    case DeqTestHead =>
      q != [] && c.task == First(q) && Chain(sh.next, q) && sh.head == First(q[1..]) && sh.tail == Last(q)
      && sh.count == |q| % U32
    case DeqClearTail =>
      q != [] && c.task == First(q) && Chain(sh.next, q) && sh.head == First(q[1..]) && q[1..] == []
      && sh.count == |q| % U32
    case DeqLoadCount => q != [] && c.task == First(q) && ListIs(sh, q[1..]) && sh.count == |q| % U32
    case DeqStoreCount => q != [] && c.task == First(q) && ListIs(sh, q[1..]) && c.cnt == |q| % U32
    case DeqClearNext => q != [] && c.task == First(q) && ListIs(sh, q[1..]) && sh.count == (|q| - 1) % U32
    case DeqUnlock =>
      if q == [] then c.task == Null && ListIs(sh, q) && sh.count == |q| % U32
      else c.task == First(q) && ListIs(sh, q[1..]) && sh.count == (|q| - 1) % U32
  }

  predicate CriticalInv(sh: Shared, c: Cpu, q: seq<nat>)
    requires Critical(c) && Pointers(sh, c)
  {
    if Enqueuing(c) then EnqInv(sh, c, q) else DeqInv(sh, c, q)
  }

  /** What a step inside a critical section guarantees to everybody else. */
  predicate StepFrame(sh: Shared, c: Cpu, q: seq<nat>, sh': Shared, c': Cpu, l: Label) {
    && l == Tau && sh'.locked == sh.locked && sh'.state == sh.state && |sh'.next| == |sh.next|
    && Critical(c') && Enqueuing(c') == Enqueuing(c) && (Enqueuing(c) ==> c'.task == c.task)
    && (forall t :: 0 <= t < |sh.next| && t !in q ==> sh'.next[t] == sh.next[t])
  }

  /** A step inside the critical section keeps the half-finished list right and touches the `next`
      field of no task outside the queue. */
  predicate StepOk(sh: Shared, c: Cpu, q: seq<nat>)
    requires SharedOk(sh) && Pointers(sh, c)
  {
    var (sh', c', l) := Instr(sh, c);
    StepFrame(sh, c, q, sh', c', l) && SharedOk(sh') && Pointers(sh', c') && CriticalInv(sh', c', q)
  }

  lemma EnqEmptySteps(sh: Shared, c: Cpu, q: seq<nat>)
    requires SharedOk(sh) && Pointers(sh, c) && (c.pc.EnqTest? || c.pc.EnqHead? || c.pc.EnqTailEmpty?)
    requires EnqInv(sh, c, q)
    ensures StepOk(sh, c, q)
  {
    assert q == [] ==> q + [c.task.task] == [c.task.task];
  }

  lemma EnqLinkSteps(sh: Shared, c: Cpu, q: seq<nat>)
    requires SharedOk(sh) && Pointers(sh, c) && (c.pc.EnqLoadTail? || c.pc.EnqLink? || c.pc.EnqTail?)
    requires EnqInv(sh, c, q) && Distinct(q)
    ensures StepOk(sh, c, q)
  {
    hide Chain, Distinct;
    if c.pc.EnqLink? {
      LinkAtEnd(sh.next, q, c.task.task);
      var last := q[|q| - 1];
      var next' := sh.next[last := c.task];
      assert forall t :: 0 <= t < |sh.next| && t !in q ==> next'[t] == sh.next[t];
      assert Instr(sh, c) == (sh.(next := next'), c.(pc := EnqTail), Tau);
    } else if c.pc.EnqLoadTail? {
      ChainEnd(sh.next, q);
    }
    assert First(q + [c.task.task]) == First(q);
  }

  lemma CountSteps(sh: Shared, c: Cpu, q: seq<nat>)
    requires SharedOk(sh) && Pointers(sh, c)
    requires c.pc.EnqLoadCount? || c.pc.EnqStoreCount? || c.pc.DeqLoadCount? || c.pc.DeqStoreCount?
    requires CriticalInv(sh, c, q)
    ensures StepOk(sh, c, q)
  {
    hide Chain, Last;
    WrapSucc(|q|);
  }

  lemma WrapSucc(n: nat)
    ensures (n % U32 + 1) % U32 == (n + 1) % U32
    ensures n > 0 ==> (n % U32 - 1) % U32 == (n - 1) % U32
  {
  }

  lemma DeqHeadSteps(sh: Shared, c: Cpu, q: seq<nat>)
    requires SharedOk(sh) && Pointers(sh, c) && (c.pc.DeqLoadHead? || c.pc.DeqLoadNext? || c.pc.DeqStoreHead?)
    requires DeqInv(sh, c, q)
    ensures StepOk(sh, c, q)
  {
    hide Chain, Last;
    if q != [] {
      ChainTail(sh.next, q);
    }
  }

  lemma DeqTailSteps(sh: Shared, c: Cpu, q: seq<nat>)
    requires SharedOk(sh) && Pointers(sh, c) && (c.pc.DeqTestHead? || c.pc.DeqClearTail?)
    requires DeqInv(sh, c, q)
    ensures StepOk(sh, c, q)
  {
    hide Chain;
    ChainTail(sh.next, q);
  }

  lemma DeqClearStep(sh: Shared, c: Cpu, q: seq<nat>)
    requires SharedOk(sh) && Pointers(sh, c) && c.pc.DeqClearNext?
    requires DeqInv(sh, c, q) && Distinct(q)
    ensures StepOk(sh, c, q)
  {
    hide Chain, Distinct, Last;
    DropFirst(q);
    ClearOutside(sh.next, q[1..], q[0]);
    var next' := sh.next[q[0] := Null];
    assert forall t :: 0 <= t < |sh.next| && t !in q ==> next'[t] == sh.next[t];
    assert Instr(sh, c) == (sh.(next := next'), c.(pc := DeqUnlock), Tau);
  }

  lemma CriticalStep(sh: Shared, c: Cpu, q: seq<nat>)
    requires SharedOk(sh) && Pointers(sh, c) && Critical(c) && CriticalInv(sh, c, q) && Distinct(q)
    requires c.pc != EnqUnlock && c.pc != DeqUnlock
    ensures StepOk(sh, c, q)
  {
    hide StepOk, ListIs, Distinct, Instr;
    match c.pc
    case EnqTest | EnqHead | EnqTailEmpty => EnqEmptySteps(sh, c, q);
    case EnqLoadTail | EnqLink | EnqTail => EnqLinkSteps(sh, c, q);
    case EnqLoadCount | EnqStoreCount | DeqLoadCount | DeqStoreCount => CountSteps(sh, c, q);
    case DeqLoadHead | DeqLoadNext | DeqStoreHead => DeqHeadSteps(sh, c, q);
    case DeqTestHead | DeqClearTail => DeqTailSteps(sh, c, q);
    case DeqClearNext => DeqClearStep(sh, c, q);
  }

  lemma ChainEnd(next: seq<Ptr>, q: seq<nat>)
    requires q != [] && Chain(next, q)
    ensures InRange(Last(q), |next|)
  {
  }

  lemma ClearOutside(next: seq<Ptr>, q: seq<nat>, t: nat)
    requires Chain(next, q) && t !in q && t < |next|
    ensures Chain(next[t := Null], q)
  {
  }

  lemma DropFirst(q: seq<nat>)
    requires q != [] && Distinct(q)
    ensures Distinct(q[1..]) && q[0] !in q[1..]
    ensures forall t :: t in q[1..] ==> t in q
  {
  }

  lemma AppendDistinct(q: seq<nat>, t: nat)
    requires Distinct(q) && t !in q
    ensures Distinct(q + [t])
  {
  }

  lemma LinkAtEnd(next: seq<Ptr>, q: seq<nat>, t: nat)
    requires q != [] && Chain(next, q) && Distinct(q) && t !in q && t < |next| && next[t] == Null
    ensures Chain(next[q[|q| - 1] := To(t)], q + [t])
  {
    var next' := next[q[|q| - 1] := To(t)];
    var q' := q + [t];
    forall k | 0 <= k < |q'|
      ensures q'[k] < |next'| && next'[q'[k]] == Successor(q', k)
    {
      if k < |q| - 1 {
        assert q'[k] == q[k] != q[|q| - 1];
        assert next[q[k]] == Successor(q, k);
      }
    }
  }

  predicate InRange(p: Ptr, n: nat) { p.To? ==> p.task < n }

  lemma ChainTail(next: seq<Ptr>, q: seq<nat>)
    requires q != [] && Chain(next, q)
    ensures Chain(next, q[1..]) && next[q[0]] == First(q[1..])
    ensures InRange(First(q), |next|) && InRange(First(q[1..]), |next|)
    ensures q[1..] != [] ==> Last(q[1..]) == Last(q)
  {
    var r := q[1..];
    forall k | 0 <= k < |r|
      ensures r[k] < |next| && next[r[k]] == Successor(r, k)
    {
      assert r[k] == q[k + 1];
      assert next[q[k + 1]] == Successor(q, k + 1);
    }
    assert next[q[0]] == Successor(q, 0);
  }

  /** What the queue is once the critical section is left. */
  lemma UnlockStep(sh: Shared, c: Cpu, q: seq<nat>)
    requires SharedOk(sh) && Pointers(sh, c) && Critical(c) && CriticalInv(sh, c, q) && Distinct(q)
    requires c.pc == EnqUnlock || c.pc == DeqUnlock
    ensures var (sh', c', l) := Instr(sh, c);
            && FifoStep(q, l).Some? && sh' == sh.(locked := false) && c' == c.(pc := Idle)
            && var q' := FifoStep(q, l).value;
            && ListIs(sh', q') && sh'.count == |q'| % U32 && Distinct(q')
            && (c.pc == EnqUnlock ==> q' == q + [c.task.task])
            && (c.pc == DeqUnlock ==> forall t :: t in q' ==> t in q)
  {
  }

  // ----- all CPUs together -------------------------------------------------

  /** `history` records the labels of completed calls, in the order of their unlocks. */
  datatype State = State(sh: Shared, cpus: seq<Cpu>, history: seq<Label>)

  datatype Event =
    | Run(cpu: nat)                              // the CPU executes its next instruction
    | StartEnqueue(cpu: nat, task: nat)          // an idle CPU calls scheduler_enqueue
    | StartDequeue(cpu: nat)                     // an idle CPU calls scheduler_dequeue
    | WriteState(cpu: nat, task: nat, value: TaskState) // an idle CPU stores to task->state

  predicate BeingEnqueued(s: State, t: nat) {
    exists j :: 0 <= j < |s.cpus| && Enqueuing(s.cpus[j]) && s.cpus[j].task == To(t)
  }

  /** Callers own what they hand over: it is not queued, and nobody else is enqueuing it. */
  predicate Owned(s: State, t: nat) {
    && t < |s.sh.next|
    && (match Replay(s.history) case None => true case Some(q) => t !in q)
    && !BeingEnqueued(s, t)
  }

  predicate WellTyped(s: State) {
    SharedOk(s.sh) && forall i :: 0 <= i < |s.cpus| ==> Pointers(s.sh, s.cpus[i])
  }

  predicate Enabled(s: State, e: Event) {
    && e.cpu < |s.cpus|
    && match e
       case Run(i) => s.cpus[i].pc != Idle
       case StartEnqueue(i, t) => s.cpus[i].pc == Idle && Owned(s, t)
       case StartDequeue(i) => s.cpus[i].pc == Idle
       case WriteState(i, t, _) => s.cpus[i].pc == Idle && Owned(s, t)
  }

  function Step(s: State, e: Event): (s': State)
    requires WellTyped(s) && Enabled(s, e)
  {
    match e
    case Run(i) =>
      var (sh', c', l) := Instr(s.sh, s.cpus[i]);
      State(sh', s.cpus[i := c'], if l == Tau then s.history else s.history + [l])
    case StartEnqueue(i, t) => s.(cpus := s.cpus[i := Cpu(EnqState, To(t), Null, 0)])
    case StartDequeue(i) => s.(cpus := s.cpus[i := Cpu(DeqLock, Null, Null, 0)])
    case WriteState(i, t, v) => s.(sh := s.sh.(state := s.sh.state[t := v]))
  }

  /** Mutual exclusion, and the list against the queue the history describes. */
  predicate Exclusive(s: State) {
    && (forall i, j :: 0 <= i < |s.cpus| && 0 <= j < |s.cpus| && Critical(s.cpus[i]) && Critical(s.cpus[j]) ==> i == j)
    && (!s.sh.locked ==> forall i :: 0 <= i < |s.cpus| ==> !Critical(s.cpus[i]))
  }

  /** A CPU that is enqueuing has a private task whose fields it has prepared. */
  predicate EnqueuerOk(sh: Shared, c: Cpu, q: seq<nat>)
    requires SharedOk(sh) && Pointers(sh, c)
  {
    Enqueuing(c) ==>
      && c.task.task !in q
      && (!c.pc.EnqState? ==> sh.state[c.task.task] == READY)
      && (!c.pc.EnqState? && !c.pc.EnqNext? ==> sh.next[c.task.task] == Null)
  }

  predicate Inv(s: State, q: seq<nat>) {
    && WellTyped(s)
    && Replay(s.history) == Some(q)
    && Distinct(q)
    && (forall k :: 0 <= k < |q| ==> q[k] < |s.sh.state| && s.sh.state[q[k]] == READY)
    && Exclusive(s)
    && (forall i :: 0 <= i < |s.cpus| ==> EnqueuerOk(s.sh, s.cpus[i], q))
    && (forall i, j :: 0 <= i < j < |s.cpus| && Enqueuing(s.cpus[i]) && Enqueuing(s.cpus[j]) ==> s.cpus[i].task != s.cpus[j].task)
    && (forall i :: 0 <= i < |s.cpus| && Critical(s.cpus[i]) ==> CriticalInv(s.sh, s.cpus[i], q))
    && ((forall i :: 0 <= i < |s.cpus| ==> !Critical(s.cpus[i])) ==> ListIs(s.sh, q) && s.sh.count == |q| % U32)
  }

  function Initial(cpus: nat, tasks: nat): (s: State)
  {
    State(Shared(false, Null, Null, 0, seq(tasks, _ => Null), seq(tasks, _ => READY)), seq(cpus, _ => Cpu(Idle, Null, Null, 0)), [])
  }

  lemma InitialInv(cpus: nat, tasks: nat)
    ensures Inv(Initial(cpus, tasks), [])
  {
  }

  // ----- every step keeps the invariant ------------------------------------

  lemma ReplaySnoc(h: seq<Label>, q: seq<nat>, l: Label)
    requires Replay(h) == Some(q)
    ensures Replay(h + [l]) == FifoStep(q, l)
  {
    assert (h + [l])[..|h + [l]| - 1] == h;
  }

  lemma CriticalInstr(s: State, q: seq<nat>, i: nat)
    requires Inv(s, q) && i < |s.cpus| && Critical(s.cpus[i])
    requires s.cpus[i].pc != EnqUnlock && s.cpus[i].pc != DeqUnlock
    ensures Enabled(s, Run(i)) && Inv(Step(s, Run(i)), q)
  {
    hide Instr, Chain, ListIs, Distinct, EnqInv, DeqInv;
    var c := s.cpus[i];
    CriticalStep(s.sh, c, q);
    var (sh', c', l) := Instr(s.sh, c);
    var s' := Step(s, Run(i));
    assert s'.cpus[i] == c' && Critical(c') && CriticalInv(sh', c', q);
    OwnTask(sh', c', q);
    assert EnqueuerOk(s.sh, c, q);
    forall j | 0 <= j < |s'.cpus|
      ensures Pointers(sh', s'.cpus[j])
      ensures EnqueuerOk(sh', s'.cpus[j], q)
      ensures Critical(s'.cpus[j]) ==> j == i
    {
      assert EnqueuerOk(s.sh, s.cpus[j], q);
    }
  }

  /** Inside its critical section an enqueuer's task still ends the list. */
  lemma OwnTask(sh: Shared, c: Cpu, q: seq<nat>)
    requires Pointers(sh, c) && Critical(c) && CriticalInv(sh, c, q)
    ensures Enqueuing(c) ==> c.task.task !in q && sh.next[c.task.task] == Null
  {
  }

  lemma UnlockInstr(s: State, q: seq<nat>, i: nat) returns (q': seq<nat>)
    requires Inv(s, q) && i < |s.cpus| && (s.cpus[i].pc == EnqUnlock || s.cpus[i].pc == DeqUnlock)
    ensures Enabled(s, Run(i)) && Inv(Step(s, Run(i)), q')
    ensures var c := s.cpus[i];
            FifoStep(q, if c.pc == EnqUnlock then Enq(c.task.task) else Deq(c.task)) == Some(q')
  {
    hide Instr, Chain, Distinct, CriticalInv, First, Last, FifoStep, Replay, ListIs;
    var c := s.cpus[i];
    UnlockStep(s.sh, c, q);
    var (sh', c', l) := Instr(s.sh, c);
    q' := FifoStep(q, l).value;
    ReplaySnoc(s.history, q, l);
    var s' := Step(s, Run(i));
    UnlockLabel(s.sh, c);
    assert EnqueuerOk(s.sh, c, q);
    forall j | 0 <= j < |s'.cpus|
      ensures Pointers(sh', s'.cpus[j])
      ensures !Critical(s'.cpus[j])
      ensures EnqueuerOk(sh', s'.cpus[j], q')
    {
      assert EnqueuerOk(s.sh, s.cpus[j], q);
    }
    forall k | 0 <= k < |q'|
      ensures q'[k] < |sh'.state| && sh'.state[q'[k]] == READY
    {
      assert q'[k] in q';
      assert q'[k] in q || (c.pc == EnqUnlock && q'[k] == c.task.task);
    }
  }

  lemma UnlockLabel(sh: Shared, c: Cpu)
    requires SharedOk(sh) && Pointers(sh, c) && (c.pc == EnqUnlock || c.pc == DeqUnlock)
    ensures Instr(sh, c).2 == if c.pc == EnqUnlock then Enq(c.task.task) else Deq(c.task)
  {
  }

  /** Writing a `next` field outside the queue disturbs no half-finished list. */
  lemma CriticalFrame(sh: Shared, c: Cpu, q: seq<nat>, t: nat)
    requires SharedOk(sh) && Pointers(sh, c) && Critical(c) && CriticalInv(sh, c, q)
    requires t < |sh.next| && t !in q && (Enqueuing(c) ==> c.task != To(t))
    ensures CriticalInv(sh.(next := sh.next[t := Null]), c, q)
  {
    hide First, Last, Chain;
    ChainFrame(sh.next, q, t);
    if Enqueuing(c) {
      ChainFrame(sh.next, q + [c.task.task], t);
    } else if q != [] {
      ChainFrame(sh.next, q[1..], t);
    }
  }

  lemma ChainFrame(next: seq<Ptr>, q: seq<nat>, t: nat)
    requires t < |next| && t !in q
    ensures Chain(next, q) ==> Chain(next[t := Null], q)
  {
  }

  lemma PrepareInstr(s: State, q: seq<nat>, i: nat)
    requires Inv(s, q) && i < |s.cpus| && (s.cpus[i].pc == EnqState || s.cpus[i].pc == EnqNext)
    ensures Enabled(s, Run(i)) && Inv(Step(s, Run(i)), q)
  {
    hide Chain, Distinct, CriticalInv, First, Last;
    var c := s.cpus[i];
    var t := c.task.task;
    assert EnqueuerOk(s.sh, c, q);
    var (sh', c', l) := Instr(s.sh, c);
    var s' := Step(s, Run(i));
    ChainFrame(s.sh.next, q, t);
    forall j | 0 <= j < |s'.cpus|
      ensures Pointers(sh', s'.cpus[j])
      ensures EnqueuerOk(sh', s'.cpus[j], q)
      ensures Critical(s'.cpus[j]) <==> Critical(s.cpus[j])
      ensures Critical(s'.cpus[j]) ==> CriticalInv(sh', s'.cpus[j], q)
    {
      assert EnqueuerOk(s.sh, s.cpus[j], q);
      if Critical(s.cpus[j]) {
        CriticalFrame(s.sh, s.cpus[j], q, t);
        StateFrame(s.sh, s.cpus[j], q, sh'.state);
      }
    }
  }

  /** The half-finished lists do not depend on task states. */
  lemma StateFrame(sh: Shared, c: Cpu, q: seq<nat>, state: seq<TaskState>)
    requires Pointers(sh, c) && Critical(c) && CriticalInv(sh, c, q)
    ensures CriticalInv(sh.(state := state), c, q)
  {
    hide Chain, First, Last;
  }

  lemma LockInstr(s: State, q: seq<nat>, i: nat)
    requires Inv(s, q) && i < |s.cpus| && (s.cpus[i].pc == EnqLock || s.cpus[i].pc == DeqLock)
    ensures Enabled(s, Run(i)) && Inv(Step(s, Run(i)), q)
  {
    hide Chain, Distinct, First, Last;
    var c := s.cpus[i];
    assert EnqueuerOk(s.sh, c, q);
    var (sh', c', l) := Instr(s.sh, c);
    var s' := Step(s, Run(i));
    if s.sh.locked {
      assert s'.cpus == s.cpus;
    } else {
      forall j | 0 <= j < |s'.cpus|
        ensures Pointers(sh', s'.cpus[j])
        ensures EnqueuerOk(sh', s'.cpus[j], q)
        ensures Critical(s'.cpus[j]) ==> j == i
      {
        assert EnqueuerOk(s.sh, s.cpus[j], q);
      }
    }
  }

  lemma StartInstr(s: State, q: seq<nat>, e: Event)
    requires Inv(s, q) && Enabled(s, e) && !e.Run?
    ensures Inv(Step(s, e), q)
  {
    hide Chain, Distinct, First, Last, CriticalInv;
    var s' := Step(s, e);
    forall j | 0 <= j < |s'.cpus|
      ensures Pointers(s'.sh, s'.cpus[j])
      ensures EnqueuerOk(s'.sh, s'.cpus[j], q)
      ensures Critical(s'.cpus[j]) <==> Critical(s.cpus[j])
      ensures Critical(s'.cpus[j]) ==> CriticalInv(s'.sh, s'.cpus[j], q)
    {
      assert EnqueuerOk(s.sh, s.cpus[j], q);
      if Critical(s.cpus[j]) {
        StateFrame(s.sh, s.cpus[j], q, s'.sh.state);
      }
    }
  }

  lemma StepInv(s: State, q: seq<nat>, e: Event) returns (q': seq<nat>)
    requires Inv(s, q) && Enabled(s, e)
    ensures Inv(Step(s, e), q')
  {
    hide Inv, Step;
    q' := q;
    match e
    case Run(i) =>
      var pc := CpuPc(s, q, i);
      match pc {
        case EnqState | EnqNext => PrepareInstr(s, q, i);
        case EnqLock | DeqLock => LockInstr(s, q, i);
        case EnqUnlock | DeqUnlock => q' := UnlockInstr(s, q, i);
        case _ => CriticalInstr(s, q, i);
      }
    case _ => StartInstr(s, q, e);
  }

  lemma CpuPc(s: State, q: seq<nat>, i: nat) returns (pc: Pc)
    requires Inv(s, q) && Enabled(s, Run(i))
    ensures pc == s.cpus[i].pc && !pc.Idle? && WellTyped(s)
  {
    pc := s.cpus[i].pc;
  }

  // ----- runs --------------------------------------------------------------

  /** `NotARun`: an event was not enabled.  `Crashed`: an instruction is about to dereference a null
      or wild pointer. */
  datatype Outcome = NotARun | Crashed | At(state: State)

  function RunOf(cpus: nat, tasks: nat, run: seq<Event>): (r: Outcome)
    ensures r.At? ==> WellTyped(r.state)
    decreases |run|
  {
    if run == [] then
      InitialInv(cpus, tasks);
      At(Initial(cpus, tasks))
    else
      var before := RunOf(cpus, tasks, run[..|run| - 1]);
      var e := run[|run| - 1];
      if !before.At? then before
      else if !Enabled(before.state, e) then NotARun
      else if !WellTyped(Step(before.state, e)) then Crashed
      else At(Step(before.state, e))
  }

  /** For any number of CPUs and tasks and any interleaving: no null or wild dereference, mutual
      exclusion, the history of completed calls is a FIFO history, and whenever the lock is free the
      list is exactly that FIFO's contents. */
  lemma {:induction false} RunsRefineFifo(cpus: nat, tasks: nat, run: seq<Event>)
    ensures !RunOf(cpus, tasks, run).Crashed?
    ensures var r := RunOf(cpus, tasks, run);
            r.At? ==>
              && Replay(r.state.history).Some?
              && Inv(r.state, Replay(r.state.history).value)
              && (!r.state.sh.locked ==> ListIs(r.state.sh, Replay(r.state.history).value)
                                         && r.state.sh.count == |Replay(r.state.history).value| % U32)
    decreases |run|
  {
    hide Step, Enabled, ListIs, Distinct;
    if run == [] {
      InitialInv(cpus, tasks);
    } else {
      var init, e := run[..|run| - 1], run[|run| - 1];
      RunsRefineFifo(cpus, tasks, init);
      var before := RunOf(cpus, tasks, init);
      if before.At? && Enabled(before.state, e) {
        var q' := StepInv(before.state, Replay(before.state.history).value, e);
      }
    }
  }

  // ----- consequences for a FIFO history -----------------------------------

  function Added(l: Label): (ts: seq<nat>) { if l.Enq? then [l.task] else [] }
  function Removed(l: Label): (ts: seq<nat>) { if l.Deq? && l.result.To? then [l.result.task] else [] }

  function Enqueued(h: seq<Label>): (ts: seq<nat>)
  {
    if h == [] then [] else Enqueued(h[..|h| - 1]) + Added(h[|h| - 1])
  }

  function Dequeued(h: seq<Label>): (ts: seq<nat>)
  {
    if h == [] then [] else Dequeued(h[..|h| - 1]) + Removed(h[|h| - 1])
  }

  lemma ConservationStep(q: seq<nat>, l: Label)
    requires FifoStep(q, l).Some?
    ensures q + Added(l) == Removed(l) + FifoStep(q, l).value
  {
  }

  /** Conservation: what was queued and what was enqueued since is what was dequeued since and what
      is queued now, in that order. */
  lemma {:induction false} FifoConservation(h: seq<Label>, e: seq<Label>)
    requires Replay(h + e).Some?
    ensures Replay(h).Some?
    ensures Replay(h).value + Enqueued(e) == Dequeued(e) + Replay(h + e).value
    decreases |e|
  {
    hide FifoStep, Added, Removed;
    if e == [] {
      assert h + e == h;
    } else {
      var init, l := e[..|e| - 1], e[|e| - 1];
      assert (h + e)[..|h + e| - 1] == h + init;
      FifoConservation(h, init);
      var q0, q, d := Replay(h).value, Replay(h + init).value, Dequeued(init);
      ConservationStep(q, l);
      calc {
        q0 + Enqueued(e);
        (q0 + Enqueued(init)) + Added(l);
        d + (q + Added(l));
        (d + Removed(l)) + Replay(h + e).value;
      }
    }
  }

  /** Bounded bypass: the entry at position `k` is the result of exactly the `k + 1`-st successful
      dequeue from now on, whatever is enqueued meanwhile. */
  lemma BoundedBypass(h: seq<Label>, e: seq<Label>, k: nat)
    requires Replay(h + e).Some? && Replay(h).Some? && k < |Replay(h).value|
    ensures k < |Dequeued(e)| ==> Dequeued(e)[k] == Replay(h).value[k]
    ensures k >= |Dequeued(e)| ==>
            k - |Dequeued(e)| < |Replay(h + e).value| && Replay(h + e).value[k - |Dequeued(e)|] == Replay(h).value[k]
  {
    FifoConservation(h, e);
    var q, q' := Replay(h).value, Replay(h + e).value;
    assert (q + Enqueued(e))[k] == q[k];
    assert k < |Dequeued(e)| ==> (Dequeued(e) + q')[k] == Dequeued(e)[k];
    assert k >= |Dequeued(e)| && k < |Dequeued(e) + q'| ==> (Dequeued(e) + q')[k] == q'[k - |Dequeued(e)|];
  }

  /** Why callers must own what they enqueue: clearing `next` outside the lock leaves the list intact
      exactly when the entry is not queued or is queued last. */
  lemma ClearNextSafeIff(sh: Shared, q: seq<nat>, t: nat)
    requires ListIs(sh, q) && Distinct(q) && t < |sh.next|
    ensures ListIs(sh.(next := sh.next[t := Null]), q) <==> t !in q || t == q[|q| - 1]
  {
    ChainCleared(sh.next, q, t);
  }

  /** The entries the `next` fields must run through while a CPU is in its critical section: after its
      link store an enqueuer's own entry too, after its head store no longer the one a dequeuer took. */
  function Linked(c: Cpu, q: seq<nat>): (r: seq<nat>)
    requires Critical(c) && (Enqueuing(c) ==> c.task.To?)
  {
    match c.pc
    case EnqTail | EnqLoadCount | EnqStoreCount | EnqUnlock => q + [c.task.task]
    case DeqLoadCount | DeqStoreCount | DeqClearNext | DeqUnlock => if q == [] then q else q[1..]
    case _ => q
  }

  lemma ChainCleared(next: seq<Ptr>, r: seq<nat>, t: nat)
    requires Chain(next, r) && Distinct(r) && t < |next|
    ensures Chain(next[t := Null], r) <==> t !in r || t == r[|r| - 1]
  {
    if t in r {
      var k :| 0 <= k < |r| && r[k] == t;
      assert next[r[k]] == Successor(r, k);
      var next' := next[t := Null];
      if k < |r| - 1 {
        assert next'[r[k]] != Successor(r, k);
        assert !Chain(next', r);
      } else {
        assert forall m :: 0 <= m < |r| - 1 ==> r[m] != t;
      }
    }
  }

  lemma LinkedChain(sh: Shared, c: Cpu, q: seq<nat>)
    requires Pointers(sh, c) && Critical(c) && CriticalInv(sh, c, q) && Distinct(q)
    ensures Chain(sh.next, Linked(c, q)) && Distinct(Linked(c, q))
  {
    hide Chain, Distinct, First, Last;
    EmptyChain(sh.next);
    if Enqueuing(c) {
      AppendDistinct(q, c.task.task);
    } else if q != [] {
      DropFirst(q);
    }
  }

  /** The half-finished list depends on the `next` fields through that chain alone. */
  lemma CriticalByChain(sh: Shared, c: Cpu, q: seq<nat>, t: nat)
    requires Pointers(sh, c) && Critical(c) && CriticalInv(sh, c, q) && t < |sh.next|
    ensures CriticalInv(sh.(next := sh.next[t := Null]), c, q) <==> Chain(sh.next[t := Null], Linked(c, q))
  {
    hide Chain, First, Last;
    EmptyChain(sh.next[t := Null]);
  }

  lemma EmptyChain(next: seq<Ptr>)
    ensures Chain(next, [])
  {
  }

  /** The same while a CPU is inside its critical section: its half-finished list survives exactly when
      the entry is not linked or is linked last. */
  lemma ClearNextCriticalIff(sh: Shared, c: Cpu, q: seq<nat>, t: nat)
    requires Pointers(sh, c) && Critical(c) && CriticalInv(sh, c, q) && Distinct(q) && t < |sh.next|
    ensures CriticalInv(sh.(next := sh.next[t := Null]), c, q) <==>
            t !in Linked(c, q) || t == Linked(c, q)[|Linked(c, q)| - 1]
  {
    hide CriticalInv, Chain, Distinct, Linked;
    LinkedChain(sh, c, q);
    CriticalByChain(sh, c, q, t);
    ChainCleared(sh.next, Linked(c, q), t);
  }
}
