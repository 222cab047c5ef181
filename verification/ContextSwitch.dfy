/** `scheduler_context_switch` as a stack and register machine: what a task finds when it is resumed, and
    what a fresh task finds on its first switch. */
module ContextSwitch {

  /** Memory in 8-byte words; words never written read as 0. */
  type Memory = map<nat, nat>

  function Read(m: Memory, a: nat): (v: nat) { if a in m then m[a] else 0 }

  datatype Reg = RBP | RBX | R12 | R13 | R14 | R15

  datatype Regs = Regs(rbp: nat, rbx: nat, r12: nat, r13: nat, r14: nat, r15: nat)

  function Get(r: Regs, x: Reg): (v: nat)
  {
    match x
    case RBP => r.rbp case RBX => r.rbx case R12 => r.r12
    case R13 => r.r13 case R14 => r.r14 case R15 => r.r15
  }

  function Set(r: Regs, x: Reg, v: nat): (r': Regs)
  {
    match x
    case RBP => r.(rbp := v) case RBX => r.(rbx := v) case R12 => r.(r12 := v)
    case R13 => r.(r13 := v) case R14 => r.(r14 := v) case R15 => r.(r15 := v)
  }

  datatype Core = Core(regs: Regs, rsp: nat, rip: nat)

  datatype Instr = Push(r: Reg) | Pop(r: Reg) | SaveRsp | LoadRsp | Ret

  /** The body of the routine; `rdi` and `rsi` hold the addresses of the two task structures, whose
      first word is the saved stack pointer. */
  const SWITCH: seq<Instr> := [
    Push(RBP), Push(RBX), Push(R12), Push(R13), Push(R14), Push(R15),
    SaveRsp, LoadRsp,
    Pop(R15), Pop(R14), Pop(R13), Pop(R12), Pop(RBX), Pop(RBP),
    Ret]

  function Exec(i: Instr, c: Core, m: Memory, rdi: nat, rsi: nat): (r: (Core, Memory))
  {
    match i
    case Push(x) => if c.rsp < 8 then (c, m) else (c.(rsp := c.rsp - 8), m[c.rsp - 8 := Get(c.regs, x)])
    case Pop(x) => (c.(regs := Set(c.regs, x, Read(m, c.rsp)), rsp := c.rsp + 8), m)
    case SaveRsp => (c, m[rdi := c.rsp])
    case LoadRsp => (c.(rsp := Read(m, rsi)), m)
    case Ret => (c.(rip := Read(m, c.rsp), rsp := c.rsp + 8), m)
  }

  function ExecAll(p: seq<Instr>, c: Core, m: Memory, rdi: nat, rsi: nat): (r: (Core, Memory))
    decreases |p|
  {
    if p == [] then (c, m)
    else
      var (c', m') := Exec(p[0], c, m, rdi, rsi);
      ExecAll(p[1..], c', m', rdi, rsi)
  }

  function Switch(c: Core, m: Memory, rdi: nat, rsi: nat): (r: (Core, Memory))
  {
    ExecAll(SWITCH, c, m, rdi, rsi)
  }

  // ----- frames ------------------------------------------------------------

  /** The context a frame at `s` describes, as the routine's pops and `ret` read it. */
  function FrameAt(m: Memory, s: nat): (c: Core)
  {
    Core(Regs(Read(m, s + 40), Read(m, s + 32), Read(m, s + 24), Read(m, s + 16), Read(m, s + 8), Read(m, s)),
         s + 56, Read(m, s + 48))
  }

  /** The context a caller of the routine wants back: its registers, and its stack and instruction
      pointers after the call has returned. */
  function CallerContext(c: Core, m: Memory): (r: Core) { Core(c.regs, c.rsp + 8, Read(m, c.rsp)) }

  /** The memory after the six pushes and the store of the stack pointer. */
  function SavedMemory(c: Core, m: Memory, rdi: nat): (m': Memory)
    requires c.rsp >= 48
  {
    m[c.rsp - 8 := c.regs.rbp][c.rsp - 16 := c.regs.rbx][c.rsp - 24 := c.regs.r12]
     [c.rsp - 32 := c.regs.r13][c.rsp - 40 := c.regs.r14][c.rsp - 48 := c.regs.r15][rdi := c.rsp - 48]
  }

  lemma {:induction false} ExecAppend(p: seq<Instr>, q: seq<Instr>, c: Core, m: Memory, rdi: nat, rsi: nat)
    ensures ExecAll(p + q, c, m, rdi, rsi) ==
            var (c', m') := ExecAll(p, c, m, rdi, rsi); ExecAll(q, c', m', rdi, rsi)
    decreases |p|
  {
    if p == [] {
      assert p + q == q;
    } else {
      var (c', m') := Exec(p[0], c, m, rdi, rsi);
      assert (p + q)[1..] == p[1..] + q;
      ExecAppend(p[1..], q, c', m', rdi, rsi);
    }
  }

  lemma One(i: Instr, rest: seq<Instr>, c: Core, m: Memory, rdi: nat, rsi: nat)
    ensures ExecAll([i] + rest, c, m, rdi, rsi) ==
            var (c', m') := Exec(i, c, m, rdi, rsi); ExecAll(rest, c', m', rdi, rsi)
  {
    assert ([i] + rest)[1..] == rest;
  }

  const PUSHES: seq<Instr> := [Push(RBP)] + ([Push(RBX)] + ([Push(R12)] + ([Push(R13)] + ([Push(R14)] + ([Push(R15)] + ([SaveRsp] + []))))))
  const POPS: seq<Instr> := [LoadRsp] + ([Pop(R15)] + ([Pop(R14)] + ([Pop(R13)] + ([Pop(R12)] + ([Pop(RBX)] + ([Pop(RBP)] + ([Ret] + [])))))))

  lemma SaveEffect(c: Core, m: Memory, rdi: nat, rsi: nat)
    requires c.rsp >= 48
    ensures ExecAll(PUSHES, c, m, rdi, rsi) == (c.(rsp := c.rsp - 48), SavedMemory(c, m, rdi))
  {
    hide ExecAll;
    var p6 := [SaveRsp] + [];
    var p5 := [Push(R15)] + p6;
    var p4 := [Push(R14)] + p5;
    var p3 := [Push(R13)] + p4;
    var p2 := [Push(R12)] + p3;
    var p1 := [Push(RBX)] + p2;
    var m1 := m[c.rsp - 8 := c.regs.rbp];
    var m2 := m1[c.rsp - 16 := c.regs.rbx];
    var m3 := m2[c.rsp - 24 := c.regs.r12];
    var m4 := m3[c.rsp - 32 := c.regs.r13];
    var m5 := m4[c.rsp - 40 := c.regs.r14];
    var m6 := m5[c.rsp - 48 := c.regs.r15];
    One(Push(RBP), p1, c, m, rdi, rsi);
    One(Push(RBX), p2, c.(rsp := c.rsp - 8), m1, rdi, rsi);
    One(Push(R12), p3, c.(rsp := c.rsp - 16), m2, rdi, rsi);
    One(Push(R13), p4, c.(rsp := c.rsp - 24), m3, rdi, rsi);
    One(Push(R14), p5, c.(rsp := c.rsp - 32), m4, rdi, rsi);
    One(Push(R15), p6, c.(rsp := c.rsp - 40), m5, rdi, rsi);
    One(SaveRsp, [], c.(rsp := c.rsp - 48), m6, rdi, rsi);
    Nothing(c.(rsp := c.rsp - 48), m6[rdi := c.rsp - 48], rdi, rsi);
  }

  lemma Nothing(c: Core, m: Memory, rdi: nat, rsi: nat)
    ensures ExecAll([], c, m, rdi, rsi) == (c, m)
  {
  }

  lemma RestoreEffect(c: Core, m: Memory, rdi: nat, rsi: nat)
    ensures ExecAll(POPS, c, m, rdi, rsi) == (FrameAt(m, Read(m, rsi)), m)
  {
    hide ExecAll, Read;
    var s := Read(m, rsi);
    var p7 := [Ret] + [];
    var p6 := [Pop(RBP)] + p7;
    var p5 := [Pop(RBX)] + p6;
    var p4 := [Pop(R12)] + p5;
    var p3 := [Pop(R13)] + p4;
    var p2 := [Pop(R14)] + p3;
    var p1 := [Pop(R15)] + p2;
    var c0 := c.(rsp := s);
    One(LoadRsp, p1, c, m, rdi, rsi);
    var c1 := Exec(Pop(R15), c0, m, rdi, rsi).0;
    One(Pop(R15), p2, c0, m, rdi, rsi);
    var c2 := Exec(Pop(R14), c1, m, rdi, rsi).0;
    One(Pop(R14), p3, c1, m, rdi, rsi);
    var c3 := Exec(Pop(R13), c2, m, rdi, rsi).0;
    One(Pop(R13), p4, c2, m, rdi, rsi);
    var c4 := Exec(Pop(R12), c3, m, rdi, rsi).0;
    One(Pop(R12), p5, c3, m, rdi, rsi);
    var c5 := Exec(Pop(RBX), c4, m, rdi, rsi).0;
    One(Pop(RBX), p6, c4, m, rdi, rsi);
    var c6 := Exec(Pop(RBP), c5, m, rdi, rsi).0;
    One(Pop(RBP), p7, c5, m, rdi, rsi);
    var c7 := Exec(Ret, c6, m, rdi, rsi).0;
    One(Ret, [], c6, m, rdi, rsi);
    Nothing(c7, m, rdi, rsi);
    assert c6.regs == FrameAt(m, s).regs && c6.rsp == s + 48;
  }

  /** The whole routine: save the caller's frame, then become what the new task's frame says. */
  lemma SwitchEffect(c: Core, m: Memory, rdi: nat, rsi: nat)
    requires c.rsp >= 48
    ensures var m' := SavedMemory(c, m, rdi);
            Switch(c, m, rdi, rsi) == (FrameAt(m', Read(m', rsi)), m')
  {
    hide ExecAll, SavedMemory, FrameAt;
    assert SWITCH == PUSHES + POPS;
    ExecAppend(PUSHES, POPS, c, m, rdi, rsi);
    SaveEffect(c, m, rdi, rsi);
    RestoreEffect(c.(rsp := c.rsp - 48), SavedMemory(c, m, rdi), rdi, rsi);
  }

  // ----- many tasks on many cores ------------------------------------------

  /** Where each task's structure (first word: saved stack pointer) and stack are. */
  datatype Place = Place(tcb: nat, lo: nat, hi: nat)

  predicate InStack(p: Place, a: nat) { p.lo <= a < p.hi }

  /** Words are aligned, and no two tasks share one. */
  predicate LayoutOk(l: seq<Place>) {
    && (forall t :: 0 <= t < |l| ==> l[t].tcb % 8 == 0 && l[t].lo % 8 == 0 && l[t].hi % 8 == 0 && l[t].lo + 64 <= l[t].hi)
    && (forall t, u :: 0 <= t < |l| && 0 <= u < |l| && t != u ==> l[t].tcb != l[u].tcb && (l[t].hi <= l[u].lo || l[u].hi <= l[t].lo))
    && (forall t, u :: 0 <= t < |l| && 0 <= u < |l| ==> !InStack(l[u], l[t].tcb))
  }

  /** `running` gives a task per core; `made` are the tasks that exist. */
  datatype Machine = Machine(mem: Memory, cores: seq<Core>, running: seq<nat>, made: set<nat>)

  predicate Suspended(m: Machine, t: nat) { t in m.made && t !in m.running }

  /** The saved frame of a task, and that it lies in its stack. */
  function Saved(l: seq<Place>, m: Machine, t: nat): (c: Core)
    requires t < |l|
  {
    FrameAt(m.mem, Read(m.mem, l[t].tcb))
  }

  predicate FrameInStack(l: seq<Place>, m: Machine, t: nat)
    requires t < |l|
  {
    var s := Read(m.mem, l[t].tcb);
    l[t].lo <= s && s + 56 <= l[t].hi && s % 8 == 0
  }

  predicate MachineOk(l: seq<Place>, m: Machine) {
    && LayoutOk(l) && |m.cores| == |m.running|
    && (forall t :: t in m.made ==> t < |l|)
    && (forall i :: 0 <= i < |m.running| ==> m.running[i] in m.made)
    && (forall i, j :: 0 <= i < j < |m.running| ==> m.running[i] != m.running[j])
    && (forall t :: 0 <= t < |l| && Suspended(m, t) ==> FrameInStack(l, m, t))
  }

  /** Once every core has entered its worker loop it runs its own idle task, on the stack it came with, and there are no others. */
  lemma BootMachineOk(l: seq<Place>, mem: Memory, cores: seq<Core>, running: seq<nat>)
    requires LayoutOk(l) && |cores| == |running|
    requires forall i :: 0 <= i < |running| ==> running[i] < |l|
    requires forall i, j :: 0 <= i < j < |running| ==> running[i] != running[j]
    ensures MachineOk(l, Machine(mem, cores, running, set t | t in running))
  {
  }

  /** `entry`, `arg`, and the addresses of the trampoline and of `task_exit`. */
  datatype Fresh = Fresh(entry: nat, arg: nat, trampoline: nat, exit: nat)

  datatype Event =
    | SwitchTo(core: nat, task: nat)
    | Create(task: nat, begin: Fresh)
    | Compute(core: nat, after: Core, mem: Memory) // the running task executes arbitrary code

  /** A core may call the routine: it is on its own stack, with room for a frame. */
  predicate OnOwnStack(l: seq<Place>, m: Machine, i: nat)
    requires MachineOk(l, m) && i < |m.cores|
  {
    var p := l[m.running[i]];
    p.lo + 48 <= m.cores[i].rsp && m.cores[i].rsp + 8 <= p.hi && m.cores[i].rsp % 8 == 0
  }

  /** A core calls the routine on its own stack and resumes a task that nobody runs, or itself; ordinary
      code stays out of other tasks' stacks and saved stack pointers; a new task is one not made before. */
  ghost predicate Allowed(l: seq<Place>, m: Machine, e: Event)
    requires MachineOk(l, m)
  {
    match e
    case SwitchTo(i, t) =>
      i < |m.cores| && (Suspended(m, t) || t == m.running[i]) && OnOwnStack(l, m, i)
    case Create(t, _) => t < |l| && t !in m.made
    case Compute(i, _, mem) =>
      && i < |m.cores|
      && forall a: nat, t :: t in m.made && t != m.running[i] && (a == l[t].tcb || InStack(l[t], a)) ==> Read(mem, a) == Read(m.mem, a)
  }

  ghost function Happen(l: seq<Place>, m: Machine, e: Event): (m': Machine)
    requires MachineOk(l, m) && Allowed(l, m, e)
  {
    match e
    case SwitchTo(i, t) =>
      var (c, mem) := Switch(m.cores[i], m.mem, l[m.running[i]].tcb, l[t].tcb);
      m.(mem := mem, cores := m.cores[i := c], running := m.running[i := t])
    case Create(t, f) => m.(mem := CreateFrame(m.mem, l[t].tcb, l[t].hi, f), made := m.made + {t})
    case Compute(i, c, mem) => m.(cores := m.cores[i := c], mem := mem)
  }

  /** Task `t`'s stack and saved stack pointer are the same in two memories. */
  ghost predicate Untouched(l: seq<Place>, mem: Memory, mem': Memory, t: nat)
    requires t < |l|
  {
    && Read(mem', l[t].tcb) == Read(mem, l[t].tcb)
    && forall a: nat :: InStack(l[t], a) ==> Read(mem', a) == Read(mem, a)
  }

  /** Then so is its frame. */
  lemma FrameSame(l: seq<Place>, m: Machine, m': Machine, t: nat)
    requires t < |l| && FrameInStack(l, m, t) && Untouched(l, m.mem, m'.mem, t)
    ensures Saved(l, m', t) == Saved(l, m, t) && FrameInStack(l, m', t)
  {
    var s := Read(m.mem, l[t].tcb);
    assert InStack(l[t], s) && InStack(l[t], s + 8) && InStack(l[t], s + 16) && InStack(l[t], s + 24);
    assert InStack(l[t], s + 32) && InStack(l[t], s + 40) && InStack(l[t], s + 48);
  }

  /** The pushes and the store touch only the old task's stack and saved stack pointer. */
  lemma SavedOutside(c: Core, m: Memory, tcb: nat, a: nat)
    requires c.rsp >= 48 && a != tcb && !(c.rsp - 48 <= a < c.rsp)
    ensures Read(SavedMemory(c, m, tcb), a) == Read(m, a)
  {
  }

  /** The old task's frame is exactly its caller's context. */
  lemma SavedIsCaller(c: Core, m: Memory, tcb: nat)
    requires c.rsp >= 48 && !(c.rsp - 48 <= tcb < c.rsp + 8)
    ensures Read(SavedMemory(c, m, tcb), tcb) == c.rsp - 48
    ensures FrameAt(SavedMemory(c, m, tcb), c.rsp - 48) == CallerContext(c, m)
  {
  }

  /** Saving task `t`'s frame leaves every other task alone. */
  lemma SaveElsewhere(l: seq<Place>, mem: Memory, c: Core, t: nat, u: nat)
    requires LayoutOk(l) && t < |l| && u < |l| && u != t && l[t].lo + 48 <= c.rsp <= l[t].hi
    ensures Untouched(l, mem, SavedMemory(c, mem, l[t].tcb), u)
  {
    hide SavedMemory, Read;
    assert !InStack(l[t], l[u].tcb) && !InStack(l[u], l[t].tcb);
    SavedOutside(c, mem, l[t].tcb, l[u].tcb);
    forall a: nat | InStack(l[u], a)
      ensures Read(SavedMemory(c, mem, l[t].tcb), a) == Read(mem, a)
    {
      SavedOutside(c, mem, l[t].tcb, a);
    }
  }

  /** The frame a task saves lies in its stack and is its caller's context. */
  lemma OwnFrame(l: seq<Place>, mem: Memory, c: Core, t: nat)
    requires LayoutOk(l) && t < |l| && l[t].lo + 48 <= c.rsp && c.rsp + 8 <= l[t].hi
    ensures var mem' := SavedMemory(c, mem, l[t].tcb);
            Read(mem', l[t].tcb) == c.rsp - 48 && FrameAt(mem', c.rsp - 48) == CallerContext(c, mem)
  {
    hide SavedMemory, Read, FrameAt, CallerContext;
    assert !InStack(l[t], l[t].tcb);
    SavedIsCaller(c, mem, l[t].tcb);
  }

  lemma SwitchMemory(l: seq<Place>, m: Machine, i: nat, t: nat)
    requires MachineOk(l, m) && Allowed(l, m, SwitchTo(i, t))
    ensures var mem' := SavedMemory(m.cores[i], m.mem, l[m.running[i]].tcb);
            Happen(l, m, SwitchTo(i, t)) ==
            m.(mem := mem', cores := m.cores[i := FrameAt(mem', Read(mem', l[t].tcb))], running := m.running[i := t])
  {
    hide Switch, FrameAt, SavedMemory, Read, LayoutOk;
    SwitchEffect(m.cores[i], m.mem, l[m.running[i]].tcb, l[t].tcb);
  }

  /** What one switch does: the old task's saved frame is its caller's context, the core becomes the new
      task's saved frame (or, switching to itself, just returns), and no other task is touched. */
  lemma SwitchKeeps(l: seq<Place>, m: Machine, i: nat, t: nat)
    requires MachineOk(l, m) && Allowed(l, m, SwitchTo(i, t))
    ensures var m' := Happen(l, m, SwitchTo(i, t));
            var prev := m.running[i];
            && m'.cores[i] == (if t == prev then CallerContext(m.cores[i], m.mem) else Saved(l, m, t))
            && m'.running == m.running[i := t] && |m'.cores| == |m.cores| && m'.made == m.made
            && Saved(l, m', prev) == CallerContext(m.cores[i], m.mem) && FrameInStack(l, m', prev)
            && (forall u :: 0 <= u < |l| && u != prev ==> Untouched(l, m.mem, m'.mem, u))
  {
    hide Switch, FrameAt, CallerContext, SavedMemory, Read, Untouched, Happen, LayoutOk;
    var c, prev := m.cores[i], m.running[i];
    var m' := Happen(l, m, SwitchTo(i, t));
    SwitchMemory(l, m, i, t);
    OwnFrame(l, m.mem, c, prev);
    forall u | 0 <= u < |l| && u != prev
      ensures Untouched(l, m.mem, m'.mem, u)
    {
      SaveElsewhere(l, m.mem, c, prev, u);
    }
    if t != prev {
      assert FrameInStack(l, m, t);
      FrameSame(l, m, m', t);
    }
  }

  lemma RunningAfter(m: Machine, i: nat, t: nat, u: nat)
    requires i < |m.running|
    ensures u !in m.running[i := t] ==> u != t && (u !in m.running || u == m.running[i])
    ensures u !in m.running && u != t ==> u !in m.running[i := t]
  {
    var r := m.running[i := t];
    assert r[i] == t;
    if u in m.running && u != m.running[i] {
      var j :| 0 <= j < |m.running| && m.running[j] == u;
      assert r[j] == u;
    }
  }

  /** A suspended task is touched by nobody until it is switched to. */
  lemma SuspendedUntouched(l: seq<Place>, m: Machine, e: Event, t: nat)
    requires MachineOk(l, m) && Allowed(l, m, e) && t < |l| && Suspended(m, t)
    ensures Untouched(l, m.mem, Happen(l, m, e).mem, t)
  {
    hide Switch, FrameAt, Read, CreateFrame, CallerContext;
    match e
    case SwitchTo(i, u) =>
      SwitchKeeps(l, m, i, u);
      assert m.running[i] in m.running;
    case Create(u, f) => CreateElsewhere(l, m.mem, u, f, t);
    case Compute(i, _, _) => assert m.running[i] in m.running;
  }

  lemma CreateElsewhere(l: seq<Place>, mem: Memory, u: nat, f: Fresh, t: nat)
    requires LayoutOk(l) && u < |l| && t < |l| && t != u
    ensures Untouched(l, mem, CreateFrame(mem, l[u].tcb, l[u].hi, f), t)
  {
    hide CreateFrame, Read;
    assert !InStack(l[u], l[t].tcb) && !InStack(l[t], l[u].tcb);
    CreateOutside(mem, l[u].tcb, l[u].hi, f, l[t].tcb);
    forall a: nat | InStack(l[t], a)
      ensures Read(CreateFrame(mem, l[u].tcb, l[u].hi, f), a) == Read(mem, a)
    {
      CreateOutside(mem, l[u].tcb, l[u].hi, f, a);
    }
  }

  lemma SwitchOk(l: seq<Place>, m: Machine, i: nat, t: nat)
    requires MachineOk(l, m) && Allowed(l, m, SwitchTo(i, t))
    ensures MachineOk(l, Happen(l, m, SwitchTo(i, t)))
  {
    hide Switch, FrameAt, Read, Saved, CallerContext, FrameInStack;
    var m' := Happen(l, m, SwitchTo(i, t));
    SwitchKeeps(l, m, i, t);
    forall u | 0 <= u < |l| && Suspended(m', u)
      ensures FrameInStack(l, m', u)
    {
      RunningAfter(m, i, t, u);
      if u != m.running[i] {
        FrameSame(l, m, m', u);
      }
    }
    forall a, b | 0 <= a < b < |m'.running|
      ensures m'.running[a] != m'.running[b]
    {
      assert m.running[a] in m.running && m.running[b] in m.running;
    }
  }

  lemma StepOk(l: seq<Place>, m: Machine, e: Event)
    requires MachineOk(l, m) && Allowed(l, m, e)
    ensures MachineOk(l, Happen(l, m, e))
  {
    hide Switch, FrameAt, Read, CreateFrame, FrameInStack;
    if e.SwitchTo? {
      SwitchOk(l, m, e.core, e.task);
    } else {
      var m' := Happen(l, m, e);
      forall u | 0 <= u < |l| && Suspended(m', u)
        ensures FrameInStack(l, m', u)
      {
        if u in m.made {
          SuspendedUntouched(l, m, e, u);
          FrameSame(l, m, m', u);
        } else {
          CreateInStack(l, m, u, e.begin);
        }
      }
    }
  }

  // ----- runs --------------------------------------------------------------

  /** `run` leads from `m` to `m'`. */
  ghost predicate Leads(l: seq<Place>, m: Machine, run: seq<Event>, m': Machine)
    requires MachineOk(l, m)
    decreases |run|
  {
    if run == [] then m == m'
    else
      && Allowed(l, m, run[0])
      && var m1 := Happen(l, m, run[0]);
      && MachineOk(l, m1) && Leads(l, m1, run[1..], m')
  }

  /** The run does not switch to task `t`. */
  predicate Away(run: seq<Event>, t: nat) { forall n :: 0 <= n < |run| && run[n].SwitchTo? ==> run[n].task != t }

  /** Whatever the other tasks and cores do, tasks created on the way included: every machine they reach
      is in order, and a suspended task stays untouched until it is switched to. */
  lemma {:induction false} StackSurvives(l: seq<Place>, m: Machine, run: seq<Event>, t: nat, m': Machine)
    requires MachineOk(l, m) && t < |l| && Suspended(m, t) && Leads(l, m, run, m') && Away(run, t)
    ensures MachineOk(l, m') && Suspended(m', t) && Untouched(l, m.mem, m'.mem, t)
    ensures Saved(l, m', t) == Saved(l, m, t)
    decreases |run|
  {
    hide FrameAt, Read, Switch, Saved, FrameInStack, CreateFrame;
    if run != [] {
      var e := run[0];
      var m1 := Happen(l, m, e);
      SuspendedUntouched(l, m, e, t);
      FrameSame(l, m, m1, t);
      if e.SwitchTo? {
        RunningAfter(m, e.core, e.task, t);
      }
      StackSurvives(l, m1, run[1..], t, m');
    }
  }

  lemma SwitchSuspends(l: seq<Place>, m: Machine, i: nat, u: nat)
    requires MachineOk(l, m) && Allowed(l, m, SwitchTo(i, u)) && u != m.running[i]
    ensures Suspended(Happen(l, m, SwitchTo(i, u)), m.running[i])
  {
    hide FrameAt, Read, Switch, Saved, FrameInStack, CallerContext;
    var t := m.running[i];
    var m1 := Happen(l, m, SwitchTo(i, u));
    SwitchKeeps(l, m, i, u);
    forall k | 0 <= k < |m1.running|
      ensures m1.running[k] != t
    {
    }
  }

  /** Context round trip: a task that calls the routine resumes, at once if it switched to itself and
      otherwise when it is next switched to, on any core and whatever ran in between, with the six
      callee-saved registers, stack pointer and return address it called with. */
  lemma RoundTrip(l: seq<Place>, m: Machine, i: nat, u: nat, run: seq<Event>, m2: Machine, j: nat)
    requires MachineOk(l, m) && Allowed(l, m, SwitchTo(i, u))
    requires MachineOk(l, Happen(l, m, SwitchTo(i, u))) && MachineOk(l, m2)
    requires u != m.running[i] ==>
               && Leads(l, Happen(l, m, SwitchTo(i, u)), run, m2) && Away(run, m.running[i])
               && Allowed(l, m2, SwitchTo(j, m.running[i]))
    ensures CallerContext(m.cores[i], m.mem) ==
            if u == m.running[i] then Happen(l, m, SwitchTo(i, u)).cores[i]
            else Happen(l, m2, SwitchTo(j, m.running[i])).cores[j]
  {
    hide FrameAt, Read, Switch, Saved, FrameInStack, CallerContext;
    var t := m.running[i];
    SwitchKeeps(l, m, i, u);
    if u != t {
      SwitchSuspends(l, m, i, u);
      StackSurvives(l, Happen(l, m, SwitchTo(i, u)), run, t, m2);
      SwitchKeeps(l, m2, j, t);
      NotRunning(l, m2, j, t);
    }
  }

  /** A suspended task is not the one its new core leaves. */
  lemma NotRunning(l: seq<Place>, m: Machine, j: nat, t: nat)
    requires MachineOk(l, m) && Suspended(m, t) && j < |m.running|
    ensures t != m.running[j]
  {
    assert m.running[j] in m.running;
  }

  // ----- a fresh task ------------------------------------------------------

  function PushWord(m: Memory, rsp: nat, v: nat): (r: (Memory, nat))
    requires rsp >= 8
  {
    (m[rsp - 8 := v], rsp - 8)
  }

  /** The eight words `task_create` pushes on a stack that ends at `top`, and the saved stack pointer. */
  function CreateFrame(m: Memory, tcb: nat, top: nat, f: Fresh): (m': Memory)
    requires top >= 64
  {
    var (m1, s1) := PushWord(m, top, f.exit);
    var (m2, s2) := PushWord(m1, s1, f.trampoline);
    var (m3, s3) := PushWord(m2, s2, 0);        // meant for r15
    var (m4, s4) := PushWord(m3, s3, 0);        // meant for r14
    var (m5, s5) := PushWord(m4, s4, f.arg);    // meant for r13
    var (m6, s6) := PushWord(m5, s5, f.entry);  // meant for r12
    var (m7, s7) := PushWord(m6, s6, 0);        // meant for rbx
    var (m8, s8) := PushWord(m7, s7, 0);        // meant for rbp
    m8[tcb := s8]
  }

  lemma CreateOutside(m: Memory, tcb: nat, top: nat, f: Fresh, a: nat)
    requires top >= 64 && a != tcb && !(top - 64 <= a < top)
    ensures Read(CreateFrame(m, tcb, top, f), a) == Read(m, a)
  {
  }

  lemma CreatedWords(m: Memory, tcb: nat, top: nat, f: Fresh)
    requires top >= 64 && !(top - 64 <= tcb < top)
    ensures var m' := CreateFrame(m, tcb, top, f);
            && Read(m', tcb) == top - 64
            && Read(m', top - 64) == 0 && Read(m', top - 56) == 0 && Read(m', top - 48) == f.entry && Read(m', top - 40) == f.arg
            && Read(m', top - 32) == 0 && Read(m', top - 24) == 0 && Read(m', top - 16) == f.trampoline && Read(m', top - 8) == f.exit
  {
  }

  lemma FreshFrame(m: Memory, top: nat, f: Fresh)
    requires top >= 64
    requires Read(m, top - 64) == 0 && Read(m, top - 56) == 0 && Read(m, top - 48) == f.entry && Read(m, top - 40) == f.arg
    requires Read(m, top - 32) == 0 && Read(m, top - 24) == 0 && Read(m, top - 16) == f.trampoline
    ensures FrameAt(m, top - 64) == FreshCore(top, f)
  {
  }

  /** What the pops, which run in the other order than the pushes meant, make of a fresh frame: r12 gets
      `arg` and r13 gets `entry`. */
  function FreshCore(top: nat, f: Fresh): (c: Core)
    requires top >= 8
  {
    Core(Regs(0, 0, f.arg, f.entry, 0, 0), top - 8, f.trampoline)
  }

  /** A new task is suspended on its fresh frame, with `task_exit` as the last word of its stack. */
  lemma CreateEffect(l: seq<Place>, m: Machine, t: nat, f: Fresh)
    requires MachineOk(l, m) && Allowed(l, m, Create(t, f))
    ensures var m' := Happen(l, m, Create(t, f));
            && Suspended(m', t) && FrameInStack(l, m', t)
            && Saved(l, m', t) == FreshCore(l[t].hi, f) && Read(m'.mem, l[t].hi - 8) == f.exit
  {
    hide FrameAt, Read, CreateFrame;
    var p := l[t];
    assert !InStack(p, p.tcb);
    CreatedWords(m.mem, p.tcb, p.hi, f);
    FreshFrame(CreateFrame(m.mem, p.tcb, p.hi, f), p.hi, f);
    forall i | 0 <= i < |m.running|
      ensures m.running[i] != t
    {
    }
  }

  lemma CreateInStack(l: seq<Place>, m: Machine, t: nat, f: Fresh)
    requires MachineOk(l, m) && Allowed(l, m, Create(t, f))
    ensures FrameInStack(l, Happen(l, m, Create(t, f)), t)
  {
    CreateEffect(l, m, t, f);
  }

  /** `task_trampoline` calls the function in r12 with the argument in r13. */
  function TrampolineCall(c: Core): (call: (nat, nat)) { (c.regs.r12, c.regs.r13) }

  /** The first switch to a task, executed by any core after any run since its creation, returns into the
      trampoline with `task_exit` on top of the stack, but with r12 holding `arg` and r13 `entry`; so the
      trampoline calls `entry(arg)` exactly when the two happen to be the same word. */
  lemma FirstSwitch(l: seq<Place>, m: Machine, t: nat, f: Fresh, run: seq<Event>, m2: Machine, j: nat)
    requires MachineOk(l, m) && Allowed(l, m, Create(t, f)) && MachineOk(l, Happen(l, m, Create(t, f)))
    requires Leads(l, Happen(l, m, Create(t, f)), run, m2) && Away(run, t)
    requires MachineOk(l, m2) && Allowed(l, m2, SwitchTo(j, t))
    ensures var m3 := Happen(l, m2, SwitchTo(j, t));
            && m3.cores[j] == Core(Regs(0, 0, f.arg, f.entry, 0, 0), l[t].hi - 8, f.trampoline)
            && Read(m3.mem, m3.cores[j].rsp) == f.exit
            && (TrampolineCall(m3.cores[j]) == (f.entry, f.arg) <==> f.entry == f.arg)
  {
    hide FrameAt, Read, Switch, Saved, FrameInStack, CallerContext, CreateFrame;
    var m1 := Happen(l, m, Create(t, f));
    CreateEffect(l, m, t, f);
    StackSurvives(l, m1, run, t, m2);
    SwitchKeeps(l, m2, j, t);
    NotRunning(l, m2, j, t);
    var m3, a := Happen(l, m2, SwitchTo(j, t)), l[t].hi - 8;
    assert InStack(l[t], a) && Untouched(l, m2.mem, m3.mem, t);
    assert Read(m3.mem, a) == Read(m2.mem, a) == Read(m1.mem, a);
  }

  /** Creating a task and switching to it at once. */
  lemma CreateThenSwitch(l: seq<Place>, m: Machine, t: nat, f: Fresh, j: nat)
    requires MachineOk(l, m) && t < |l| && t !in m.made && j < |m.cores| && OnOwnStack(l, m, j)
    ensures var m1 := Happen(l, m, Create(t, f));
            && MachineOk(l, m1) && Allowed(l, m1, SwitchTo(j, t))
            && TrampolineCall(Happen(l, m1, SwitchTo(j, t)).cores[j]) == (f.arg, f.entry)
  {
    hide FrameAt, Read, Switch, CreateFrame, LayoutOk, FrameInStack, Saved;
    StepOk(l, m, Create(t, f));
    CreateEffect(l, m, t, f);
    FirstSwitch(l, m, t, f, [], Happen(l, m, Create(t, f)), j);
  }

  /** One core, running an idle task; place 1 is for a task to be made. */
  function TwoPlaces(): (l: seq<Place>) { [Place(0x100, 0x1000, 0x2000), Place(0x108, 0x3000, 0x4000)] }
  function OneCore(): (m: Machine) { Machine(map[], [Core(Regs(0, 0, 0, 0, 0, 0), 0x1800, 0)], [0], {0}) }

  /** Two places in order make a layout. */
  lemma PairOk(p: Place, q: Place)
    requires p.tcb % 8 == 0 && p.lo % 8 == 0 && p.hi % 8 == 0 && q.tcb % 8 == 0 && q.lo % 8 == 0 && q.hi % 8 == 0
    requires p.tcb < q.tcb < p.lo && p.lo + 64 <= p.hi <= q.lo && q.lo + 64 <= q.hi
    ensures LayoutOk([p, q])
  {
  }

  lemma TwoPlacesOk()
    ensures LayoutOk(TwoPlaces()) && |TwoPlaces()| == 2 && TwoPlaces()[0].lo == 0x1000 && TwoPlaces()[0].hi == 0x2000
  {
    hide LayoutOk;
    PairOk(Place(0x100, 0x1000, 0x2000), Place(0x108, 0x3000, 0x4000));
  }

  lemma OneCoreOk()
    ensures MachineOk(TwoPlaces(), OneCore()) && OnOwnStack(TwoPlaces(), OneCore(), 0)
    ensures |TwoPlaces()| == 2 && |OneCore().cores| == 1 && OneCore().made == {0}
  {
    hide TwoPlaces, LayoutOk;
    TwoPlacesOk();
    assert (set t | t in [0]) == {0};
    BootMachineOk(TwoPlaces(), map[], OneCore().cores, [0]);
  }

  /** An input: on that machine a task with entry 0x1000 and a null argument is created and switched to;
      the trampoline calls address 0. */
  lemma FreshTaskMissesEntry()
    ensures var l, m, f := TwoPlaces(), OneCore(), Fresh(0x1000, 0, 0x8000, 0x9000);
            && MachineOk(l, m) && Allowed(l, m, Create(1, f))
            && var m1 := Happen(l, m, Create(1, f));
            && MachineOk(l, m1) && Allowed(l, m1, SwitchTo(0, 1))
            && TrampolineCall(Happen(l, m1, SwitchTo(0, 1)).cores[0]) == (0, 0x1000)
  {
    hide TwoPlaces, OneCore, MachineOk, Switch, CreateFrame, Happen, OnOwnStack;
    OneCoreOk();
    CreateThenSwitch(TwoPlaces(), OneCore(), 1, Fresh(0x1000, 0, 0x8000, 0x9000), 0);
  }
}
