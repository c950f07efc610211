/**
 The CPU and loader threads of os.c as interleaved step machines over the slot barrier and
 the multi-level queue.  A thread's `pc` names the place in its loop where it will continue;
 while the barrier holds the thread, it cannot step.

 `calls`, `place`, `trace` and `lastAdd` are history variables: calls of run per process,
 where each process is, the instructions executed, and the loader's slot at the last
 add_proc.
 */
module Kernel {
  import opened Prelude
  import Sched
  import B = Barrier

  datatype Opcode = Calc | Alloc | Free | Read | Write

  datatype Inst = Inst(opcode: Opcode, arg0: nat, arg1: nat, arg2: nat)

  /** One process of the configuration file: its program, priority and start time. */
  datatype Load = Load(code: seq<Inst>, prio: nat, start: nat)

  datatype Config = Config(timeSlot: int, ncpu: nat, procs: seq<Load>)

  // Top: the test at the head of the loop.  Fetch: after put_proc, before get_proc.
  // Recheck: the second test.  Run: before run(proc).  Skip: before next_slot.
  // Stopping: after the break, before detach_event.
  datatype CpuPc = Top | Fetch | Recheck | Run | Skip | Stopping | Stopped

  datatype Cpu = Cpu(pc: CpuPc, proc: Option<nat>, left: int)

  // LTop: the test of the outer loop.  LTime: the test of the start time.  LAdd: before
  // add_proc.  LSkipTime, LSkipTop: before the two calls of next_slot.  LDone: before
  // `done = 1`.  LDetach: before detach_event.
  datatype LdPc = LTop | LTime | LAdd | LSkipTime | LSkipTop | LDone | LDetach | LStopped

  datatype Place = Waiting | Queued | OnCpu(cpu: nat) | Retired | Dropped

  datatype Exec = Exec(pid: nat, inst: Inst)

  datatype State = State(
    bar: B.State,          // device 0 is the loader, device c + 1 is CPU c
    ld: LdPc, next: nat,   // next: the loader's index `i`
    cpus: seq<Cpu>,
    sched: Sched.State,
    done: bool,
    pcs: seq<nat>,
    calls: seq<nat>, place: seq<Place>, trace: seq<Exec>, lastAdd: int)

  datatype Event = Thread(d: nat) | Timer | StopTimer | SpuriousDev(d: nat) | SpuriousTimer

  /** Priorities index the array of queues. */
  predicate ConfigOk(cfg: Config) {
    forall p :: 0 <= p < |cfg.procs| ==> cfg.procs[p].prio < Sched.MAX_PRIO
  }

  /** Calls of run a process needs: an empty program still gets one, which does nothing. */
  function Need(cfg: Config, p: nat): (n: nat)
    requires p < |cfg.procs|
  {
    if |cfg.procs[p].code| == 0 then 1 else |cfg.procs[p].code|
  }

  ghost predicate Init(cfg: Config, s: State) {
    && ConfigOk(cfg)
    && B.Init(s.bar) && |s.bar.dev| == cfg.ncpu + 1
    && s.ld == LTop && s.next == 0 && s.lastAdd == -1 && !s.done
    && s.cpus == seq(cfg.ncpu, _ => Cpu(Top, None, 0))
    && s.sched == Sched.State(seq(Sched.MAX_PRIO, _ => []), 0, Sched.MAX_PRIO)
    && s.pcs == s.calls == seq(|cfg.procs|, _ => 0)
    && s.place == seq(|cfg.procs|, _ => Waiting)
    && s.trace == []
  }

  // ----------------------------------------------------------------- steps

  /** The shape every state has; it makes the steps below well defined (see KernelInv). */
  predicate Shape(cfg: Config, s: State) {
    && ConfigOk(cfg)
    && |s.bar.dev| == |s.cpus| + 1
    && Sched.Valid(s.sched)
    && |s.pcs| == |s.calls| == |s.place| == |cfg.procs|
    && (forall c :: 0 <= c < |s.cpus| && s.cpus[c].proc.Some? ==> s.cpus[c].proc.value < |cfg.procs|)
    && (forall l, i :: 0 <= l < Sched.MAX_PRIO && 0 <= i < |s.sched.queues[l]| ==> s.sched.queues[l][i] < |cfg.procs|)
    && (s.ld == LTime || s.ld == LAdd || s.ld == LSkipTime ==> s.next < |cfg.procs|)
  }

  predicate Enabled(cfg: Config, s: State, e: Event) {
    Shape(cfg, s) &&
    match e
    case Thread(d) => d < |s.bar.dev| && (s.bar.dev[d].pc == B.Running || s.bar.dev[d].pc == B.Parked)
    case Timer => B.Enabled(s.bar, B.Timer)
    case StopTimer => B.Enabled(s.bar, B.Stop)
    case SpuriousDev(d) => B.Enabled(s.bar, B.SpuriousDev(d))
    case SpuriousTimer => B.Enabled(s.bar, B.SpuriousTimer)
  }

  function Step(cfg: Config, s: State, e: Event): State
    requires Enabled(cfg, s, e)
  {
    match e
    case Thread(d) =>
      if s.bar.dev[d].pc == B.Parked then s.(bar := B.Step(s.bar, B.Recheck(d)))
      else if d == 0 then LoaderStep(cfg, s)
      else CpuStep(cfg, s, d - 1)
    case Timer => s.(bar := B.Step(s.bar, B.Timer))
    case StopTimer => s.(bar := B.Step(s.bar, B.Stop))
    case SpuriousDev(d) => s.(bar := B.Step(s.bar, B.SpuriousDev(d)))
    case SpuriousTimer => s.(bar := B.Step(s.bar, B.SpuriousTimer))
  }

  /** Where enqueue leaves the process: a full queue drops it. */
  function Landed(s: State, prio: nat): Place
    requires Sched.Valid(s.sched) && prio < Sched.MAX_PRIO
  {
    if |s.sched.queues[prio]| < Sched.MAX_QUEUE_SIZE then Queued else Dropped
  }

  function LoaderStep(cfg: Config, s: State): State
    requires Shape(cfg, s) && s.bar.dev[0].pc == B.Running
  {
    match s.ld
    case LTop => s.(ld := if s.next < |cfg.procs| then LTime else LDone)
    case LTime => s.(ld := if s.bar.time < cfg.procs[s.next].start then LSkipTime else LAdd)
    case LAdd =>
      var prio := cfg.procs[s.next].prio;
      s.(ld := LSkipTop, next := s.next + 1, sched := Sched.Put(s.sched, s.next, prio),
         place := s.place[s.next := Landed(s, prio)], lastAdd := s.bar.dev[0].slots)
    case LSkipTime => s.(ld := LTime, bar := B.Step(s.bar, B.NextSlot(0)))
    case LSkipTop => s.(ld := LTop, bar := B.Step(s.bar, B.NextSlot(0)))
    case LDone => s.(ld := LDetach, done := true)
    case LDetach => s.(ld := LStopped, bar := B.Step(s.bar, B.Detach(0)))
    case LStopped => s
  }

  function CpuStep(cfg: Config, s: State, c: nat): State
    requires Shape(cfg, s) && c < |s.cpus| && s.bar.dev[c + 1].pc == B.Running
  {
    var cpu := s.cpus[c];
    match cpu.pc
    case Top =>
      if cpu.proc == None then FetchStep(cfg, s, c, Skip)
      else if s.pcs[cpu.proc.value] == |cfg.procs[cpu.proc.value].code| then
        FetchStep(cfg, RetireStep(cfg, s, c), c, Recheck)
      else if cpu.left == 0 then RequeueStep(cfg, s, c)
      else s.(cpus := s.cpus[c := cpu.(pc := Recheck)])
    case Fetch => FetchStep(cfg, s, c, Recheck)
    case Recheck =>
      if cpu.proc == None then s.(cpus := s.cpus[c := cpu.(pc := if s.done then Stopping else Skip)])
      else if cpu.left == 0 then s.(cpus := s.cpus[c := cpu.(pc := Run, left := cfg.timeSlot)])
      else s.(cpus := s.cpus[c := cpu.(pc := Run)])
    case Run => if cpu.proc == None then s else RunStep(cfg, s, c)
    case Skip => s.(cpus := s.cpus[c := cpu.(pc := Top)], bar := B.Step(s.bar, B.NextSlot(c + 1)))
    case Stopping => s.(cpus := s.cpus[c := cpu.(pc := Stopped)], bar := B.Step(s.bar, B.Detach(c + 1)))
    case Stopped => s
  }

  /** get_proc; `miss` is where the loop continues when it returns NULL. */
  function FetchStep(cfg: Config, s: State, c: nat, miss: CpuPc): State
    requires Shape(cfg, s) && c < |s.cpus|
  {
    var r := Sched.Get(s.sched);
    if r.1 == None then s.(sched := r.0, cpus := s.cpus[c := s.cpus[c].(pc := miss, proc := None)])
    else
      assert r.1.value < |cfg.procs| by { Sched.Selection(s.sched); }
      s.(sched := r.0, cpus := s.cpus[c := s.cpus[c].(pc := Recheck, proc := r.1)],
         place := s.place[r.1.value := OnCpu(c)])
  }

  /** free(proc), and time_left = 0. */
  function RetireStep(cfg: Config, s: State, c: nat): (t: State)
    requires Shape(cfg, s) && c < |s.cpus| && s.cpus[c].proc.Some?
    ensures Shape(cfg, t) && |t.cpus| == |s.cpus|
  {
    s.(place := s.place[s.cpus[c].proc.value := Retired], cpus := s.cpus[c := s.cpus[c].(proc := None, left := 0)])
  }

  /** put_proc. */
  function RequeueStep(cfg: Config, s: State, c: nat): State
    requires Shape(cfg, s) && c < |s.cpus| && s.cpus[c].proc.Some?
  {
    var p := s.cpus[c].proc.value;
    var prio := cfg.procs[p].prio;
    s.(sched := Sched.Put(s.sched, p, prio), place := s.place[p := Landed(s, prio)],
       cpus := s.cpus[c := s.cpus[c].(pc := Fetch, proc := None)])
  }

  /** run(proc), and time_left--. */
  function RunStep(cfg: Config, s: State, c: nat): State
    requires Shape(cfg, s) && c < |s.cpus| && s.cpus[c].proc.Some?
  {
    var cpu := s.cpus[c];
    var p := cpu.proc.value;
    var code := cfg.procs[p].code;
    var t := s.(calls := s.calls[p := s.calls[p] + 1],
                cpus := s.cpus[c := cpu.(pc := Skip, left := cpu.left - 1)]);
    if s.pcs[p] >= |code| then t
    else t.(pcs := s.pcs[p := s.pcs[p] + 1], trace := s.trace + [Exec(p, code[s.pcs[p]])])
  }
}
