/** The other invariants of the kernel model: threads against the barrier, programs against
    their execution, and the ordering that makes shutdown sound. */
module KernelInv {
  import opened Prelude
  import opened Kernel
  import opened KernelPlaces
  import Sched
  import B = Barrier

  // ----------------------------------------------------------------- threads and barrier

  predicate Held(v: B.Dev) {
    v.pc == B.Parked || v.pc == B.Asleep
  }

  predicate Links(cfg: Config, s: State) {
    && |s.cpus| == cfg.ncpu && |s.bar.dev| == cfg.ncpu + 1
    && B.Inv(s.bar)
    && (s.bar.dev[0].pc == B.Detached <==> s.ld == LStopped)
    && (Held(s.bar.dev[0]) ==> s.ld == LTop || s.ld == LTime)
    && forall c :: 0 <= c < |s.cpus| ==>
         && (s.bar.dev[c + 1].pc == B.Detached <==> s.cpus[c].pc == Stopped)
         && (Held(s.bar.dev[c + 1]) ==> s.cpus[c].pc == Top)
         && (s.cpus[c].pc == Fetch || s.cpus[c].pc == Stopping || s.cpus[c].pc == Stopped ==> s.cpus[c].proc == None)
         && (s.cpus[c].pc == Run ==> s.cpus[c].proc.Some?)
  }

  /** A step inside the barrier reports no slot finished and detaches nobody. */
  lemma InsideBarrier(b: B.State, e: B.Event)
    requires B.Enabled(b, e) && (e.Timer? || e.Recheck? || e.Stop? || e.SpuriousDev? || e.SpuriousTimer?)
    ensures var t := B.Step(b, e);
            && |t.dev| == |b.dev|
            && forall d :: 0 <= d < |b.dev| ==>
                 && t.dev[d].slots == b.dev[d].slots
                 && (t.dev[d].pc == B.Detached <==> b.dev[d].pc == B.Detached)
                 && (Held(t.dev[d]) ==> Held(b.dev[d]))
                 && (b.dev[d].pc == B.Running ==> t.dev[d].pc == B.Running)
  {}

  /** The barrier event of the next step of CPU `c` or of the loader, if it has one. */
  function CpuEvent(s: State, c: nat): Option<B.Event>
    requires c < |s.cpus|
  {
    if s.cpus[c].pc == Skip then Some(B.NextSlot(c + 1))
    else if s.cpus[c].pc == Stopping then Some(B.Detach(c + 1))
    else None
  }

  function LoaderEvent(s: State): Option<B.Event> {
    if s.ld == LSkipTime || s.ld == LSkipTop then Some(B.NextSlot(0))
    else if s.ld == LDetach then Some(B.Detach(0))
    else None
  }

  predicate BarMoves(b: B.State, b': B.State, e: Option<B.Event>) {
    match e
    case None => b' == b
    case Some(be) => B.Enabled(b, be) && b' == B.Step(b, be)
  }

  /** What one step of CPU `c` may touch, where its loop can lead, and its barrier event. */
  predicate CpuMove(s: State, t: State, c: nat)
    requires c < |s.cpus|
  {
    && |t.cpus| == |s.cpus| && (forall k :: 0 <= k < |s.cpus| && k != c ==> t.cpus[k] == s.cpus[k])
    && t.ld == s.ld && t.next == s.next && t.done == s.done && t.lastAdd == s.lastAdd
    && BarMoves(s.bar, t.bar, CpuEvent(s, c))
    && var u, v := s.cpus[c], t.cpus[c];
       && (u.pc == Skip ==> v == u.(pc := Top))
       && (u.pc == Stopping ==> v == u.(pc := Stopped))
       && (u.pc == Stopped ==> v == u)
       && (v.pc == Top ==> u.pc == Skip)
       && (v.pc == Stopped ==> u.pc == Stopping || u.pc == Stopped)
       && (v.pc == Stopping ==> u.pc == Recheck && u.proc == None && v.proc == None && s.done)
       && (v.pc == Fetch ==> v.proc == None)
       && (v.pc == Run && u.pc != Run ==> v.proc.Some?)
  }

  lemma CpuFrame(cfg: Config, s: State, c: nat)
    requires Shape(cfg, s) && c < |s.cpus| && s.bar.dev[c + 1].pc == B.Running
    ensures var t := CpuStep(cfg, s, c);
            && |t.cpus| == |s.cpus| && (forall k :: 0 <= k < |s.cpus| && k != c ==> t.cpus[k] == s.cpus[k])
            && t.ld == s.ld && t.next == s.next && t.done == s.done && t.lastAdd == s.lastAdd
  {}

  lemma CpuBar(cfg: Config, s: State, c: nat)
    requires Shape(cfg, s) && c < |s.cpus| && s.bar.dev[c + 1].pc == B.Running
    ensures BarMoves(s.bar, CpuStep(cfg, s, c).bar, CpuEvent(s, c))
  {}

  lemma CpuControl(cfg: Config, s: State, c: nat)
    requires Shape(cfg, s) && c < |s.cpus| && s.bar.dev[c + 1].pc == B.Running
    ensures var u, v := s.cpus[c], CpuStep(cfg, s, c).cpus[c];
            && (u.pc == Skip ==> v == u.(pc := Top))
            && (u.pc == Stopping ==> v == u.(pc := Stopped))
            && (u.pc == Stopped ==> v == u)
            && (v.pc == Top ==> u.pc == Skip)
            && (v.pc == Stopped ==> u.pc == Stopping || u.pc == Stopped)
            && (v.pc == Stopping ==> u.pc == Recheck && u.proc == None && v.proc == None && s.done)
            && (v.pc == Fetch ==> v.proc == None)
            && (v.pc == Run && u.pc != Run ==> v.proc.Some?)
  {}

  lemma CpuMoves(cfg: Config, s: State, c: nat)
    requires Shape(cfg, s) && c < |s.cpus| && s.bar.dev[c + 1].pc == B.Running
    ensures CpuMove(s, CpuStep(cfg, s, c), c)
  {
    CpuFrame(cfg, s, c);
    CpuBar(cfg, s, c);
    CpuControl(cfg, s, c);
  }

  lemma LinksInit(cfg: Config, s: State)
    requires Init(cfg, s)
    ensures Links(cfg, s)
  {
    B.InvInit(s.bar);
  }

  lemma LinksMove(cfg: Config, s: State, t: State, c: nat)
    requires Links(cfg, s) && c < |s.cpus| && s.bar.dev[c + 1].pc == B.Running
    requires CpuMove(s, t, c)
    requires s.cpus[c].pc == Run ==> t.cpus[c].pc == Skip
    ensures Links(cfg, t)
  {
    var be := CpuEvent(s, c);
    if be.Some? { B.InvStep(s.bar, be.value); }
  }

  lemma LinksLoader(cfg: Config, s: State)
    requires Links(cfg, s) && Shape(cfg, s) && s.bar.dev[0].pc == B.Running
    ensures Links(cfg, LoaderStep(cfg, s))
  {
    var be := LoaderEvent(s);
    if be.Some? { B.InvStep(s.bar, be.value); }
  }

  /** The barrier's own event behind a kernel event that moves no thread's program. */
  function InsideEvent(e: Event): B.Event {
    match e
    case Thread(d) => B.Recheck(d)
    case Timer => B.Timer
    case StopTimer => B.Stop
    case SpuriousDev(d) => B.SpuriousDev(d)
    case SpuriousTimer => B.SpuriousTimer
  }

  /** Whether an event is a step of a thread's own program. */
  predicate Works(s: State, e: Event) {
    e.Thread? && e.d < |s.bar.dev| && s.bar.dev[e.d].pc == B.Running
  }

  lemma LinksStep(cfg: Config, s: State, e: Event)
    requires Links(cfg, s) && Enabled(cfg, s, e)
    ensures Links(cfg, Step(cfg, s, e))
  {
    if !Works(s, e) {
      B.InvStep(s.bar, InsideEvent(e));
      InsideBarrier(s.bar, InsideEvent(e));
    } else if e.d == 0 {
      LinksLoader(cfg, s);
    } else {
      CpuMoves(cfg, s, e.d - 1);
      LinksMove(cfg, s, CpuStep(cfg, s, e.d - 1), e.d - 1);
    }
  }

  /** Every step of the kernel is one step of the barrier, or leaves the barrier alone. */
  lemma Simulates(cfg: Config, s: State, e: Event)
    requires Enabled(cfg, s, e)
    ensures var be := if !Works(s, e) then Some(InsideEvent(e))
                      else if e.d == 0 then LoaderEvent(s) else CpuEvent(s, e.d - 1);
            BarMoves(s.bar, Step(cfg, s, e).bar, be)
  {
    if Works(s, e) && e.d > 0 { CpuBar(cfg, s, e.d - 1); }
  }

  // ----------------------------------------------------------------- programs

  /** The instructions of process `p` in a trace, in order. */
  function Proj(trace: seq<Exec>, p: nat): (r: seq<Inst>) {
    if trace == [] then []
    else Proj(trace[..|trace| - 1], p) + (if trace[|trace| - 1].pid == p then [trace[|trace| - 1].inst] else [])
  }

  /** What `calls` calls of run amount to. */
  predicate ProcRan(cfg: Config, s: State, p: nat)
    requires Shape(cfg, s) && p < |cfg.procs|
  {
    && s.calls[p] <= Need(cfg, p)
    && s.pcs[p] == (if s.calls[p] < |cfg.procs[p].code| then s.calls[p] else |cfg.procs[p].code|)
    && Proj(s.trace, p) == cfg.procs[p].code[..s.pcs[p]]
    && (s.place[p] == Waiting ==> s.calls[p] == 0)
    && (s.place[p] == Queued || s.place[p] == Dropped ==> s.calls[p] < Need(cfg, p))
    && (s.place[p] == Retired ==> s.calls[p] == Need(cfg, p))
  }

  predicate CpuRan(cfg: Config, s: State, c: nat)
    requires Shape(cfg, s) && c < |s.cpus|
  {
    s.cpus[c].proc.Some? ==>
      var p := s.cpus[c].proc.value;
      && (s.cpus[c].pc == Recheck || s.cpus[c].pc == Run ==> s.calls[p] < Need(cfg, p))
      && (s.cpus[c].pc == Top || s.cpus[c].pc == Skip ==> s.calls[p] >= 1)
  }

  predicate Ran(cfg: Config, s: State)
    requires Shape(cfg, s)
  {
    && (forall p :: 0 <= p < |cfg.procs| ==> ProcRan(cfg, s, p))
    && (forall c :: 0 <= c < |s.cpus| ==> CpuRan(cfg, s, c))
  }

  lemma RanInit(cfg: Config, s: State)
    requires Init(cfg, s)
    ensures Shape(cfg, s) && Ran(cfg, s)
  {}

  lemma RanFetch(cfg: Config, s: State, c: nat, miss: CpuPc)
    requires Places(cfg, s) && Ran(cfg, s) && c < |s.cpus| && s.cpus[c].proc == None
    requires Places(cfg, FetchStep(cfg, s, c, miss))
    ensures Ran(cfg, FetchStep(cfg, s, c, miss))
  {
    Sched.Selection(s.sched);
    var t := FetchStep(cfg, s, c, miss);
    var r := Sched.Get(s.sched).1;
    if r.Some? {
      assert s.place[s.sched.queues[t.sched.curr][0]] == Queued;
      assert ProcRan(cfg, s, r.value);
    }
    forall p | 0 <= p < |cfg.procs| ensures ProcRan(cfg, t, p) {
      assert ProcRan(cfg, s, p);
    }
    forall k | 0 <= k < |s.cpus| ensures CpuRan(cfg, t, k) {
      assert CpuRan(cfg, s, k);
    }
  }

  lemma RanRetire(cfg: Config, s: State, c: nat)
    requires Places(cfg, s) && Ran(cfg, s) && c < |s.cpus| && s.cpus[c].proc.Some? && s.cpus[c].pc == Top
    requires s.pcs[s.cpus[c].proc.value] == |cfg.procs[s.cpus[c].proc.value].code|
    ensures Ran(cfg, RetireStep(cfg, s, c))
  {
    var t := RetireStep(cfg, s, c);
    assert CpuRan(cfg, s, c);
    forall p | 0 <= p < |cfg.procs| ensures ProcRan(cfg, t, p) {
      assert ProcRan(cfg, s, p);
    }
    forall k | 0 <= k < |s.cpus| ensures CpuRan(cfg, t, k) {
      assert CpuRan(cfg, s, k);
    }
  }

  lemma RanRequeue(cfg: Config, s: State, c: nat)
    requires Places(cfg, s) && Ran(cfg, s) && c < |s.cpus| && s.cpus[c].proc.Some?
    requires s.pcs[s.cpus[c].proc.value] != |cfg.procs[s.cpus[c].proc.value].code|
    requires Places(cfg, RequeueStep(cfg, s, c))
    ensures Ran(cfg, RequeueStep(cfg, s, c))
  {
    var t := RequeueStep(cfg, s, c);
    forall p | 0 <= p < |cfg.procs| ensures ProcRan(cfg, t, p) {
      assert ProcRan(cfg, s, p);
    }
    forall k | 0 <= k < |s.cpus| ensures CpuRan(cfg, t, k) {
      assert CpuRan(cfg, s, k);
    }
  }

  lemma Prefix(code: seq<Inst>, n: nat)
    requires n < |code|
    ensures code[..n + 1] == code[..n] + [code[n]]
  {}

  lemma RanRun(cfg: Config, s: State, c: nat)
    requires Places(cfg, s) && Ran(cfg, s) && c < |s.cpus| && s.cpus[c].proc.Some? && s.cpus[c].pc == Run
    requires Places(cfg, RunStep(cfg, s, c))
    ensures Ran(cfg, RunStep(cfg, s, c))
  {
    var t := RunStep(cfg, s, c);
    var r := s.cpus[c].proc.value;
    assert CpuRan(cfg, s, c) && s.place[r] == OnCpu(c);
    forall p | 0 <= p < |cfg.procs| ensures ProcRan(cfg, t, p) {
      assert ProcRan(cfg, s, p);
      if t.trace != s.trace {
        assert t.trace[..|t.trace| - 1] == s.trace;
        if p == r { Prefix(cfg.procs[r].code, s.pcs[r]); }
      }
    }
    forall k | 0 <= k < |s.cpus| ensures CpuRan(cfg, t, k) {
      assert CpuRan(cfg, s, k);
      assert s.cpus[k].proc == Some(r) ==> s.place[r] == OnCpu(k);
    }
  }

  /** Steps that change neither programs nor, on a processor, more than the position. */
  lemma RanFrame(cfg: Config, s: State, t: State)
    requires Places(cfg, s) && Ran(cfg, s) && Shape(cfg, t)
    requires t.pcs == s.pcs && t.calls == s.calls && t.trace == s.trace
    requires |t.place| == |s.place|
    requires forall p :: 0 <= p < |s.place| ==>
               t.place[p] == s.place[p] || (s.place[p] == Waiting && (t.place[p] == Queued || t.place[p] == Dropped))
    requires |t.cpus| == |s.cpus|
    requires forall c :: 0 <= c < |s.cpus| ==> t.cpus[c].proc == s.cpus[c].proc && CpuRan(cfg, t, c)
    ensures Ran(cfg, t)
  {
    forall p | 0 <= p < |cfg.procs| ensures ProcRan(cfg, t, p) {
      assert ProcRan(cfg, s, p);
    }
  }

  lemma RanCpu(cfg: Config, s: State, c: nat)
    requires Places(cfg, s) && Links(cfg, s) && Ran(cfg, s) && c < |s.cpus| && s.bar.dev[c + 1].pc == B.Running
    requires Places(cfg, CpuStep(cfg, s, c))
    ensures Ran(cfg, CpuStep(cfg, s, c))
  {
    var cpu := s.cpus[c];
    var t := CpuStep(cfg, s, c);
    if cpu.pc == Fetch || (cpu.pc == Top && cpu.proc == None) {
      RanFetch(cfg, s, c, if cpu.pc == Fetch then Recheck else Skip);
    } else if cpu.pc == Top && s.pcs[cpu.proc.value] == |cfg.procs[cpu.proc.value].code| {
      PlacesRetire(cfg, s, c);
      RanRetire(cfg, s, c);
      RanFetch(cfg, RetireStep(cfg, s, c), c, Recheck);
    } else if cpu.pc == Top && cpu.left == 0 {
      RanRequeue(cfg, s, c);
    } else if cpu.pc == Run {
      RanRun(cfg, s, c);
    } else {
      forall k | 0 <= k < |s.cpus| ensures t.cpus[k].proc == s.cpus[k].proc && CpuRan(cfg, t, k) {
        assert CpuRan(cfg, s, k);
        if k == c && cpu.proc.Some? { assert ProcRan(cfg, s, cpu.proc.value); }
      }
      RanFrame(cfg, s, t);
    }
  }

  lemma RanStep(cfg: Config, s: State, e: Event)
    requires Places(cfg, s) && Links(cfg, s) && Ran(cfg, s) && Enabled(cfg, s, e)
    requires Places(cfg, Step(cfg, s, e))
    ensures Ran(cfg, Step(cfg, s, e))
  {
    hide CpuStep, Proj;
    var t := Step(cfg, s, e);
    if e.Thread? && e.d > 0 && s.bar.dev[e.d].pc == B.Running {
      RanCpu(cfg, s, e.d - 1);
    } else {
      forall k | 0 <= k < |s.cpus| ensures t.cpus[k].proc == s.cpus[k].proc && CpuRan(cfg, t, k) {
        assert CpuRan(cfg, s, k);
      }
      RanFrame(cfg, s, t);
    }
  }

  // ----------------------------------------------------------------- shutdown

  /** The loader's last add_proc lies in an earlier slot than the one CPU `c` works in. */
  predicate PastAdds(s: State, c: nat)
    requires c + 1 < |s.bar.dev|
  {
    s.lastAdd < s.bar.dev[c + 1].slots
  }

  /** CPU `c` will look at the queues again: it has neither stopped nor is it about to find
      `done` set after a get_proc that came later than every add_proc. */
  predicate Live(s: State, c: nat)
    requires c < |s.cpus| && c + 1 < |s.bar.dev|
  {
    && s.cpus[c].pc != Stopping && s.cpus[c].pc != Stopped
    && !(s.cpus[c].pc == Recheck && s.cpus[c].proc == None && PastAdds(s, c))
  }

  predicate SomeLive(s: State)
    requires |s.bar.dev| == |s.cpus| + 1
  {
    exists c :: 0 <= c < |s.cpus| && Live(s, c)
  }

  predicate SomeQueued(s: State)
    requires Sched.Valid(s.sched)
  {
    !Sched.AllEmpty(s.sched)
  }

  predicate LoaderOk(cfg: Config, s: State)
    requires |s.bar.dev| > 0
  {
    && s.next <= |cfg.procs|
    && (s.done <==> s.ld == LDetach || s.ld == LStopped)
    && (s.ld == LDone || s.ld == LDetach || s.ld == LStopped ==> s.next == |cfg.procs|)
    && (s.ld == LSkipTop ==> s.lastAdd == s.bar.dev[0].slots)
    && (s.ld != LSkipTop ==> s.lastAdd < s.bar.dev[0].slots)
  }

  predicate Shut(cfg: Config, s: State)
    requires |s.bar.dev| == |s.cpus| + 1 && Sched.Valid(s.sched)
  {
    && LoaderOk(cfg, s)
    && (s.done ==> forall c :: 0 <= c < |s.cpus| && s.bar.dev[c + 1].pc != B.Detached ==> PastAdds(s, c))
    && (forall c :: 0 <= c < |s.cpus| && (s.cpus[c].pc == Stopping || s.cpus[c].pc == Stopped) ==> s.done)
    && (|s.cpus| > 0 && s.next == |cfg.procs| && SomeQueued(s) ==> SomeLive(s))
  }

  lemma ShutInit(cfg: Config, s: State)
    requires Init(cfg, s)
    ensures Sched.Valid(s.sched) && Shut(cfg, s)
  {}

  /** `done` is set a whole slot after the last add_proc: every CPU has moved on. */
  lemma DoneComesLate(cfg: Config, s: State)
    requires Links(cfg, s) && LoaderOk(cfg, s)
    requires s.bar.dev[0].pc == B.Running && s.ld == LDone
    ensures forall c :: 0 <= c < |s.cpus| && s.bar.dev[c + 1].pc != B.Detached ==> PastAdds(s, c)
  {
    forall c | 0 <= c < |s.cpus| && s.bar.dev[c + 1].pc != B.Detached ensures PastAdds(s, c) {
      B.WorkingLevel(s.bar, 0, c + 1);
    }
  }

  /** At an add_proc no CPU is past it, so each of them will look at the queues again. */
  lemma AddKeepsLive(cfg: Config, s: State, c: nat)
    requires Links(cfg, s) && Shape(cfg, s) && Shut(cfg, s) && c < |s.cpus|
    requires s.bar.dev[0].pc == B.Running && s.ld == LAdd
    ensures Live(LoaderStep(cfg, s), c)
  {
    assert !s.done;
    if s.bar.dev[c + 1].pc == B.Running { B.WorkingLevel(s.bar, 0, c + 1); }
  }

  lemma ShutLoader(cfg: Config, s: State)
    requires Links(cfg, s) && Shape(cfg, s) && Shut(cfg, s) && s.bar.dev[0].pc == B.Running
    ensures Shut(cfg, LoaderStep(cfg, s))
  {
    var t := LoaderStep(cfg, s);
    if s.ld == LDone {
      DoneComesLate(cfg, s);
    }
    forall c | 0 <= c < |t.cpus| && t.bar.dev[c + 1].pc != B.Detached ensures t.done ==> PastAdds(t, c) {
      assert s.done || s.ld == LDone ==> PastAdds(s, c);
    }
    if |t.cpus| > 0 && t.next == |cfg.procs| && SomeQueued(t) {
      if s.ld == LAdd {
        AddKeepsLive(cfg, s, 0);
      } else {
        assert SomeLive(s);
        var c :| 0 <= c < |s.cpus| && Live(s, c);
        assert Live(t, c);
      }
    }
  }

  lemma ShutInside(cfg: Config, s: State, t: State, e: B.Event)
    requires Links(cfg, s) && Sched.Valid(s.sched) && Shut(cfg, s)
    requires B.Enabled(s.bar, e) && (e.Timer? || e.Recheck? || e.Stop? || e.SpuriousDev? || e.SpuriousTimer?)
    requires t == s.(bar := B.Step(s.bar, e))
    ensures Shut(cfg, t)
  {
    InsideBarrier(s.bar, e);
    forall c | 0 <= c < |t.cpus| && t.bar.dev[c + 1].pc != B.Detached ensures t.done ==> PastAdds(t, c) {
      assert s.done ==> PastAdds(s, c);
    }
    if |t.cpus| > 0 && t.next == |cfg.procs| && SomeQueued(t) {
      var c :| 0 <= c < |s.cpus| && Live(s, c);
      assert Live(t, c);
    }
  }

  /** A CPU that turns away from the queues has either found them empty or was not counted
      on: it leaves another live CPU behind whenever something is queued. */
  lemma ShutMove(cfg: Config, s: State, t: State, c: nat)
    requires Links(cfg, s) && Sched.Valid(s.sched) && Sched.Valid(t.sched) && Shut(cfg, s)
    requires c < |s.cpus| && s.bar.dev[c + 1].pc == B.Running && CpuMove(s, t, c)
    requires t.cpus[c].pc == Recheck && t.cpus[c].proc == None ==> !SomeQueued(t)
    requires SomeQueued(t) && !SomeQueued(s) ==> t.cpus[c].pc == Fetch
    ensures Shut(cfg, t)
  {
    forall k | 0 <= k < |t.cpus| && t.bar.dev[k + 1].pc != B.Detached ensures t.done ==> PastAdds(t, k) {
      assert s.done ==> PastAdds(s, k);
    }
    if |t.cpus| > 0 && t.next == |cfg.procs| && SomeQueued(t) {
      if Live(t, c) {
      } else {
        var k :| 0 <= k < |s.cpus| && Live(s, k);
        assert k != c;
        assert Live(t, k);
      }
    }
  }

  /** What a step of CPU `c` does to the queues, as far as emptiness goes. */
  lemma CpuQueues(cfg: Config, s: State, c: nat)
    requires Shape(cfg, s) && c < |s.cpus| && s.bar.dev[c + 1].pc == B.Running
    ensures var t := CpuStep(cfg, s, c);
            && Sched.Valid(t.sched)
            && (t.cpus[c].pc == Recheck && t.cpus[c].proc == None ==> !SomeQueued(t))
            && (SomeQueued(t) && !SomeQueued(s) ==> t.cpus[c].pc == Fetch)
  {
    Sched.Selection(s.sched);
  }

  lemma ShutStep(cfg: Config, s: State, e: Event)
    requires Links(cfg, s) && Enabled(cfg, s, e) && Shut(cfg, s)
    requires Shape(cfg, Step(cfg, s, e))
    ensures Shut(cfg, Step(cfg, s, e))
  {
    hide Shut, CpuStep, LoaderStep, SomeQueued, CpuMove;
    if !Works(s, e) {
      ShutInside(cfg, s, Step(cfg, s, e), InsideEvent(e));
    } else if e.d == 0 {
      ShutLoader(cfg, s);
    } else {
      CpuMoves(cfg, s, e.d - 1);
      CpuQueues(cfg, s, e.d - 1);
      ShutMove(cfg, s, CpuStep(cfg, s, e.d - 1), e.d - 1);
    }
  }
}
