/**
 What the events of a run show about a CPU: how many calls of run a process gets each time it
 holds one, and whether the CPU stops after a get_proc that returned NULL.
 */
module KernelEvents {
  import opened Prelude
  import opened Kernel
  import opened KernelPlaces
  import opened KernelInv
  import opened KernelRuns
  import Sched
  import B = Barrier

  // ----------------------------------------------------------------- quantum

  /** Between two states process p arrives on CPU c. */
  predicate Takes(s: State, t: State, c: nat, p: nat) {
    c < |s.cpus| && c < |t.cpus| && s.cpus[c].proc != Some(p) && t.cpus[c].proc == Some(p)
  }

  /** Between two states process p goes from CPU c back to its queue, or is dropped there. */
  predicate PutsBack(s: State, t: State, c: nat, p: nat) {
    && c < |s.cpus| && s.cpus[c].proc == Some(p)
    && p < |t.place| && (t.place[p] == Queued || t.place[p] == Dropped)
  }

  /** Process p is on CPU c in the states i .. k. */
  ghost predicate Holds(tr: seq<State>, c: nat, p: nat, i: nat, k: nat)
    requires k < |tr|
  {
    forall j :: i <= j <= k ==> c < |tr[j].cpus| && tr[j].cpus[c].proc == Some(p)
  }

  /** The event is a call of run by CPU c. */
  predicate RunsOn(s: State, e: Event, c: nat) {
    IsRunCall(s, e) && e.d == c + 1
  }

  /** How many of the events i .. k - 1 are calls of run by CPU c. */
  function CallsBy(tr: seq<State>, es: seq<Event>, c: nat, i: nat, k: nat): nat
    requires i <= k <= |es| < |tr|
    decreases k
  {
    if i == k then 0 else CallsBy(tr, es, c, i, k - 1) + (if RunsOn(tr[k - 1], es[k - 1], c) then 1 else 0)
  }

  /** What `time_left` says of a process that has had n calls of run since it took the CPU.
      After get_proc it is 0 until the dispatch. */
  predicate CpuQuantum(cfg: Config, u: Cpu, n: nat) {
    && (u.proc == None ==> u.left == 0)
    && (u.proc.Some? ==>
          && (u.pc == Top || u.pc == Recheck || u.pc == Run || u.pc == Skip)
          && (if u.pc == Recheck && u.left == 0 then n == 0 else u.left == cfg.timeSlot - n)
          && (u.pc == Top || u.pc == Skip ==> n >= 1)
          && (cfg.timeSlot >= 1 ==> u.left >= 0 && (u.pc == Run ==> u.left >= 1)))
  }

  /** get_proc does not return the process just freed. */
  lemma OtherProcess(cfg: Config, s: State, c: nat)
    requires Places(cfg, s) && c < |s.cpus| && s.cpus[c].proc.Some?
    ensures Sched.Get(s.sched).1 != s.cpus[c].proc
  {
    hide Sched.Get;
    Sched.Selection(s.sched);
    if Sched.Get(s.sched).1.Some? {
      QueueHead(cfg, s, Sched.Get(s.sched).0.curr);
    }
  }

  lemma QuantumCpu(cfg: Config, s: State, c: nat, n: nat)
    requires Places(cfg, s) && Links(cfg, s) && c < |s.cpus| && s.bar.dev[c + 1].pc == B.Running
    requires CpuQuantum(cfg, s.cpus[c], n)
    ensures var u, t := s.cpus[c], CpuStep(cfg, s, c);
            c < |t.cpus| && CpuQuantum(cfg, t.cpus[c],
                                       if t.cpus[c].proc != u.proc then 0 else n + (if u.pc == Run then 1 else 0))
  {
    hide Sched.Get, Sched.Put;
    if s.cpus[c].proc.Some? { OtherProcess(cfg, s, c); }
  }

  /** Every step keeps that account, starting anew when the process changes. */
  lemma QuantumStep(cfg: Config, s: State, e: Event, c: nat, n: nat)
    requires Places(cfg, s) && Links(cfg, s) && Enabled(cfg, s, e) && c < |s.cpus|
    requires CpuQuantum(cfg, s.cpus[c], n)
    ensures var u, t := s.cpus[c], Step(cfg, s, e);
            c < |t.cpus| && CpuQuantum(cfg, t.cpus[c],
                                       if t.cpus[c].proc != u.proc then 0 else n + (if RunsOn(s, e, c) then 1 else 0))
  {
    hide CpuStep, Places, CpuQuantum;
    if Works(s, e) && e.d > 0 {
      CpuFrame(cfg, s, e.d - 1);
      if e.d == c + 1 { QuantumCpu(cfg, s, c, n); }
    }
  }

  /** Since when the process of a CPU holds it, and the account since then. */
  lemma {:induction false} HeldSince(cfg: Config, tr: seq<State>, es: seq<Event>, k: nat, c: nat) returns (i: nat)
    requires IsRun(cfg, tr, es) && k < |tr| && c < cfg.ncpu
    ensures i <= k && c < |tr[k].cpus|
    ensures CpuQuantum(cfg, tr[k].cpus[c], CallsBy(tr, es, c, i, k))
    ensures tr[k].cpus[c].proc.Some? ==>
              && 0 < i && Takes(tr[i - 1], tr[i], c, tr[k].cpus[c].proc.value)
              && Holds(tr, c, tr[k].cpus[c].proc.value, i, k)
  {
    hide Init, Step, Enabled, Places, Links, Ran, Shut, CpuQuantum;
    if k == 0 {
      i := 0;
      QuantumStart(cfg, tr[0], c);
    } else {
      i := HeldSince(cfg, tr, es, k - 1, c);
      RunInv(cfg, tr, es, k - 1);
      assert Enabled(cfg, tr[k - 1], es[k - 1]) && tr[k] == Step(cfg, tr[k - 1], es[k - 1]);
      QuantumStep(cfg, tr[k - 1], es[k - 1], c, CallsBy(tr, es, c, i, k - 1));
      if tr[k].cpus[c].proc != tr[k - 1].cpus[c].proc { i := k; }
    }
  }

  lemma QuantumStart(cfg: Config, s: State, c: nat)
    requires Init(cfg, s) && c < cfg.ncpu
    ensures c < |s.cpus| && s.cpus[c].proc == None && CpuQuantum(cfg, s.cpus[c], 0)
  {}

  /** Only the head of the loop gives up a process that is neither finished nor kept. */
  lemma PutBackAt(cfg: Config, s: State, e: Event, c: nat, p: nat)
    requires Places(cfg, s) && Enabled(cfg, s, e) && PutsBack(s, Step(cfg, s, e), c, p)
    ensures s.cpus[c].pc == Top && s.cpus[c].left == 0
  {
    hide CpuStep, Sched.Put;
    assert s.place[p] == OnCpu(c);
    StaysOnCpu(cfg, s, e, c, p);
    PutBackCpu(cfg, s, c, p);
  }

  lemma PutBackCpu(cfg: Config, s: State, c: nat, p: nat)
    requires Places(cfg, s) && c < |s.cpus| && s.cpus[c].proc == Some(p) && s.bar.dev[c + 1].pc == B.Running
    requires PutsBack(s, CpuStep(cfg, s, c), c, p)
    ensures s.cpus[c].pc == Top && s.cpus[c].left == 0
  {
    hide Sched.Get, Sched.Put;
    OtherProcess(cfg, s, c);
  }

  /** Where a process is changes only through its own CPU. */
  lemma StaysOnCpu(cfg: Config, s: State, e: Event, c: nat, p: nat)
    requires Places(cfg, s) && Enabled(cfg, s, e) && c < |s.cpus| && s.cpus[c].proc == Some(p)
    ensures var t := Step(cfg, s, e);
            p < |t.place| && (t.place[p] != OnCpu(c) ==> Works(s, e) && e.d == c + 1)
  {
    hide CpuStep, Sched.Put;
    assert s.place[p] == OnCpu(c);
    if Works(s, e) && e.d > 0 { OthersProcess(cfg, s, e.d - 1, p); }
  }

  lemma OthersProcess(cfg: Config, s: State, d: nat, p: nat)
    requires Places(cfg, s) && d < |s.cpus| && s.bar.dev[d + 1].pc == B.Running
    requires p < |s.place| && s.place[p].OnCpu?
    ensures var t := CpuStep(cfg, s, d);
            p < |t.place| && (s.place[p] != OnCpu(d) ==> t.place[p] == s.place[p])
  {
    hide Sched.Get, Sched.Put;
    Sched.Selection(s.sched);
    if Sched.Get(s.sched).1.Some? {
      QueueHead(cfg, s, Sched.Get(s.sched).0.curr);
    }
  }

  /** Full quanta, counted in the events of the run: whenever a process holds a CPU, it took
      it at some event i - 1 and has had at most `time_slot` calls of run since; if it is put
      back, it has had exactly that many. */
  lemma FullQuantum(cfg: Config, tr: seq<State>, es: seq<Event>, k: nat, c: nat, p: nat) returns (i: nat)
    requires IsRun(cfg, tr, es) && k < |tr| && c < cfg.ncpu && c < |tr[k].cpus| && tr[k].cpus[c].proc == Some(p)
    ensures 0 < i <= k && Takes(tr[i - 1], tr[i], c, p) && Holds(tr, c, p, i, k)
    ensures cfg.timeSlot >= 1 ==> CallsBy(tr, es, c, i, k) <= cfg.timeSlot
    ensures k < |es| && PutsBack(tr[k], tr[k + 1], c, p) ==> CallsBy(tr, es, c, i, k) == cfg.timeSlot
  {
    hide Places, Links, Ran, Shut, Step, Enabled;
    i := HeldSince(cfg, tr, es, k, c);
    if k < |es| && PutsBack(tr[k], tr[k + 1], c, p) {
      RunInv(cfg, tr, es, k);
      assert Enabled(cfg, tr[k], es[k]) && tr[k + 1] == Step(cfg, tr[k], es[k]);
      PutBackAt(cfg, tr[k], es[k], c, p);
    }
  }

  /** `time_left` in every state of a run: within the slot length, and 0 without a process. */
  lemma TimeLeft(cfg: Config, tr: seq<State>, es: seq<Event>, k: nat, c: nat)
    requires IsRun(cfg, tr, es) && cfg.timeSlot >= 1 && k < |tr| && c < |tr[k].cpus|
    ensures 0 <= tr[k].cpus[c].left <= cfg.timeSlot
    ensures tr[k].cpus[c].proc == None ==> tr[k].cpus[c].left == 0
  {
    hide Ran, Shut;
    RunInv(cfg, tr, es, k);
    var i := HeldSince(cfg, tr, es, k, c);
  }

  // ----------------------------------------------------------------- stopping after a miss

  /** The event is a call of get_proc by CPU c after it freed or put back its process, and no
      process waits. */
  predicate Misses(cfg: Config, s: State, e: Event, c: nat) {
    && Shape(cfg, s) && c < |s.cpus| && Fetches(cfg, s, e, c) && Sched.AllEmpty(s.sched)
    && (s.cpus[c].proc.Some? || s.cpus[c].pc == Fetch)
  }

  /** CPU c has no process, and goes on with the second test or has passed it. */
  predicate Leaving(s: State, c: nat) {
    && c < |s.cpus| && s.cpus[c].proc == None
    && (s.cpus[c].pc == Recheck || s.cpus[c].pc == Stopping || s.cpus[c].pc == Stopped)
  }

  lemma MissLeaves(cfg: Config, s: State, e: Event, c: nat)
    requires Enabled(cfg, s, e) && Misses(cfg, s, e, c)
    ensures var t := Step(cfg, s, e);
            Leaving(t, c) && t.cpus[c].pc == Recheck && t.done == s.done
  {
    hide Sched.Get;
    Sched.Selection(s.sched);
  }

  /** Such a CPU can take its step until it has stopped. */
  lemma LeavingCan(cfg: Config, s: State, c: nat)
    requires Shape(cfg, s) && Links(cfg, s) && Leaving(s, c)
    ensures s.cpus[c].pc != Stopped <==> Enabled(cfg, s, Thread(c + 1))
    ensures s.cpus[c].pc != Stopped ==> s.bar.dev[c + 1].pc == B.Running
  {}

  lemma LeavingInRun(cfg: Config, tr: seq<State>, es: seq<Event>, m: nat, c: nat)
    requires IsRun(cfg, tr, es) && m < |tr| && Leaving(tr[m], c)
    ensures tr[m].cpus[c].pc != Stopped <==> Enabled(cfg, tr[m], Thread(c + 1))
  {
    hide Ran, Shut, Step;
    RunInv(cfg, tr, es, m);
    LeavingCan(cfg, tr[m], c);
  }

  /** Its own step is the test of `done`, or the way out; no other step moves it. */
  lemma LeavingStep(cfg: Config, s: State, e: Event, c: nat)
    requires Links(cfg, s) && Enabled(cfg, s, e) && Leaving(s, c)
    ensures var t := Step(cfg, s, e);
            && c < |t.cpus| && (s.done ==> t.done)
            && if e != Thread(c + 1) then t.cpus[c] == s.cpus[c]
               else if s.cpus[c].pc == Recheck && !s.done then Idle(t, c)
               else Leaving(t, c) && StepsToStop(t.cpus[c].pc) == StepsToStop(s.cpus[c].pc) - 1
  {
    hide CpuStep;
    LeavingCan(cfg, s, c);
    if Works(s, e) && e.d > 0 {
      CpuFrame(cfg, s, e.d - 1);
      if e.d == c + 1 { LeavingCpu(cfg, s, c); }
    }
  }

  lemma LeavingCpu(cfg: Config, s: State, c: nat)
    requires Shape(cfg, s) && Leaving(s, c) && s.cpus[c].pc != Stopped && s.bar.dev[c + 1].pc == B.Running
    ensures var t := CpuStep(cfg, s, c);
            && c < |t.cpus|
            && if s.cpus[c].pc == Recheck && !s.done then Idle(t, c)
               else Leaving(t, c) && StepsToStop(t.cpus[c].pc) == StepsToStop(s.cpus[c].pc) - 1
  {}

  lemma {:induction false} LeavingRun(cfg: Config, tr: seq<State>, es: seq<Event>, c: nat, k: nat, m: nat)
    requires IsRun(cfg, tr, es) && k <= m < |tr| && Leaving(tr[k], c) && tr[k].done
    ensures Leaving(tr[m], c) && tr[m].done
    ensures StepsToStop(tr[m].cpus[c].pc) + OwnSteps(es, c, k, m) <= StepsToStop(tr[k].cpus[c].pc) <= 2
    decreases m
  {
    hide Places, Links, Ran, Shut, Step, Enabled;
    if k < m {
      LeavingRun(cfg, tr, es, c, k, m - 1);
      RunInv(cfg, tr, es, m - 1);
      assert Enabled(cfg, tr[m - 1], es[m - 1]) && tr[m] == Step(cfg, tr[m - 1], es[m - 1]);
      LeavingStep(cfg, tr[m - 1], es[m - 1], c);
    }
  }

  lemma LeavingEnd(s: State, c: nat)
    requires Leaving(s, c)
    ensures c < |s.cpus| && (StepsToStop(s.cpus[c].pc) == 0 ==> s.cpus[c].pc == Stopped)
  {}

  /** A CPU whose get_proc returns NULL after it freed or put back its process, while `done`
      is set, has stopped once it has taken two more steps, or can take none. */
  lemma MissStops(cfg: Config, tr: seq<State>, es: seq<Event>, k: nat, m: nat, c: nat)
    requires IsRun(cfg, tr, es) && k < m < |tr| && Misses(cfg, tr[k], es[k], c) && tr[k].done
    requires OwnSteps(es, c, k + 1, m) >= 2 || !Enabled(cfg, tr[m], Thread(c + 1))
    ensures c < |tr[m].cpus| && tr[m].cpus[c].pc == Stopped
  {
    hide Step, Misses, Enabled, Leaving, Init;
    assert Enabled(cfg, tr[k], es[k]) && tr[k + 1] == Step(cfg, tr[k], es[k]);
    MissLeaves(cfg, tr[k], es[k], c);
    LeavingRun(cfg, tr, es, c, k + 1, m);
    LeavingInRun(cfg, tr, es, m, c);
    LeavingEnd(tr[m], c);
  }

  lemma {:induction false} Untouched(cfg: Config, tr: seq<State>, es: seq<Event>, c: nat, k: nat, m: nat)
    requires IsRun(cfg, tr, es) && k <= m < |tr| && Leaving(tr[k], c) && OwnSteps(es, c, k, m) == 0
    ensures c < |tr[m].cpus| && tr[m].cpus[c] == tr[k].cpus[c]
    decreases m
  {
    hide Places, Links, Ran, Shut, Step, Enabled;
    if k < m {
      Untouched(cfg, tr, es, c, k, m - 1);
      RunInv(cfg, tr, es, m - 1);
      assert Enabled(cfg, tr[m - 1], es[m - 1]) && tr[m] == Step(cfg, tr[m - 1], es[m - 1]);
      LeavingStep(cfg, tr[m - 1], es[m - 1], c);
    }
  }

  /** In general: the next step of a CPU after such a get_proc decides to stop if and only if
      `done` is set by then; otherwise the CPU goes back to the head of its loop without a
      process. */
  lemma MissTests(cfg: Config, tr: seq<State>, es: seq<Event>, k: nat, m: nat, c: nat)
    requires IsRun(cfg, tr, es) && k < m < |es| && Misses(cfg, tr[k], es[k], c)
    requires OwnSteps(es, c, k + 1, m) == 0 && es[m] == Thread(c + 1)
    ensures c < |tr[m + 1].cpus| && (tr[m + 1].cpus[c].pc == Stopping <==> tr[m].done)
    ensures !tr[m].done ==> Idle(tr[m + 1], c)
  {
    hide Places, Ran, Shut, Step, Misses, Enabled;
    assert Enabled(cfg, tr[k], es[k]) && tr[k + 1] == Step(cfg, tr[k], es[k]);
    assert Enabled(cfg, tr[m], es[m]) && tr[m + 1] == Step(cfg, tr[m], es[m]);
    MissLeaves(cfg, tr[k], es[k], c);
    Untouched(cfg, tr, es, c, k + 1, m);
    RunInv(cfg, tr, es, m);
    LeavingStep(cfg, tr[m], es[m], c);
  }

  /** An event after which a process counts as finished is its CPU's get_proc at the head of
      the loop. */
  lemma RetiredAt(cfg: Config, s: State, e: Event, c: nat, p: nat)
    requires Places(cfg, s) && Enabled(cfg, s, e) && c < |s.cpus| && s.cpus[c].proc == Some(p)
    requires p < |Step(cfg, s, e).place| && Step(cfg, s, e).place[p] == Retired
    ensures Fetches(cfg, s, e, c)
  {
    hide CpuStep, Sched.Put;
    StaysOnCpu(cfg, s, e, c, p);
    RetiredCpu(cfg, s, c, p);
  }

  lemma RetiredCpu(cfg: Config, s: State, c: nat, p: nat)
    requires Places(cfg, s) && c < |s.cpus| && s.cpus[c].proc == Some(p) && s.bar.dev[c + 1].pc == B.Running
    requires p < |CpuStep(cfg, s, c).place| && CpuStep(cfg, s, c).place[p] == Retired
    ensures Fetches(cfg, s, Thread(c + 1), c)
  {
    hide Sched.Get, Sched.Put;
    assert s.place[p] == OnCpu(c);
  }

  /** The last process: if `done` is set when it retires, every other process being over, the
      CPU that retires it has stopped after two more steps of its own, or when it can take
      none. */
  lemma LastRetires(cfg: Config, tr: seq<State>, es: seq<Event>, k: nat, m: nat, c: nat, p: nat)
    requires IsRun(cfg, tr, es) && k < m < |tr| && tr[k].done
    requires c < |tr[k].cpus| && tr[k].cpus[c].proc == Some(p) && p < |tr[k + 1].place| && tr[k + 1].place[p] == Retired
    requires forall q :: 0 <= q < |tr[k].place| && q != p ==> Over(tr[k], q)
    requires OwnSteps(es, c, k + 1, m) >= 2 || !Enabled(cfg, tr[m], Thread(c + 1))
    ensures c < |tr[m].cpus| && tr[m].cpus[c].pc == Stopped
  {
    hide Ran, Shut, Step, Enabled, Links;
    var s := tr[k];
    assert Enabled(cfg, s, es[k]) && tr[k + 1] == Step(cfg, s, es[k]);
    RunInv(cfg, tr, es, k);
    RetiredAt(cfg, s, es[k], c, p);
    assert s.place[p] == OnCpu(c);
    forall q | 0 <= q < |s.place| ensures s.place[q] != Queued {
      assert q == p || Over(s, q);
    }
    forall l | 0 <= l < Sched.MAX_PRIO ensures s.sched.queues[l] == [] {
      if s.sched.queues[l] != [] { QueueHead(cfg, s, l); }
    }
    MissStops(cfg, tr, es, k, m, c);
  }

  // ----------------------------------------------------------------- why a CPU is idle

  /** The event is a step of CPU c, without a process, that leads back to the head of its loop:
      get_proc at the head while no process waits, or the second test while `done` is not set. */
  predicate GoesIdle(s: State, e: Event, c: nat) {
    && Works(s, e) && e.d == c + 1 && c < |s.cpus| && s.cpus[c].proc == None
    && (if s.cpus[c].pc == Top then Sched.Valid(s.sched) && Sched.AllEmpty(s.sched)
        else s.cpus[c].pc == Recheck && !s.done)
  }

  /** Such steps, and nothing else, make a CPU idle; an idle CPU stays so until its next
      get_proc. */
  lemma IdleCause(cfg: Config, s: State, e: Event, c: nat)
    requires Places(cfg, s) && Links(cfg, s) && Enabled(cfg, s, e) && c < |s.cpus|
    ensures GoesIdle(s, e, c) ==> Idle(Step(cfg, s, e), c)
    ensures Idle(Step(cfg, s, e), c) && !GoesIdle(s, e, c) ==> Idle(s, c)
  {
    hide CpuStep, Places;
    if Works(s, e) && e.d > 0 {
      CpuFrame(cfg, s, e.d - 1);
      if e.d == c + 1 { IdleCauseCpu(cfg, s, c); }
    }
  }

  lemma IdleCauseCpu(cfg: Config, s: State, c: nat)
    requires Shape(cfg, s) && Links(cfg, s) && c < |s.cpus| && s.bar.dev[c + 1].pc == B.Running
    ensures GoesIdle(s, Thread(c + 1), c) ==> Idle(CpuStep(cfg, s, c), c)
    ensures Idle(CpuStep(cfg, s, c), c) && !GoesIdle(s, Thread(c + 1), c) ==> Idle(s, c)
  {
    hide Sched.Get, Sched.Put;
    Sched.Selection(s.sched);
  }

  /** Why a CPU is idle, over whole runs: it has been since the start, or since such a step. */
  lemma {:induction false} IdleSince(cfg: Config, tr: seq<State>, es: seq<Event>, k: nat, c: nat) returns (i: nat)
    requires IsRun(cfg, tr, es) && k < |tr| && c < cfg.ncpu && Idle(tr[k], c)
    ensures i <= k && (i == 0 || GoesIdle(tr[i - 1], es[i - 1], c))
    ensures forall j :: i <= j <= k ==> Idle(tr[j], c)
  {
    hide Places, Ran, Shut, Step, Enabled, GoesIdle, Idle;
    i := k;
    if k > 0 && !GoesIdle(tr[k - 1], es[k - 1], c) {
      RunInv(cfg, tr, es, k - 1);
      assert Enabled(cfg, tr[k - 1], es[k - 1]) && tr[k] == Step(cfg, tr[k - 1], es[k - 1]);
      IdleCause(cfg, tr[k - 1], es[k - 1], c);
      i := IdleSince(cfg, tr, es, k - 1, c);
    }
  }
}
