/** What holds in every run of the kernel model. */
module KernelRuns {
  import opened Prelude
  import opened Kernel
  import opened KernelPlaces
  import opened KernelInv
  import Sched
  import B = Barrier

  ghost predicate Inv(cfg: Config, s: State) {
    Places(cfg, s) && Links(cfg, s) && Ran(cfg, s) && Shut(cfg, s)
  }

  lemma InvInit(cfg: Config, s: State)
    requires Init(cfg, s)
    ensures Inv(cfg, s)
  {
    PlacesInit(cfg, s);
    LinksInit(cfg, s);
    RanInit(cfg, s);
    ShutInit(cfg, s);
  }

  lemma InvStep(cfg: Config, s: State, e: Event)
    requires Inv(cfg, s) && Enabled(cfg, s, e)
    ensures Inv(cfg, Step(cfg, s, e))
  {
    PlacesStep(cfg, s, e);
    LinksStep(cfg, s, e);
    RanStep(cfg, s, e);
    ShutStep(cfg, s, e);
  }

  /** `tr` lists the states visited by the events `es` from a start state. */
  ghost predicate IsRun(cfg: Config, tr: seq<State>, es: seq<Event>) {
    && |tr| == |es| + 1 && Init(cfg, tr[0])
    && forall k :: 0 <= k < |es| ==> Enabled(cfg, tr[k], es[k]) && tr[k + 1] == Step(cfg, tr[k], es[k])
  }

  lemma {:induction false} RunInv(cfg: Config, tr: seq<State>, es: seq<Event>, k: nat)
    requires IsRun(cfg, tr, es) && k < |tr|
    ensures Inv(cfg, tr[k])
  {
    hide Inv, Init, Step, Enabled;
    if k == 0 {
      InvInit(cfg, tr[0]);
    } else {
      RunInv(cfg, tr, es, k - 1);
      InvStep(cfg, tr[k - 1], es[k - 1]);
    }
  }

  lemma RunPlaces(cfg: Config, tr: seq<State>, es: seq<Event>, k: nat)
    requires IsRun(cfg, tr, es) && k < |tr|
    ensures Places(cfg, tr[k])
  {
    hide Places, Init, Step, Enabled;
    RunInv(cfg, tr, es, k);
  }

  /** Every run of the kernel drives the barrier through one of the barrier's own runs, so
      that lock step and deadlock freedom of the barrier hold of the threads here. */
  lemma {:induction false} BarrierRun(cfg: Config, tr: seq<State>, es: seq<Event>, k: nat)
    returns (btr: seq<B.State>, bes: seq<B.Event>)
    requires IsRun(cfg, tr, es) && k < |tr|
    ensures B.IsRun(btr, bes) && |bes| <= k && btr[|bes|] == tr[k].bar
  {
    hide Step, Enabled, Inv, B.Step, B.Enabled;
    if k == 0 {
      BarrierStart(cfg, tr[0]);
      btr, bes := [tr[0].bar], [];
    } else {
      btr, bes := BarrierRun(cfg, tr, es, k - 1);
      var s, e := tr[k - 1], es[k - 1];
      assert Enabled(cfg, s, e) && tr[k] == Step(cfg, s, e);
      var be := MovedBy(cfg, s, e);
      if be.Some? {
        btr, bes := btr + [tr[k].bar], bes + [be.value];
      }
    }
  }

  lemma BarrierStart(cfg: Config, s: State)
    requires Init(cfg, s)
    ensures B.Init(s.bar)
  {}

  lemma MovedBy(cfg: Config, s: State, e: Event) returns (be: Option<B.Event>)
    requires Enabled(cfg, s, e)
    ensures BarMoves(s.bar, Step(cfg, s, e).bar, be)
  {
    Simulates(cfg, s, e);
    be := if !Works(s, e) then Some(InsideEvent(e)) else if e.d == 0 then LoaderEvent(s) else CpuEvent(s, e.d - 1);
  }

  // ----------------------------------------------------------------- conservation

  predicate InQueue(cfg: Config, s: State, p: nat)
    requires p < |cfg.procs| && |s.sched.queues| == Sched.MAX_PRIO && cfg.procs[p].prio < Sched.MAX_PRIO
  {
    p in s.sched.queues[cfg.procs[p].prio]
  }

  predicate OnSomeCpu(s: State, p: nat) {
    exists c :: 0 <= c < |s.cpus| && s.cpus[c].proc == Some(p)
  }

  function B2n(b: bool): nat { if b then 1 else 0 }

  /** Every admitted process is in exactly one place: waiting in the queue of its priority,
      on a processor, finished and freed, or dropped by a full queue.  It occupies one queue
      position or one processor only, and a process not yet admitted is nowhere. */
  lemma Conservation(cfg: Config, tr: seq<State>, es: seq<Event>, k: nat, p: nat)
    requires IsRun(cfg, tr, es) && k < |tr| && p < |cfg.procs|
    ensures Shape(cfg, tr[k])
    ensures var s := tr[k];
            B2n(InQueue(cfg, s, p)) + B2n(OnSomeCpu(s, p)) + B2n(s.place[p] == Retired) + B2n(s.place[p] == Dropped)
            == B2n(p < s.next)
    ensures var s := tr[k];
            forall l, m, i, j ::
              (0 <= l < Sched.MAX_PRIO && 0 <= i < |s.sched.queues[l]| && s.sched.queues[l][i] == p &&
               0 <= m < Sched.MAX_PRIO && 0 <= j < |s.sched.queues[m]| && s.sched.queues[m][j] == p)
              ==> l == m == cfg.procs[p].prio && i == j
    ensures var s := tr[k];
            forall c, d ::
              (0 <= c < |s.cpus| && 0 <= d < |s.cpus| && s.cpus[c].proc == Some(p) && s.cpus[d].proc == Some(p))
              ==> c == d
  {
    RunInv(cfg, tr, es, k);
    var s := tr[k];
    assert InQueue(cfg, s, p) <==> s.place[p] == Queued;
    if s.place[p].OnCpu? {
      assert s.cpus[s.place[p].cpu].proc == Some(p);
    }
    assert OnSomeCpu(s, p) <==> s.place[p].OnCpu?;
  }

  function Level(cfg: Config, l: nat): set<nat> {
    set p: nat | p < |cfg.procs| && cfg.procs[p].prio == l
  }

  /** No more processes per priority than a queue can hold. */
  predicate LevelsFit(cfg: Config) {
    forall l: nat :: l < Sched.MAX_PRIO ==> |Level(cfg, l)| <= Sched.MAX_QUEUE_SIZE
  }

  /** A process outside its queue finds room there if the processes of its priority fit. */
  lemma RoomFor(cfg: Config, s: State, p: nat)
    requires Places(cfg, s) && LevelsFit(cfg) && p < |cfg.procs| && s.place[p] != Queued
    ensures Landed(s, cfg.procs[p].prio) == Queued
  {
    var l := cfg.procs[p].prio;
    var q := s.sched.queues[l];
    forall i | 0 <= i < |q| ensures q[i] in Level(cfg, l) - {p} {
      assert cfg.procs[s.sched.queues[l][i]].prio == l;
    }
    NoDupBound(q, Level(cfg, l) - {p});
    assert p in Level(cfg, l);
  }

  predicate NoneDropped(s: State) {
    forall p :: 0 <= p < |s.place| ==> s.place[p] != Dropped
  }

  lemma NoneDroppedCpu(cfg: Config, s: State, c: nat)
    requires Places(cfg, s) && LevelsFit(cfg) && c < |s.cpus| && s.bar.dev[c + 1].pc == B.Running && NoneDropped(s)
    ensures NoneDropped(CpuStep(cfg, s, c))
  {
    hide FetchStep, RetireStep, RequeueStep;
    NoneDroppedFetch(cfg, s, c, Recheck);
    NoneDroppedFetch(cfg, s, c, Skip);
    if s.cpus[c].proc.Some? {
      NoneDroppedRequeue(cfg, s, c);
      NoneDroppedRetire(cfg, s, c);
      NoneDroppedFetch(cfg, RetireStep(cfg, s, c), c, Recheck);
    }
  }

  lemma NoneDroppedFetch(cfg: Config, s: State, c: nat, miss: CpuPc)
    requires Shape(cfg, s) && c < |s.cpus| && NoneDropped(s)
    ensures NoneDropped(FetchStep(cfg, s, c, miss))
  {
    Sched.Selection(s.sched);
  }

  lemma NoneDroppedRetire(cfg: Config, s: State, c: nat)
    requires Shape(cfg, s) && c < |s.cpus| && s.cpus[c].proc.Some? && NoneDropped(s)
    ensures NoneDropped(RetireStep(cfg, s, c))
  {}

  lemma NoneDroppedRequeue(cfg: Config, s: State, c: nat)
    requires Places(cfg, s) && LevelsFit(cfg) && c < |s.cpus| && s.cpus[c].proc.Some? && NoneDropped(s)
    ensures NoneDropped(RequeueStep(cfg, s, c))
  {
    hide Sched.Put;
    assert s.place[s.cpus[c].proc.value] == OnCpu(c);
    RoomFor(cfg, s, s.cpus[c].proc.value);
  }

  /** enqueue's silent drop never happens if at most MAX_QUEUE_SIZE processes share a
      priority, however many there are in all. */
  lemma {:induction false} NothingDropped(cfg: Config, tr: seq<State>, es: seq<Event>, k: nat)
    requires IsRun(cfg, tr, es) && LevelsFit(cfg) && k < |tr|
    ensures NoneDropped(tr[k])
  {
    hide Inv, Step, Enabled, Places;
    if k > 0 {
      NothingDropped(cfg, tr, es, k - 1);
      RunPlaces(cfg, tr, es, k - 1);
      NoneDroppedStep(cfg, tr[k - 1], es[k - 1]);
    }
  }

  lemma NoneDroppedStep(cfg: Config, s: State, e: Event)
    requires Places(cfg, s) && Enabled(cfg, s, e) && LevelsFit(cfg) && NoneDropped(s)
    ensures NoneDropped(Step(cfg, s, e))
  {
    if Works(s, e) && e.d > 0 {
      NoneDroppedCpu(cfg, s, e.d - 1);
    } else if Works(s, e) && s.ld == LAdd {
      RoomFor(cfg, s, s.next);
    }
  }

  // ----------------------------------------------------------------- execution

  /** Across preemption and migration every process has executed exactly a prefix of its
      program, each instruction once and in order. */
  lemma OnceInOrder(cfg: Config, tr: seq<State>, es: seq<Event>, k: nat, p: nat)
    requires IsRun(cfg, tr, es) && k < |tr| && p < |cfg.procs|
    ensures p < |tr[k].pcs| && p < |tr[k].place|
    ensures Proj(tr[k].trace, p) <= cfg.procs[p].code && |Proj(tr[k].trace, p)| == tr[k].pcs[p]
    ensures tr[k].place[p] == Retired ==> Proj(tr[k].trace, p) == cfg.procs[p].code
    ensures tr[k].place[p] == Waiting ==> Proj(tr[k].trace, p) == []
  {
    RunInv(cfg, tr, es, k);
    assert ProcRan(cfg, tr[k], p);
  }

  function SumTo(f: seq<nat>, n: nat): nat
    requires n <= |f|
  {
    if n == 0 then 0 else SumTo(f, n - 1) + f[n - 1]
  }

  function Sum(f: seq<nat>): nat {
    SumTo(f, |f|)
  }

  lemma {:induction false} SumBump(f: seq<nat>, i: nat, n: nat)
    requires i < |f| && n <= |f|
    ensures SumTo(f[i := f[i] + 1], n) == SumTo(f, n) + (if i < n then 1 else 0)
  {
    if n > 0 { SumBump(f, i, n - 1); }
  }

  lemma {:induction false} SumMono(f: seq<nat>, g: seq<nat>, n: nat)
    requires n <= |f| == |g| && forall i :: 0 <= i < n ==> f[i] <= g[i]
    ensures SumTo(f, n) <= SumTo(g, n)
  {
    if n > 0 { SumMono(f, g, n - 1); }
  }

  predicate IsRunCall(s: State, e: Event) {
    Works(s, e) && e.d > 0 && e.d <= |s.cpus| && s.cpus[e.d - 1].pc == Run
  }

  /** How many of the first `k` events call run. */
  function RunCalls(tr: seq<State>, es: seq<Event>, k: nat): nat
    requires k <= |es| < |tr|
  {
    if k == 0 then 0 else RunCalls(tr, es, k - 1) + (if IsRunCall(tr[k - 1], es[k - 1]) then 1 else 0)
  }

  lemma CallsStep(cfg: Config, s: State, e: Event)
    requires Inv(cfg, s) && Enabled(cfg, s, e)
    ensures Sum(Step(cfg, s, e).calls) == Sum(s.calls) + (if IsRunCall(s, e) then 1 else 0)
  {
    if IsRunCall(s, e) {
      SumBump(s.calls, s.cpus[e.d - 1].proc.value, |s.calls|);
    }
  }

  lemma {:induction false} CallsCounted(cfg: Config, tr: seq<State>, es: seq<Event>, k: nat)
    requires IsRun(cfg, tr, es) && k <= |es|
    ensures RunCalls(tr, es, k) == Sum(tr[k].calls)
  {
    if k == 0 {
      SumZero(tr[0].calls, |tr[0].calls|);
    } else {
      CallsCounted(cfg, tr, es, k - 1);
      RunInv(cfg, tr, es, k - 1);
      CallsStep(cfg, tr[k - 1], es[k - 1]);
    }
  }

  lemma {:induction false} SumZero(f: seq<nat>, n: nat)
    requires n <= |f| && forall i :: 0 <= i < n ==> f[i] == 0
    ensures SumTo(f, n) == 0
  {
    if n > 0 { SumZero(f, n - 1); }
  }

  /** The bound on the work of a whole run: run is called at most once per instruction, and
      once for an empty program, whatever the interleaving; each call lowers what is left of
      the bound by exactly one (CallsStep). */
  lemma WorkBound(cfg: Config, tr: seq<State>, es: seq<Event>, k: nat)
    requires IsRun(cfg, tr, es) && k <= |es|
    ensures RunCalls(tr, es, k) <= Sum(seq(|cfg.procs|, p requires 0 <= p < |cfg.procs| => Need(cfg, p)))
  {
    CallsCounted(cfg, tr, es, k);
    RunInv(cfg, tr, es, k);
    var need := seq(|cfg.procs|, p requires 0 <= p < |cfg.procs| => Need(cfg, p));
    forall p | 0 <= p < |need| ensures tr[k].calls[p] <= need[p] {
      assert ProcRan(cfg, tr[k], p);
    }
    SumMono(tr[k].calls, need, |need|);
  }

  // ----------------------------------------------------------------- shutdown

  predicate Over(s: State, p: nat)
    requires p < |s.place|
  {
    s.place[p] == Retired || s.place[p] == Dropped
  }

  /** Sound shutdown: once all CPUs have stopped, every process of the configuration was
      admitted and ran to its end, unless a full queue dropped it. */
  lemma SoundShutdown(cfg: Config, tr: seq<State>, es: seq<Event>, k: nat, p: nat)
    requires IsRun(cfg, tr, es) && k < |tr| && cfg.ncpu >= 1 && p < |cfg.procs|
    requires forall c :: 0 <= c < |tr[k].cpus| ==> tr[k].cpus[c].pc == Stopped
    ensures tr[k].next == |cfg.procs| && |tr[k].place| == |cfg.procs|
    ensures Over(tr[k], p)
    ensures tr[k].place[p] == Retired ==> Proj(tr[k].trace, p) == cfg.procs[p].code
    ensures LevelsFit(cfg) ==> Proj(tr[k].trace, p) == cfg.procs[p].code
  {
    RunInv(cfg, tr, es, k);
    var s := tr[k];
    assert s.cpus[0].pc == Stopped && s.done;
    assert ProcRan(cfg, s, p);
    NotQueued(cfg, s, p);
    if LevelsFit(cfg) {
      NothingDropped(cfg, tr, es, k);
    }
  }

  /** A CPU other than `c` runs process `p`. */
  predicate OnOtherCpu(s: State, p: nat, c: nat) {
    exists d :: 0 <= d < |s.cpus| && s.cpus[d].proc == Some(p) && d != c
  }

  /** A CPU other than `c` will look at the queues again. */
  predicate OtherLive(s: State, c: nat)
    requires |s.bar.dev| == |s.cpus| + 1
  {
    exists d :: 0 <= d < |s.cpus| && Live(s, d) && d != c
  }

  /** When a single CPU decides to stop, every process has been admitted, and every process
      has run to its end, was dropped by a full queue, is held by another CPU, or is queued
      with another CPU still to fetch (see LiveFetches). */
  lemma StopIsSafe(cfg: Config, tr: seq<State>, es: seq<Event>, k: nat, c: nat)
    requires IsRun(cfg, tr, es) && k < |tr| && c < |tr[k].cpus| && tr[k].cpus[c].pc == Stopping
    ensures tr[k].next == |cfg.procs| == |tr[k].place| && |tr[k].bar.dev| == |tr[k].cpus| + 1
    ensures forall p :: 0 <= p < |cfg.procs| ==>
              || (tr[k].place[p] == Retired && Proj(tr[k].trace, p) == cfg.procs[p].code)
              || (tr[k].place[p] == Dropped && !LevelsFit(cfg))
              || OnOtherCpu(tr[k], p, c)
              || (tr[k].place[p] == Queued && OtherLive(tr[k], c))
  {
    RunInv(cfg, tr, es, k);
    var t := tr[k];
    if LevelsFit(cfg) { NothingDropped(cfg, tr, es, k); }
    forall p | 0 <= p < |cfg.procs|
      ensures || (t.place[p] == Retired && Proj(t.trace, p) == cfg.procs[p].code)
              || (t.place[p] == Dropped && !LevelsFit(cfg))
              || OnOtherCpu(t, p, c)
              || (t.place[p] == Queued && OtherLive(t, c))
    {
      assert ProcRan(cfg, t, p);
      if t.place[p] == Queued {
        assert p in t.sched.queues[cfg.procs[p].prio];
        assert SomeQueued(t);
        var d :| 0 <= d < |t.cpus| && Live(t, d);
        assert d != c;
      } else if t.place[p].OnCpu? {
        assert t.cpus[t.place[p].cpu].proc == Some(p);
      }
    }
  }

  /** The event makes CPU `c` call get_proc. */
  predicate Fetches(cfg: Config, s: State, e: Event, c: nat)
    requires Shape(cfg, s) && c < |s.cpus|
  {
    && Works(s, e) && e.d == c + 1
    && var u := s.cpus[c];
       || u.pc == Fetch
       || (u.pc == Top && (u.proc == None || s.pcs[u.proc.value] == |cfg.procs[u.proc.value].code|))
  }

  /** A live CPU stays live through every step but its own call of get_proc. */
  lemma LiveStays(cfg: Config, s: State, e: Event, c: nat)
    requires Inv(cfg, s) && Enabled(cfg, s, e) && c < |s.cpus| && Live(s, c) && !Fetches(cfg, s, e, c)
    ensures var t := Step(cfg, s, e);
            |t.cpus| == |s.cpus| && |t.bar.dev| == |t.cpus| + 1 && Live(t, c)
  {
    hide Ran, Live, LoaderStep, CpuStep, Fetches, SomeQueued, B.Inv;
    if !Works(s, e) {
      LiveInside(cfg, s, e, c);
    } else if e.d > 0 {
      LivePast(cfg, s, e.d - 1, c);
    } else {
      LiveLoader(cfg, s, c);
    }
  }

  lemma LiveInside(cfg: Config, s: State, e: Event, c: nat)
    requires Enabled(cfg, s, e) && !Works(s, e) && c < |s.cpus| && Live(s, c)
    ensures var t := Step(cfg, s, e);
            |t.cpus| == |s.cpus| && |t.bar.dev| == |t.cpus| + 1 && Live(t, c)
  {
    hide B.Step;
    Simulates(cfg, s, e);
    InsideBarrier(s.bar, InsideEvent(e));
  }

  lemma LiveLoader(cfg: Config, s: State, c: nat)
    requires Shape(cfg, s) && LoaderOk(cfg, s) && s.bar.dev[0].pc == B.Running && c < |s.cpus| && Live(s, c)
    ensures var t := LoaderStep(cfg, s);
            |t.cpus| == |s.cpus| && |t.bar.dev| == |t.cpus| + 1 && Live(t, c)
  {
    hide Live;
    PastKept(s, LoaderStep(cfg, s), c);
  }

  lemma PastKept(s: State, t: State, c: nat)
    requires c < |s.cpus| && |t.cpus| == |s.cpus| && |s.bar.dev| == |t.bar.dev| == |s.cpus| + 1
    requires t.cpus[c] == s.cpus[c] && t.bar.dev[c + 1].slots == s.bar.dev[c + 1].slots && s.lastAdd <= t.lastAdd
    requires Live(s, c)
    ensures Live(t, c)
  {}

  lemma NoFetch(cfg: Config, s: State, c: nat)
    requires Shape(cfg, s) && c < |s.cpus| && s.bar.dev[c + 1].pc == B.Running
    requires s.cpus[c].pc == Fetch ==> s.cpus[c].proc == None
    requires !Fetches(cfg, s, Thread(c + 1), c)
    ensures var t := CpuStep(cfg, s, c);
            c < |t.cpus| && (t.cpus[c].pc == Recheck ==> t.cpus[c].proc.Some?)
  {}

  lemma OthersBar(s: State, t: State, d: nat, c: nat)
    requires d < |s.cpus| && c < |s.cpus| && c != d && |s.bar.dev| == |s.cpus| + 1
    requires BarMoves(s.bar, t.bar, CpuEvent(s, d))
    ensures |t.bar.dev| == |s.bar.dev| && t.bar.dev[c + 1].slots == s.bar.dev[c + 1].slots
  {}

  lemma OwnBar(s: State, t: State, d: nat)
    requires d < |s.cpus| && |s.bar.dev| == |s.cpus| + 1
    requires BarMoves(s.bar, t.bar, CpuEvent(s, d))
    ensures |t.bar.dev| == |s.bar.dev|
  {}

  lemma LivePast(cfg: Config, s: State, d: nat, c: nat)
    requires Shape(cfg, s) && Links(cfg, s) && Shut(cfg, s) && d < |s.cpus| && s.bar.dev[d + 1].pc == B.Running
    requires c < |s.cpus| && Live(s, c) && (d == c ==> !Fetches(cfg, s, Thread(c + 1), c))
    ensures var t := CpuStep(cfg, s, d);
            |t.cpus| == |s.cpus| && |t.bar.dev| == |t.cpus| + 1 && Live(t, c)
  {
    hide CpuStep, BarMoves, CpuEvent, Fetches, SomeQueued;
    CpuMoves(cfg, s, d);
    var t := CpuStep(cfg, s, d);
    OwnBar(s, t, d);
    if d == c {
      NoFetch(cfg, s, c);
    } else {
      OthersBar(s, t, d, c);
      PastKept(s, t, c);
    }
  }

  /** A live CPU cannot stop before it has called get_proc once more. */
  lemma {:induction false} LiveFetches(cfg: Config, tr: seq<State>, es: seq<Event>, k: nat, m: nat, c: nat)
    returns (j: nat)
    requires IsRun(cfg, tr, es) && k <= m < |tr| && c < |tr[k].cpus| < |tr[k].bar.dev| && Live(tr[k], c)
    requires c < |tr[m].cpus| && (tr[m].cpus[c].pc == Stopping || tr[m].cpus[c].pc == Stopped)
    ensures k <= j < m && Shape(cfg, tr[j]) && c < |tr[j].cpus| && Fetches(cfg, tr[j], es[j], c)
    decreases m - k
  {
    hide Step, Live, Fetches, Places, Links, Ran, Shut;
    RunInv(cfg, tr, es, k);
    if k == m {
      NotLive(tr[k], c);
    }
    assert Enabled(cfg, tr[k], es[k]) && tr[k + 1] == Step(cfg, tr[k], es[k]);
    if Fetches(cfg, tr[k], es[k], c) {
      j := k;
    } else {
      LiveStays(cfg, tr[k], es[k], c);
      j := LiveFetches(cfg, tr, es, k + 1, m, c);
    }
  }

  lemma NotLive(s: State, c: nat)
    requires c < |s.cpus| < |s.bar.dev| && (s.cpus[c].pc == Stopping || s.cpus[c].pc == Stopped)
    ensures !Live(s, c)
  {}

  lemma NotQueued(cfg: Config, s: State, p: nat)
    requires Places(cfg, s) && Sched.AllEmpty(s.sched) && p < |cfg.procs|
    ensures s.place[p] != Queued
  {
    assert |s.sched.queues[cfg.procs[p].prio]| == 0;
  }

  /** The fetch behind that decision: a get_proc that returns NULL after the last add_proc
      leaves every process over or on another CPU. */
  lemma LastFetch(cfg: Config, tr: seq<State>, es: seq<Event>, k: nat, c: nat, p: nat)
    requires IsRun(cfg, tr, es) && k < |es| && Works(tr[k], es[k]) && es[k].d == c + 1 && c < |tr[k + 1].cpus|
    requires tr[k + 1].cpus[c].pc == Recheck && tr[k + 1].cpus[c].proc == None
    requires tr[k + 1].next == |cfg.procs| && p < |cfg.procs|
    ensures p < |tr[k + 1].place|
    ensures Over(tr[k + 1], p) || OnOtherCpu(tr[k + 1], p, c)
  {
    RunInv(cfg, tr, es, k);
    RunInv(cfg, tr, es, k + 1);
    CpuFrame(cfg, tr[k], c);
    CpuQueues(cfg, tr[k], c);
    var t := tr[k + 1];
    NotQueued(cfg, t, p);
  }

  /** While some thread has not detached, the kernel can take a step that is not a spurious
      wakeup. */
  lemma KernelProgress(cfg: Config, tr: seq<State>, es: seq<Event>, k: nat) returns (e: Event)
    requires IsRun(cfg, tr, es) && k < |tr| && B.SomeUndetached(tr[k].bar)
    ensures Enabled(cfg, tr[k], e) && (e.Thread? || e.Timer?)
  {
    RunInv(cfg, tr, es, k);
    var b := tr[k].bar;
    if j: nat :| j < |b.dev| && b.dev[j].pc == B.Parked {
      e := Thread(j);
    } else if b.timer.CollectAsleep? {
      e := Thread(b.timer.i);
    } else {
      e := Timer;
    }
  }

  // ----------------------------------------------------------------- idle CPUs

  /** A CPU without a process at the head of its loop, or on its way back there. */
  predicate Idle(s: State, c: nat) {
    c < |s.cpus| && s.cpus[c].proc == None && (s.cpus[c].pc == Top || s.cpus[c].pc == Skip)
  }

  predicate NoMoreWork(cfg: Config, s: State) {
    && s.next == |cfg.procs| == |s.place|
    && forall p :: 0 <= p < |s.place| ==> s.place[p] == Retired || s.place[p] == Dropped
  }

  lemma QueueHead(cfg: Config, s: State, l: nat)
    requires Places(cfg, s) && l < Sched.MAX_PRIO && s.sched.queues[l] != []
    ensures s.sched.queues[l][0] < |s.place| && s.place[s.sched.queues[l][0]] == Queued
  {}

  lemma NothingLeft(cfg: Config, s: State)
    requires Places(cfg, s) && NoMoreWork(cfg, s)
    ensures Sched.AllEmpty(s.sched) && forall d :: 0 <= d < |s.cpus| ==> s.cpus[d].proc == None
  {
    forall l | 0 <= l < Sched.MAX_PRIO ensures s.sched.queues[l] == [] {
      if s.sched.queues[l] != [] { QueueHead(cfg, s, l); }
    }
  }

  lemma IdleCpu(cfg: Config, s: State, d: nat)
    requires Shape(cfg, s) && Sched.AllEmpty(s.sched) && d < |s.cpus| && s.cpus[d].proc == None
    requires s.bar.dev[d + 1].pc == B.Running
    ensures CpuStep(cfg, s, d).place == s.place
    ensures s.cpus[d].pc == Top || s.cpus[d].pc == Skip ==> Idle(CpuStep(cfg, s, d), d)
  {
    Sched.Selection(s.sched);
  }

  lemma RestStays(cfg: Config, s: State, e: Event)
    requires Places(cfg, s) && Enabled(cfg, s, e) && NoMoreWork(cfg, s)
    ensures NoMoreWork(cfg, Step(cfg, s, e)) && |Step(cfg, s, e).cpus| == |s.cpus|
  {
    NothingLeft(cfg, s);
    if Works(s, e) && e.d > 0 {
      IdleCpu(cfg, s, e.d - 1);
      CpuFrame(cfg, s, e.d - 1);
    }
  }

  lemma IdleStep(cfg: Config, s: State, e: Event, c: nat)
    requires Places(cfg, s) && Enabled(cfg, s, e) && NoMoreWork(cfg, s) && Idle(s, c)
    ensures NoMoreWork(cfg, Step(cfg, s, e)) && Idle(Step(cfg, s, e), c)
  {
    NothingLeft(cfg, s);
    RestStays(cfg, s, e);
    if Works(s, e) && e.d > 0 {
      IdleCpu(cfg, s, e.d - 1);
      CpuFrame(cfg, s, e.d - 1);
    }
  }

  /** The cleanup condition the loop does not test: a CPU that is idle at the head of its
      loop when the last process is over skips the test of `done` for ever, so it never
      stops, and the program never ends. */
  lemma {:induction false} IdleNeverStops(cfg: Config, tr: seq<State>, es: seq<Event>, c: nat, k: nat, m: nat)
    requires IsRun(cfg, tr, es) && k <= m < |tr| && NoMoreWork(cfg, tr[k]) && Idle(tr[k], c)
    ensures NoMoreWork(cfg, tr[m]) && Idle(tr[m], c)
    decreases m
  {
    hide Places, Step, Enabled, Init, NoMoreWork, Idle;
    if k < m {
      IdleNeverStops(cfg, tr, es, c, k, m - 1);
      RunPlaces(cfg, tr, es, m - 1);
      IdleStep(cfg, tr[m - 1], es[m - 1], c);
    }
  }

  /** The simplest instance: with no process to run, no CPU ever stops. */
  lemma NoProcessNoStop(cfg: Config, tr: seq<State>, es: seq<Event>, c: nat, m: nat)
    requires IsRun(cfg, tr, es) && |cfg.procs| == 0 && c < cfg.ncpu && m < |tr|
    ensures c < |tr[m].cpus| && tr[m].cpus[c].pc != Stopping && tr[m].cpus[c].pc != Stopped
  {
    IdleNeverStops(cfg, tr, es, c, 0, m);
  }

  // ----------------------------------------------------------------- the CPUs that stop

  /** Own steps of a CPU without a process, past the head of its loop, until it has stopped. */
  function StepsToStop(pc: CpuPc): nat {
    match pc
    case Fetch => 3
    case Recheck => 2
    case Stopping => 1
    case _ => 0
  }

  /** Nothing is left to do, `done` is set, and CPU `c` is past the test at the head. */
  ghost predicate Ending(cfg: Config, s: State, c: nat) {
    NoMoreWork(cfg, s) && s.done && c < |s.cpus| && !Idle(s, c)
  }

  lemma EndingAt(cfg: Config, s: State, c: nat)
    requires Inv(cfg, s) && Ending(cfg, s, c)
    ensures s.cpus[c].proc == None
    ensures var pc := s.cpus[c].pc;
            pc == Fetch || pc == Recheck || pc == Stopping || pc == Stopped
    ensures s.cpus[c].pc != Stopped <==> Enabled(cfg, s, Thread(c + 1))
    ensures s.cpus[c].pc != Stopped ==> s.bar.dev[c + 1].pc == B.Running
  {
    hide Ran, Shut;
    NothingLeft(cfg, s);
  }

  lemma EndingCpu(cfg: Config, s: State, c: nat)
    requires Inv(cfg, s) && Ending(cfg, s, c) && s.bar.dev[c + 1].pc == B.Running
    ensures var t := CpuStep(cfg, s, c);
            && c < |t.cpus| && !Idle(t, c)
            && StepsToStop(t.cpus[c].pc) < StepsToStop(s.cpus[c].pc)
  {
    hide Ran, Shut, Links;
    EndingAt(cfg, s, c);
    NothingLeft(cfg, s);
    Sched.Selection(s.sched);
  }

  /** Each of its own steps brings such a CPU nearer to the end; nothing else moves it. */
  lemma EndingStep(cfg: Config, s: State, e: Event, c: nat)
    requires Inv(cfg, s) && Enabled(cfg, s, e) && Ending(cfg, s, c)
    ensures Ending(cfg, Step(cfg, s, e), c)
    ensures var t := Step(cfg, s, e);
            if e == Thread(c + 1) then StepsToStop(t.cpus[c].pc) < StepsToStop(s.cpus[c].pc)
            else t.cpus[c] == s.cpus[c]
  {
    hide Ran, Shut, Links, CpuStep;
    EndingAt(cfg, s, c);
    RestStays(cfg, s, e);
    if Works(s, e) && e.d > 0 {
      CpuFrame(cfg, s, e.d - 1);
      if e.d == c + 1 { EndingCpu(cfg, s, c); }
    }
  }

  /** How many of the events k .. m - 1 are steps of CPU `c`. */
  function OwnSteps(es: seq<Event>, c: nat, k: nat, m: nat): nat
    requires k <= m <= |es|
    decreases m
  {
    if k == m then 0 else OwnSteps(es, c, k, m - 1) + (if es[m - 1] == Thread(c + 1) then 1 else 0)
  }

  lemma {:induction false} EndingRun(cfg: Config, tr: seq<State>, es: seq<Event>, c: nat, k: nat, m: nat)
    requires IsRun(cfg, tr, es) && k <= m < |tr| && Ending(cfg, tr[k], c)
    ensures Ending(cfg, tr[m], c)
    ensures StepsToStop(tr[m].cpus[c].pc) + OwnSteps(es, c, k, m) <= StepsToStop(tr[k].cpus[c].pc) <= 3
    decreases m
  {
    hide Inv, Step, Enabled, NoMoreWork;
    if k < m {
      EndingRun(cfg, tr, es, c, k, m - 1);
      RunInv(cfg, tr, es, m - 1);
      EndingStep(cfg, tr[m - 1], es[m - 1], c);
    }
  }

  /** Which CPUs stop.  From a state where no work is left and `done` is set, look at a CPU
      once it has taken three more steps, or can take none: it has stopped if and only if it
      was not idle.  A CPU that has not stopped and was not idle can always take its step. */
  lemma StopsExactly(cfg: Config, tr: seq<State>, es: seq<Event>, c: nat, k: nat, m: nat)
    requires IsRun(cfg, tr, es) && k <= m < |tr| && c < cfg.ncpu
    requires NoMoreWork(cfg, tr[k]) && tr[k].done
    requires OwnSteps(es, c, k, m) >= 3 || !Enabled(cfg, tr[m], Thread(c + 1))
    ensures c < |tr[m].cpus|
    ensures tr[m].cpus[c].pc == Stopped <==> !Idle(tr[k], c)
  {
    RunInv(cfg, tr, es, k);
    RunInv(cfg, tr, es, m);
    if Idle(tr[k], c) {
      IdleNeverStops(cfg, tr, es, c, k, m);
    } else {
      EndingRun(cfg, tr, es, c, k, m);
      EndingAt(cfg, tr[m], c);
    }
  }
}
