/**
 The work of every run ends: a bound on the steps of timer, loader and CPUs before all
 processes are over and `done` is set.

 Within a slot each step lowers a rank.  The number of slots is bounded because the loader
 waits or admits one process per slot, and because, once the loader has ended, a slot in
 which no CPU runs an instruction leaves no work behind.
 */
module KernelEnds {
  import opened Prelude
  import opened Kernel
  import opened KernelPlaces
  import opened KernelInv
  import opened KernelRuns
  import Sched
  import B = Barrier

  predicate AtRest(cfg: Config, s: State) {
    NoMoreWork(cfg, s) && s.done
  }

  // ----------------------------------------------------------------- the rank within a slot

  function CpuRank(pc: CpuPc): nat {
    match pc
    case Top => 8
    case Fetch => 7
    case Recheck => 6
    case Run => 5
    case Skip => 4
    case Stopping => 4
    case Stopped => 0
  }

  function LoaderRank(pc: LdPc): nat {
    match pc
    case LTop => 8
    case LTime => 7
    case LAdd => 6
    case LDone => 6
    case LSkipTime => 4
    case LSkipTop => 4
    case LDetach => 4
    case LStopped => 0
  }

  /** What device `d` may still do before the time advances: wait to be released, run through
      its loop, and wait for the others. */
  function DevRank(s: State, d: nat): (r: nat)
    requires d < |s.bar.dev| == |s.cpus| + 1
    ensures r <= 11
  {
    var v := s.bar.dev[d];
    match v.pc
    case Detached => 0
    case Running => if d == 0 then LoaderRank(s.ld) else CpuRank(s.cpus[d - 1].pc)
    case Parked => if !v.done then 9 else if v.slots > s.bar.time then 1 else 11
    case Asleep => if v.slots > s.bar.time then 0 else 10
  }

  function TimerRank(b: B.State): int {
    var n := |b.dev|;
    match b.timer
    case Release(i, _, _) => 3 * n - i + 4
    case Top => 2 * n + 3
    case Collect(i, _, _) => 2 * (n - i) + 2
    case CollectAsleep(i, _, _) => 2 * (n - i) + 1
    case Exited => 0
  }

  function Ranks(s: State): (r: seq<nat>)
    requires |s.bar.dev| == |s.cpus| + 1
    ensures |r| == |s.bar.dev| && forall d :: 0 <= d < |r| ==> r[d] == DevRank(s, d)
  {
    seq(|s.bar.dev|, d requires 0 <= d < |s.bar.dev| => DevRank(s, d))
  }

  function SlotRank(s: State): int
    requires |s.bar.dev| == |s.cpus| + 1
  {
    TimerRank(s.bar) + Sum(Ranks(s))
  }

  lemma {:induction false} SumBound(f: seq<nat>, n: nat, c: nat)
    requires n <= |f| && forall i :: 0 <= i < n ==> f[i] <= c
    ensures SumTo(f, n) <= c * n
  {
    if n > 0 { SumBound(f, n - 1, c); }
  }

  /** Changing one summand. */
  lemma {:induction false} SumOne(f: seq<nat>, g: seq<nat>, i: nat, n: nat)
    requires i < |f| == |g| && n <= |f| && forall j :: 0 <= j < n && j != i ==> f[j] == g[j]
    ensures if i < n then SumTo(g, n) + f[i] == SumTo(f, n) + g[i] else SumTo(g, n) == SumTo(f, n)
  {
    if n > 0 { SumOne(f, g, i, n - 1); }
  }

  lemma SlotRankBound(cfg: Config, s: State)
    requires Links(cfg, s)
    ensures 0 <= SlotRank(s) <= 14 * |s.bar.dev| + 4
  {
    SumBound(Ranks(s), |s.bar.dev|, 11);
  }

  /** A step that changes the rank of device `d` only, and the timer's. */
  lemma RankOne(s: State, t: State, d: nat)
    requires |s.bar.dev| == |s.cpus| + 1 == |t.bar.dev| == |t.cpus| + 1 && d < |s.bar.dev|
    requires forall j :: 0 <= j < |s.bar.dev| && j != d ==> DevRank(t, j) == DevRank(s, j)
    ensures SlotRank(t) - SlotRank(s) == TimerRank(t.bar) - TimerRank(s.bar) + DevRank(t, d) - DevRank(s, d)
  {
    SumOne(Ranks(s), Ranks(t), d, |s.bar.dev|);
  }

  /** The loader's own step. */
  lemma LoaderLowers(cfg: Config, s: State)
    requires Links(cfg, s) && Shape(cfg, s) && s.bar.dev[0].pc == B.Running
    ensures var t := LoaderStep(cfg, s);
            |t.bar.dev| == |s.bar.dev| && t.bar.time == s.bar.time && |t.cpus| == |s.cpus| && SlotRank(t) < SlotRank(s)
  {
    hide Sum, Ranks;
    assert B.SlotsOk(s.bar, 0);
    RankOne(s, LoaderStep(cfg, s), 0);
  }

  /** The timer is woken at most; the other devices stay as they are. */
  lemma CpuKeeps(s: State, t: State, c: nat)
    requires c < |s.cpus| && |s.bar.dev| == |s.cpus| + 1 && CpuMove(s, t, c)
    ensures |t.bar.dev| == |s.bar.dev| && t.bar.time == s.bar.time
    ensures forall j :: 0 <= j < |s.bar.dev| && j != c + 1 ==> DevRank(t, j) == DevRank(s, j)
    ensures CpuEvent(s, c) == None ==> t.bar == s.bar
    ensures TimerRank(t.bar) <= TimerRank(s.bar) + 1
  {}

  /** The program of a CPU moves on. */
  lemma CpuForward(cfg: Config, s: State, c: nat)
    requires Links(cfg, s) && Shape(cfg, s) && c < |s.cpus| && s.bar.dev[c + 1].pc == B.Running
    ensures var t := CpuStep(cfg, s, c);
            c < |t.cpus| && c + 1 < |t.bar.dev|
            && match s.cpus[c].pc
               case Skip => t.bar.dev[c + 1] == s.bar.dev[c + 1].(pc := B.Parked, done := true, slots := s.bar.time + 1)
               case Stopping => t.bar.dev[c + 1].pc == B.Detached
               case _ => CpuRank(t.cpus[c].pc) < CpuRank(s.cpus[c].pc)
  {
    assert B.SlotsOk(s.bar, c + 1);
  }

  lemma CpuLowers(cfg: Config, s: State, c: nat)
    requires Links(cfg, s) && Shape(cfg, s) && c < |s.cpus| && s.bar.dev[c + 1].pc == B.Running
    ensures var t := CpuStep(cfg, s, c);
            |t.bar.dev| == |s.bar.dev| && t.bar.time == s.bar.time && |t.cpus| == |s.cpus| && SlotRank(t) < SlotRank(s)
  {
    hide Sum, Ranks, CpuStep, TimerRank;
    var t := CpuStep(cfg, s, c);
    CpuMoves(cfg, s, c);
    CpuKeeps(s, t, c);
    CpuForward(cfg, s, c);
    RankOne(s, t, c + 1);
  }

  /** A held device tests `done`. */
  lemma RecheckLowers(cfg: Config, s: State, d: nat)
    requires Links(cfg, s) && d < |s.bar.dev| && s.bar.dev[d].pc == B.Parked
    ensures SlotRank(s.(bar := B.Step(s.bar, B.Recheck(d)))) < SlotRank(s)
  {
    hide Sum, Ranks;
    assert B.SlotsOk(s.bar, d) && Held(s.bar.dev[d]);
    RankOne(s, s.(bar := B.Step(s.bar, B.Recheck(d))), d);
  }

  /** A timer step, unless it advances the time. */
  lemma TimerLowers(cfg: Config, s: State)
    requires Links(cfg, s) && B.Enabled(s.bar, B.Timer)
    requires B.TimerStep(s.bar).time == s.bar.time
    ensures SlotRank(s.(bar := B.TimerStep(s.bar))) < SlotRank(s)
  {
    hide Sum, Ranks;
    var t := s.(bar := B.TimerStep(s.bar));
    var d := if s.bar.timer.Release? && s.bar.timer.i < |s.bar.dev| then s.bar.timer.i else 0;
    assert B.SlotsOk(s.bar, d);
    RankOne(s, t, d);
  }

  lemma SpuriousRaises(cfg: Config, s: State, e: Event)
    requires Links(cfg, s) && Enabled(cfg, s, e) && (e.SpuriousDev? || e.SpuriousTimer?)
    ensures Step(cfg, s, e).bar.time == s.bar.time && SlotRank(Step(cfg, s, e)) <= SlotRank(s) + 1
  {
    hide Sum, Ranks;
    RankOne(s, Step(cfg, s, e), if e.SpuriousDev? then e.d else 0);
  }

  /** Every step of a thread or of the timer lowers the rank or advances the time; a spurious
      wakeup raises the rank by one at most. */
  lemma RankStep(cfg: Config, s: State, e: Event)
    requires Links(cfg, s) && Enabled(cfg, s, e) && !e.StopTimer?
    requires Links(cfg, Step(cfg, s, e))
    ensures var t := Step(cfg, s, e);
            && |t.bar.dev| == |s.bar.dev|
            && if e.Thread? then t.bar.time == s.bar.time && SlotRank(t) < SlotRank(s)
               else if e.Timer? then
                 t.bar.time == s.bar.time + 1 || (t.bar.time == s.bar.time && SlotRank(t) < SlotRank(s))
               else t.bar.time == s.bar.time && SlotRank(t) <= SlotRank(s) + 1
  {
    hide SlotRank, Links, LoaderStep, CpuStep;
    DeviceCount(cfg, s);
    DeviceCount(cfg, Step(cfg, s, e));
    match e
    case Thread(d) =>
      if s.bar.dev[d].pc == B.Parked {
        RecheckLowers(cfg, s, d);
      } else if d == 0 {
        LoaderLowers(cfg, s);
      } else {
        CpuLowers(cfg, s, d - 1);
      }
    case Timer =>
      if B.TimerStep(s.bar).time == s.bar.time { TimerLowers(cfg, s); }
    case _ => SpuriousRaises(cfg, s, e);
  }

  lemma DeviceCount(cfg: Config, s: State)
    requires Links(cfg, s)
    ensures |s.bar.dev| == |s.cpus| + 1 == cfg.ncpu + 1
  {}

  // ----------------------------------------------------------------- the loader's slots

  /** The slot in which process p is admitted: its start time, but not before the slot after
      the admission of its predecessor. */
  function AddSlot(procs: seq<Load>, p: nat): (m: nat)
    requires p < |procs|
    ensures procs[p].start <= m
  {
    if p > 0 && AddSlot(procs, p - 1) + 1 > procs[p].start then AddSlot(procs, p - 1) + 1 else procs[p].start
  }

  lemma {:induction false} AddSlotGrows(procs: seq<Load>, p: nat, q: nat)
    requires p <= q < |procs|
    ensures AddSlot(procs, p) + (q - p) <= AddSlot(procs, q)
  {
    if p < q { AddSlotGrows(procs, p, q - 1); }
  }

  /** The loader is neither early nor late: it finishes a slot only while the next process is
      not due, or after an admission, and it admits a process in the slot it is due. */
  predicate Pace(cfg: Config, s: State)
    requires |s.bar.dev| > 0
  {
    var slots := s.bar.dev[0].slots;
    && s.next <= |cfg.procs| && s.lastAdd <= s.bar.time
    && s.lastAdd == (if s.next == 0 then -1 else AddSlot(cfg.procs, s.next - 1))
    && if s.next == |cfg.procs| then s.ld != LStopped ==> slots <= s.lastAdd + 1
       else
         var due := AddSlot(cfg.procs, s.next);
         && (s.ld == LTop || s.ld == LTime ==> slots <= due)
         && (s.ld == LSkipTime ==> slots < due)
         && (s.ld == LAdd ==> slots == due)
  }

  lemma PaceStart(cfg: Config, s: State)
    requires Init(cfg, s)
    ensures |s.bar.dev| > 0 && Pace(cfg, s)
  {}

  lemma PaceStep(cfg: Config, s: State, e: Event)
    requires Links(cfg, s) && Enabled(cfg, s, e) && LoaderOk(cfg, s) && Pace(cfg, s)
    ensures |Step(cfg, s, e).bar.dev| > 0 && Pace(cfg, Step(cfg, s, e))
  {
    hide CpuStep, AddSlot;
    TimeStep(cfg, s, e);
    if !Works(s, e) {
      InsideBarrier(s.bar, InsideEvent(e));
    } else if e.d == 0 {
      PaceLoader(cfg, s);
    } else {
      CpuMoves(cfg, s, e.d - 1);
    }
  }

  lemma PaceLoader(cfg: Config, s: State)
    requires Links(cfg, s) && Shape(cfg, s) && s.bar.dev[0].pc == B.Running && LoaderOk(cfg, s) && Pace(cfg, s)
    ensures var t := LoaderStep(cfg, s);
            |t.bar.dev| > 0 && Pace(cfg, t)
  {
    assert B.SlotsOk(s.bar, 0);
  }

  lemma {:induction false} RunPace(cfg: Config, tr: seq<State>, es: seq<Event>, k: nat)
    requires IsRun(cfg, tr, es) && k < |tr|
    ensures |tr[k].bar.dev| > 0 && Pace(cfg, tr[k])
  {
    hide Init, Step, Enabled, Pace;
    if k == 0 {
      PaceStart(cfg, tr[0]);
    } else {
      RunPace(cfg, tr, es, k - 1);
      RunInv(cfg, tr, es, k - 1);
      assert Enabled(cfg, tr[k - 1], es[k - 1]) && tr[k] == Step(cfg, tr[k - 1], es[k - 1]);
      PaceStep(cfg, tr[k - 1], es[k - 1]);
    }
  }

  /** Admission on time, in every run: a process is not admitted before its slot, nor is it
      still waiting after it; so the event that admits it happens in exactly that slot. */
  lemma AdmittedOnTime(cfg: Config, tr: seq<State>, es: seq<Event>, k: nat, p: nat)
    requires IsRun(cfg, tr, es) && k < |tr| && p < |cfg.procs|
    ensures p < |tr[k].place|
    ensures tr[k].place[p] != Waiting ==> cfg.procs[p].start <= AddSlot(cfg.procs, p) <= tr[k].bar.time
    ensures tr[k].place[p] == Waiting ==> tr[k].bar.time <= AddSlot(cfg.procs, p)
    ensures k < |es| && tr[k].place[p] == Waiting ==>
              p < |tr[k + 1].place| && (tr[k + 1].place[p] != Waiting ==> tr[k].bar.time == AddSlot(cfg.procs, p))
  {
    hide AddSlot, Step, Enabled;
    AdmittedBy(cfg, tr, es, k, p);
    if k < |es| && tr[k].place[p] == Waiting {
      AdmittedBy(cfg, tr, es, k + 1, p);
      assert Enabled(cfg, tr[k], es[k]) && tr[k + 1] == Step(cfg, tr[k], es[k]);
      TimeStep(cfg, tr[k], es[k]);
    }
  }

  lemma AdmittedBy(cfg: Config, tr: seq<State>, es: seq<Event>, k: nat, p: nat)
    requires IsRun(cfg, tr, es) && k < |tr| && p < |cfg.procs|
    ensures p < |tr[k].place|
    ensures tr[k].place[p] != Waiting ==> AddSlot(cfg.procs, p) <= tr[k].bar.time
    ensures tr[k].place[p] == Waiting ==> tr[k].bar.time <= AddSlot(cfg.procs, p)
  {
    hide AddSlot, Step, Enabled, Ran, SomeQueued;
    RunInv(cfg, tr, es, k);
    RunPace(cfg, tr, es, k);
    var s := tr[k];
    if p < s.next {
      AddSlotGrows(cfg.procs, p, s.next - 1);
    } else {
      AddSlotGrows(cfg.procs, s.next, p);
      if s.next > 0 { AddSlotGrows(cfg.procs, s.next - 1, s.next); }
      assert B.SlotsOk(s.bar, 0);
    }
  }

  /** Slots the loader can take. */
  function LoaderSlots(cfg: Config): nat {
    if cfg.procs == [] then 0 else AddSlot(cfg.procs, |cfg.procs| - 1) + 1
  }

  /** After that many slots the loader has ended. */
  lemma LoaderEnds(cfg: Config, s: State)
    requires Places(cfg, s) && Links(cfg, s) && Shut(cfg, s) && Pace(cfg, s) && s.bar.time > LoaderSlots(cfg)
    ensures s.ld == LStopped && s.done && s.next == |cfg.procs|
  {
    hide AddSlot, SomeQueued;
    assert B.SlotsOk(s.bar, 0);
    if s.next < |cfg.procs| {
      AddSlotGrows(cfg.procs, s.next, |cfg.procs| - 1);
      if s.next > 0 { AddSlotGrows(cfg.procs, s.next - 1, s.next); }
    }
  }

  // ----------------------------------------------------------------- slots without a run

  /** CPU `c` is through with the current slot, or about to say so. */
  predicate Passed(s: State, c: nat)
    requires c < |s.cpus| && |s.bar.dev| == |s.cpus| + 1
  {
    s.bar.dev[c + 1].slots > s.bar.time || s.cpus[c].pc == Skip
  }

  /** CPU `c` will still fetch in the current slot, or run what it has. */
  predicate Hopeful(s: State, c: nat)
    requires |s.bar.dev| == |s.cpus| + 1
  {
    && c < |s.cpus| && s.bar.dev[c + 1].slots <= s.bar.time
    && var u := s.cpus[c];
       u.pc == Top || u.pc == Fetch || ((u.pc == Recheck || u.pc == Run) && u.proc.Some?)
  }

  predicate SomeHopeful(s: State)
    requires |s.bar.dev| == |s.cpus| + 1
  {
    exists c :: 0 <= c < |s.cpus| && Hopeful(s, c)
  }

  /** So far no CPU has called run in this slot, and the loader has ended. */
  predicate Quiet(cfg: Config, s: State)
    requires |s.bar.dev| == |s.cpus| + 1 && Sched.Valid(s.sched)
  {
    && s.ld == LStopped
    && (forall c :: 0 <= c < |s.cpus| && s.cpus[c].proc.Some? ==> !Passed(s, c))
    && (SomeQueued(s) ==> SomeHopeful(s))
  }

  /** The start of a slot. */
  lemma QuietStart(cfg: Config, s: State)
    requires Links(cfg, s) && Shape(cfg, s) && Shut(cfg, s) && cfg.ncpu >= 1
    requires s.bar.timer.Collect? && s.bar.timer.i == |s.bar.dev| && s.ld == LStopped && s.next == |cfg.procs|
    ensures Quiet(cfg, s.(bar := B.TimerStep(s.bar)))
  {
    var t := s.(bar := B.TimerStep(s.bar));
    forall c | 0 <= c < |s.cpus| && s.cpus[c].pc != Stopped ensures Held(s.bar.dev[c + 1]) && s.cpus[c].pc == Top
      && t.bar.dev[c + 1].slots == t.bar.time
    {
      assert B.SlotsOk(s.bar, c + 1) && B.DevOk(s.bar.dev[c + 1]);
    }
    if SomeQueued(s) {
      var c :| 0 <= c < |s.cpus| && Live(s, c);
      assert Hopeful(t, c);
    }
  }

  lemma PassedCpu(cfg: Config, s: State, c: nat)
    requires Shape(cfg, s) && Links(cfg, s) && c < |s.cpus| && s.bar.dev[c + 1].pc == B.Running && s.cpus[c].pc != Run
    requires s.cpus[c].proc.Some? ==> !Passed(s, c)
    ensures var t := CpuStep(cfg, s, c);
            && |t.bar.dev| == |t.cpus| + 1 && c < |t.cpus|
            && (t.cpus[c].proc.Some? ==> !Passed(t, c))
  {
    hide Sched.Get, Sched.Put;
    assert B.SlotsOk(s.bar, c + 1);
  }

  /** A fetch ends hopeful, or finds the queues empty. */
  lemma FetchHope(cfg: Config, s: State, c: nat, miss: CpuPc)
    requires Shape(cfg, s) && c < |s.cpus| && s.bar.dev[c + 1].slots <= s.bar.time
    ensures var t := FetchStep(cfg, s, c, miss);
            Sched.Valid(t.sched) && (Hopeful(t, c) || !SomeQueued(t))
  {
    hide Sched.Get;
    Sched.Selection(s.sched);
  }

  /** One step of CPU `c` other than a call of run: either it ends up hopeful, or it has found
      the queues empty, or it had no part in the matter. */
  lemma QuietCpu(cfg: Config, s: State, c: nat)
    requires Shape(cfg, s) && Links(cfg, s) && c < |s.cpus| && s.bar.dev[c + 1].pc == B.Running && s.cpus[c].pc != Run
    requires s.cpus[c].proc.Some? ==> !Passed(s, c)
    ensures var t := CpuStep(cfg, s, c);
            && |t.bar.dev| == |t.cpus| + 1 && Sched.Valid(t.sched) && c < |t.cpus|
            && (t.cpus[c].proc.Some? ==> !Passed(t, c))
            && (Hopeful(t, c) || !SomeQueued(t) || (t.sched == s.sched && !Hopeful(s, c)))
  {
    hide FetchStep, SomeQueued;
    assert B.SlotsOk(s.bar, c + 1);
    PassedCpu(cfg, s, c);
    FetchHope(cfg, s, c, Recheck);
    FetchHope(cfg, s, c, Skip);
    if s.cpus[c].proc.Some? {
      FetchHope(cfg, RetireStep(cfg, s, c), c, Recheck);
    }
  }

  lemma QuietOthers(cfg: Config, s: State, t: State, c: nat)
    requires |s.bar.dev| == |s.cpus| + 1 && c < |s.cpus| && CpuMove(s, t, c)
    ensures |t.cpus| == |s.cpus| && |t.bar.dev| == |t.cpus| + 1
    ensures forall k :: 0 <= k < |s.cpus| && k != c ==>
              && t.cpus[k] == s.cpus[k] && (Hopeful(t, k) <==> Hopeful(s, k)) && (Passed(t, k) <==> Passed(s, k))
  {}

  lemma QuietStep(cfg: Config, s: State, e: Event)
    requires Links(cfg, s) && Enabled(cfg, s, e) && Quiet(cfg, s) && !IsRunCall(s, e)
    requires Step(cfg, s, e).bar.time == s.bar.time && Shape(cfg, Step(cfg, s, e))
    ensures Quiet(cfg, Step(cfg, s, e))
  {
    hide CpuStep, LoaderStep, SomeQueued;
    if !Works(s, e) {
      QuietInside(cfg, s, e);
    } else {
      var c := e.d - 1;
      CpuMoves(cfg, s, c);
      QuietOthers(cfg, s, CpuStep(cfg, s, c), c);
      QuietCpu(cfg, s, c);
      QuietBack(cfg, s, CpuStep(cfg, s, c), c);
    }
  }

  lemma QuietBack(cfg: Config, s: State, t: State, c: nat)
    requires |s.bar.dev| == |s.cpus| + 1 == |t.cpus| + 1 == |t.bar.dev| && Sched.Valid(s.sched) && Sched.Valid(t.sched)
    requires Quiet(cfg, s) && t.ld == s.ld && c < |s.cpus| && (t.cpus[c].proc.Some? ==> !Passed(t, c))
    requires forall k :: 0 <= k < |s.cpus| && k != c ==>
              && t.cpus[k] == s.cpus[k] && (Hopeful(t, k) <==> Hopeful(s, k)) && (Passed(t, k) <==> Passed(s, k))
    requires Hopeful(t, c) || !SomeQueued(t) || (t.sched == s.sched && !Hopeful(s, c))
    ensures Quiet(cfg, t)
  {
    hide Hopeful, Passed;
    if SomeQueued(t) && !Hopeful(t, c) {
      var k :| 0 <= k < |s.cpus| && Hopeful(s, k);
      assert Hopeful(t, k);
    }
  }

  lemma QuietInside(cfg: Config, s: State, e: Event)
    requires |s.bar.dev| == |s.cpus| + 1 && Sched.Valid(s.sched) && Quiet(cfg, s) && Enabled(cfg, s, e) && !Works(s, e)
    requires Step(cfg, s, e).bar.time == s.bar.time
    ensures var t := Step(cfg, s, e);
            |t.bar.dev| == |t.cpus| + 1 && Sched.Valid(t.sched) && Quiet(cfg, t)
  {
    hide B.Step;
    var t := Step(cfg, s, e);
    Simulates(cfg, s, e);
    InsideBarrier(s.bar, InsideEvent(e));
    if SomeQueued(s) {
      var c :| 0 <= c < |s.cpus| && Hopeful(s, c);
      assert Hopeful(t, c);
    }
  }

  /** A slot that ends quietly leaves no work. */
  lemma QuietEnd(cfg: Config, s: State)
    requires Places(cfg, s) && Links(cfg, s) && Shut(cfg, s) && Quiet(cfg, s)
    requires s.bar.timer.Collect? && s.bar.timer.i == |s.bar.dev|
    ensures AtRest(cfg, s)
  {
    forall c | 0 <= c < |s.cpus| ensures s.cpus[c].proc == None && !Hopeful(s, c) {
      assert B.SlotsOk(s.bar, c + 1) && B.DevOk(s.bar.dev[c + 1]);
    }
    assert !SomeQueued(s);
    forall p | 0 <= p < |s.place| ensures s.place[p] == Retired || s.place[p] == Dropped {
      NotQueued(cfg, s, p);
    }
  }

  // ----------------------------------------------------------------- the number of slots

  /** Calls of run until the current slot began. */
  function CallsAtStart(tr: seq<State>, k: nat): nat
    requires k < |tr|
  {
    if k == 0 then Sum(tr[0].calls)
    else if tr[k].bar.time != tr[k - 1].bar.time then Sum(tr[k].calls)
    else CallsAtStart(tr, k - 1)
  }

  /** Only the timer's last step of a slot changes the time. */
  lemma TimeStep(cfg: Config, s: State, e: Event)
    requires Enabled(cfg, s, e)
    ensures var t := Step(cfg, s, e);
            t.bar.time != s.bar.time ==>
              && e.Timer? && s.bar.timer.Collect? && s.bar.timer.i == |s.bar.dev|
              && t.bar.time == s.bar.time + 1 && t == s.(bar := B.TimerStep(s.bar))
  {
    hide CpuStep;
    if Works(s, e) && e.d > 0 { CpuBar(cfg, s, e.d - 1); }
  }

  ghost predicate SlotInv(cfg: Config, s: State, start: nat) {
    && Inv(cfg, s) && Pace(cfg, s) && start <= Sum(s.calls)
    && s.bar.time <= LoaderSlots(cfg) + 1 + start
    && (s.bar.time > LoaderSlots(cfg) && Sum(s.calls) == start ==> Quiet(cfg, s))
  }

  lemma SlotInvStep(cfg: Config, s: State, e: Event, start: nat)
    requires SlotInv(cfg, s, start) && Enabled(cfg, s, e) && !AtRest(cfg, s) && cfg.ncpu >= 1
    ensures var t := Step(cfg, s, e);
            SlotInv(cfg, t, if t.bar.time != s.bar.time then Sum(t.calls) else start)
  {
    hide Step, Pace, Quiet, Places, Ran, Links, Shut, Sum, LoaderSlots, Enabled, AtRest;
    var t := Step(cfg, s, e);
    InvStep(cfg, s, e);
    InvLinks(cfg, s);
    PaceStep(cfg, s, e);
    CallsStep(cfg, s, e);
    TimeStep(cfg, s, e);
    InvLinks(cfg, t);
    if t.bar.time != s.bar.time {
      SlotTurns(cfg, s, t, start);
    } else if t.bar.time > LoaderSlots(cfg) && Sum(t.calls) == start {
      QuietStep(cfg, s, e);
    }
  }

  lemma SlotTurns(cfg: Config, s: State, t: State, start: nat)
    requires SlotInv(cfg, s, start) && !AtRest(cfg, s) && cfg.ncpu >= 1
    requires |t.bar.dev| > 0 && Inv(cfg, t) && Pace(cfg, t)
    requires s.bar.timer.Collect? && s.bar.timer.i == |s.bar.dev|
    requires t == s.(bar := B.TimerStep(s.bar)) && t.bar.time == s.bar.time + 1
    ensures SlotInv(cfg, t, Sum(t.calls))
  {
    hide Pace, Quiet, Ran, Sum, LoaderSlots, AtRest, SomeQueued;
    if s.bar.time > LoaderSlots(cfg) && Sum(s.calls) == start {
      QuietEnd(cfg, s);
    }
    if t.bar.time > LoaderSlots(cfg) {
      LoaderEnds(cfg, t);
      QuietStart(cfg, s);
    }
  }

  lemma SlotInvStart(cfg: Config, s: State)
    requires Init(cfg, s)
    ensures SlotInv(cfg, s, Sum(s.calls))
  {
    hide Sum, Quiet;
    InvInit(cfg, s);
  }

  lemma {:induction false} SlotsBounded(cfg: Config, tr: seq<State>, es: seq<Event>, k: nat)
    requires IsRun(cfg, tr, es) && k < |tr| && cfg.ncpu >= 1
    requires forall j :: 0 <= j < k ==> !AtRest(cfg, tr[j])
    ensures SlotInv(cfg, tr[k], CallsAtStart(tr, k))
  {
    hide Init, Step, Enabled, SlotInv, AtRest, Sum;
    if k == 0 {
      SlotInvStart(cfg, tr[0]);
    } else {
      SlotsBounded(cfg, tr, es, k - 1);
      assert Enabled(cfg, tr[k - 1], es[k - 1]) && tr[k] == Step(cfg, tr[k - 1], es[k - 1]);
      SlotInvStep(cfg, tr[k - 1], es[k - 1], CallsAtStart(tr, k - 1));
    }
  }

  // ----------------------------------------------------------------- the bound

  /** Calls of run the programs need. */
  function TotalNeed(cfg: Config): nat {
    Sum(seq(|cfg.procs|, p requires 0 <= p < |cfg.procs| => Need(cfg, p)))
  }

  /** Slots that can begin before everything is over. */
  function MaxTime(cfg: Config): nat {
    LoaderSlots(cfg) + 1 + TotalNeed(cfg)
  }

  /** Steps of one slot. */
  function PerSlot(cfg: Config): nat {
    14 * (cfg.ncpu + 1) + 5
  }

  function StepsLeft(cfg: Config, s: State): int
    requires |s.bar.dev| == |s.cpus| + 1
  {
    PerSlot(cfg) * (MaxTime(cfg) + 1 - s.bar.time) + SlotRank(s)
  }

  lemma NextSlotRank(w: nat, left: int, rank: int, rank': int)
    requires 0 <= rank && rank' < w
    ensures w * (left - 1) + rank' < w * left + rank
  {}

  lemma StepsLeftStep(cfg: Config, s: State, e: Event)
    requires Links(cfg, s) && Enabled(cfg, s, e) && !e.StopTimer? && Links(cfg, Step(cfg, s, e))
    ensures StepsLeft(cfg, Step(cfg, s, e))
            <= StepsLeft(cfg, s) + (if e.Thread? || e.Timer? then -1 else 1)
  {
    hide Links, SlotRank, MaxTime, Step, Enabled;
    var t := Step(cfg, s, e);
    RankStep(cfg, s, e);
    DeviceCount(cfg, s);
    DeviceCount(cfg, t);
    SlotRankBound(cfg, s);
    SlotRankBound(cfg, t);
    if t.bar.time != s.bar.time {
      NextSlotRank(PerSlot(cfg), MaxTime(cfg) + 1 - s.bar.time, SlotRank(s), SlotRank(t));
    }
  }

  /** When all devices have detached, everything is over. */
  lemma DetachedRests(cfg: Config, s: State)
    requires Inv(cfg, s) && cfg.ncpu >= 1 && B.AllDetached(s.bar)
    ensures AtRest(cfg, s)
  {
    hide Ran;
    assert s.cpus[0].pc == Stopped;
    forall c | 0 <= c < |s.cpus| ensures s.cpus[c].proc == None && !Live(s, c) {
      assert s.bar.dev[c + 1].pc == B.Detached;
    }
    assert !SomeQueued(s);
    forall p | 0 <= p < |s.place| ensures s.place[p] == Retired || s.place[p] == Dropped {
      NotQueued(cfg, s, p);
    }
  }

  /** Steps of threads and timer, and spurious wakeups, among the first k events. */
  function OwnSteps(es: seq<Event>, k: nat): nat
    requires k <= |es|
  {
    if k == 0 then 0 else OwnSteps(es, k - 1) + (if es[k - 1].Thread? || es[k - 1].Timer? then 1 else 0)
  }

  function Spurious(es: seq<Event>, k: nat): nat
    requires k <= |es|
  {
    if k == 0 then 0 else Spurious(es, k - 1) + (if es[k - 1].SpuriousDev? || es[k - 1].SpuriousTimer? then 1 else 0)
  }

  lemma {:induction false} StepsSpent(cfg: Config, tr: seq<State>, es: seq<Event>, k: nat)
    requires IsRun(cfg, tr, es) && k < |tr| && cfg.ncpu >= 1
    requires forall j :: 0 <= j < k ==> !AtRest(cfg, tr[j])
    ensures |tr[0].bar.dev| == |tr[0].cpus| + 1 && |tr[k].bar.dev| == |tr[k].cpus| + 1
    ensures OwnSteps(es, k) + StepsLeft(cfg, tr[k]) <= StepsLeft(cfg, tr[0]) + Spurious(es, k)
  {
    hide Step, Enabled, Inv, AtRest, StepsLeft, Links;
    RunInv(cfg, tr, es, 0);
    RunInv(cfg, tr, es, k);
    InvLinks(cfg, tr[0]);
    InvLinks(cfg, tr[k]);
    if k > 0 {
      StepsSpent(cfg, tr, es, k - 1);
      var s, e := tr[k - 1], es[k - 1];
      assert Enabled(cfg, s, e) && tr[k] == Step(cfg, s, e);
      RunInv(cfg, tr, es, k - 1);
      InvLinks(cfg, s);
      if e.StopTimer? {
        StopRests(cfg, s);
      }
      StepsLeftStep(cfg, s, e);
    }
  }

  lemma InvLinks(cfg: Config, s: State)
    requires Inv(cfg, s)
    ensures Links(cfg, s) && Shape(cfg, s) && |s.bar.dev| == |s.cpus| + 1 && LoaderOk(cfg, s)
  {}

  lemma StopRests(cfg: Config, s: State)
    requires Inv(cfg, s) && cfg.ncpu >= 1 && Enabled(cfg, s, StopTimer)
    ensures AtRest(cfg, s)
  {
    DetachedRests(cfg, s);
  }

  /** All work ends.  A run with more steps of timer, loader and CPUs than the bound, not
      counting one for each spurious wakeup, has reached a state where every process is over
      and `done` is set; the bound depends on the configuration only. */
  lemma WorkEnds(cfg: Config, tr: seq<State>, es: seq<Event>) returns (k: nat)
    requires IsRun(cfg, tr, es) && cfg.ncpu >= 1
    requires OwnSteps(es, |es|) > PerSlot(cfg) * (MaxTime(cfg) + 2) + Spurious(es, |es|)
    ensures k < |tr| && AtRest(cfg, tr[k])
  {
    hide AtRest, Inv, MaxTime;
    if j: nat :| j < |tr| && AtRest(cfg, tr[j]) {
      k := j;
    } else {
      NeverRests(cfg, tr, es);
      assert false;
    }
  }

  lemma NeverRests(cfg: Config, tr: seq<State>, es: seq<Event>)
    requires IsRun(cfg, tr, es) && cfg.ncpu >= 1
    requires forall j :: 0 <= j < |tr| ==> !AtRest(cfg, tr[j])
    ensures OwnSteps(es, |es|) <= PerSlot(cfg) * (MaxTime(cfg) + 2) + Spurious(es, |es|)
  {
    hide IsRun, AtRest, StepsLeft, MaxTime, PerSlot, OwnSteps, Spurious, Inv, Links;
    assert |tr| == |es| + 1 by { RunLength(cfg, tr, es); }
    var n := |es|;
    StepsSpent(cfg, tr, es, n);
    TimeWithin(cfg, tr, es);
    RunInv(cfg, tr, es, 0);
    RunInv(cfg, tr, es, n);
    InvLinks(cfg, tr[0]);
    InvLinks(cfg, tr[n]);
    Ends(cfg, tr[0]);
    Ends(cfg, tr[n]);
  }

  lemma RunLength(cfg: Config, tr: seq<State>, es: seq<Event>)
    requires IsRun(cfg, tr, es)
    ensures |tr| == |es| + 1
  {}

  lemma Ends(cfg: Config, s: State)
    requires Links(cfg, s) && |s.bar.dev| == |s.cpus| + 1 && s.bar.time <= MaxTime(cfg)
    ensures StepsLeft(cfg, s) >= 0
    ensures s.bar.time == 0 ==> StepsLeft(cfg, s) <= PerSlot(cfg) * (MaxTime(cfg) + 2)
  {
    hide Links, SlotRank, MaxTime;
    DeviceCount(cfg, s);
    SlotRankBound(cfg, s);
    Within(PerSlot(cfg), MaxTime(cfg), s.bar.time, SlotRank(s));
  }

  lemma Within(w: nat, most: nat, time: nat, rank: int)
    requires time <= most && 0 <= rank < w
    ensures w * (most + 1 - time) + rank >= 0
    ensures w * (most + 1) + rank <= w * (most + 2)
  {}

  lemma TimeWithin(cfg: Config, tr: seq<State>, es: seq<Event>)
    requires IsRun(cfg, tr, es) && cfg.ncpu >= 1
    requires forall j :: 0 <= j < |tr| ==> !AtRest(cfg, tr[j])
    ensures tr[|es|].bar.time <= MaxTime(cfg) && tr[0].bar.time == 0
  {
    hide AtRest, Inv, Sum;
    SlotsBounded(cfg, tr, es, |es|);
    CallsCounted(cfg, tr, es, |es|);
    WorkBound(cfg, tr, es, |es|);
  }
}
