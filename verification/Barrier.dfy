/**
 The time-slot barrier of timer.c.

 One timer thread and any number of device threads (the CPUs and the loader) share, per
 device, two flags: `done` (finished the current slot) and `fsh` (left for good).  Every
 critical section is one atomic step, and the two condition variables of a device are
 modelled with their wait states, so that a lost wakeup would show up as a stuck state.
 `slots` is a history variable: how many slots the device has reported finished.
 */
module Barrier {
  import opened Prelude

  // Running: outside the barrier, doing the work of a slot.
  // Parked: inside next_slot, about to take timer_lock and test `done`.
  // Asleep: inside pthread_cond_wait on timer_cond.
  datatype DevPc = Running | Parked | Asleep | Detached

  datatype Dev = Dev(pc: DevPc, done: bool, fsh: bool, slots: nat)

  // Collect(i) is about to take event_lock of device i; CollectAsleep(i) waits on its
  // event_cond; Collect(n) is about to advance the time; Release(i) is about to take
  // timer_lock of device i; Release(n) compares the two counters.
  datatype TimerPc =
    | Top
    | Collect(i: nat, fshSeen: nat, event: nat)
    | CollectAsleep(i: nat, fshSeen: nat, event: nat)
    | Release(i: nat, fshSeen: nat, event: nat)
    | Exited

  datatype State = State(dev: seq<Dev>, timer: TimerPc, time: nat, stop: bool)

  datatype Event =
    | NextSlot(d: nat)      // next_slot: set `done`, signal event_cond
    | Recheck(d: nat)       // next_slot: take timer_lock, test `done`
    | Detach(d: nat)        // detach_event
    | Timer                 // one step of timer_routine
    | Stop                  // stop_timer, called once every device thread is joined
    | SpuriousDev(d: nat)   // a wakeup without a signal
    | SpuriousTimer

  ghost predicate Init(s: State) {
    && s.timer == Top && s.time == 0 && !s.stop
    && forall d :: 0 <= d < |s.dev| ==> s.dev[d] == Dev(Running, false, false, 0)
  }

  predicate AllDetached(s: State) {
    forall d :: 0 <= d < |s.dev| ==> s.dev[d].pc == Detached
  }

  predicate Enabled(s: State, e: Event) {
    match e
    case NextSlot(d) => d < |s.dev| && s.dev[d].pc == Running
    case Recheck(d) => d < |s.dev| && s.dev[d].pc == Parked
    case Detach(d) => d < |s.dev| && s.dev[d].pc == Running
    case Timer => !s.timer.CollectAsleep? && !s.timer.Exited? && (s.timer.Top? || s.timer.i <= |s.dev|)
    case Stop => AllDetached(s)
    case SpuriousDev(d) => d < |s.dev| && s.dev[d].pc == Asleep
    case SpuriousTimer => s.timer.CollectAsleep?
  }

  /** pthread_cond_signal on event_cond of device `d`. */
  function Wake(t: TimerPc, d: nat): TimerPc {
    if t.CollectAsleep? && t.i == d then Collect(t.i, t.fshSeen, t.event) else t
  }

  function Step(s: State, e: Event): State
    requires Enabled(s, e)
  {
    match e
    case NextSlot(d) =>
      s.(dev := s.dev[d := s.dev[d].(pc := Parked, done := true, slots := s.dev[d].slots + 1)],
         timer := Wake(s.timer, d))
    case Recheck(d) =>
      s.(dev := s.dev[d := s.dev[d].(pc := if s.dev[d].done then Asleep else Running)])
    case Detach(d) =>
      s.(dev := s.dev[d := s.dev[d].(pc := Detached, fsh := true)], timer := Wake(s.timer, d))
    case Timer => TimerStep(s)
    case Stop => s.(stop := true)
    case SpuriousDev(d) => s.(dev := s.dev[d := s.dev[d].(pc := Parked)])
    case SpuriousTimer => s.(timer := Collect(s.timer.i, s.timer.fshSeen, s.timer.event))
  }

  function TimerStep(s: State): State
    requires Enabled(s, Timer)
  {
    match s.timer
    case Top => if s.stop then s.(timer := Exited) else s.(timer := Collect(0, 0, 0))
    case Collect(i, f, ev) =>
      if i == |s.dev| then s.(time := s.time + 1, timer := Release(0, f, ev))
      else if !s.dev[i].done && !s.dev[i].fsh then s.(timer := CollectAsleep(i, f, ev))
      else s.(timer := Collect(i + 1, f + (if s.dev[i].fsh then 1 else 0), ev + 1))
    case Release(i, f, ev) =>
      if i == |s.dev| then s.(timer := if f == ev then Exited else Top)
      else s.(timer := Release(i + 1, f, ev), dev := s.dev[i := Released(s.dev[i])])
  }

  /** The timer clears `done` and signals timer_cond. */
  function Released(v: Dev): Dev {
    v.(done := false, pc := if v.pc == Asleep then Parked else v.pc)
  }

  // ----------------------------------------------------------------- invariant

  const IsFsh := (v: Dev) => v.fsh
  const IsParked := (v: Dev) => v.pc == Parked

  /** Flags agree with the thread's position; a sleeper's wait condition still holds. */
  predicate DevOk(v: Dev) {
    && (v.fsh <==> v.pc == Detached)
    && (v.pc == Running || v.pc == Detached ==> !v.done)
    && (v.pc == Asleep ==> v.done)
  }

  /** Device j is behind the release cursor: it may already work in slot `time`. */
  predicate InSlot(s: State, j: nat) {
    s.timer.Release? ==> j < s.timer.i
  }

  predicate SlotsOk(s: State, j: nat)
    requires j < |s.dev|
  {
    s.dev[j].pc != Detached ==>
      if InSlot(s, j) then s.dev[j].slots == s.time + (if s.dev[j].done then 1 else 0)
      else s.dev[j].done && s.dev[j].slots == s.time
  }

  predicate TimerOk(s: State) {
    match s.timer
    case Top => true
    case Exited => AllDetached(s)
    case Collect(i, f, ev) =>
      && i <= |s.dev| && ev == i && f == Count(s.dev[..i], IsFsh)
      && forall j :: 0 <= j < i ==> s.dev[j].done || s.dev[j].fsh
    case CollectAsleep(i, f, ev) =>
      && i < |s.dev| && ev == i && f == Count(s.dev[..i], IsFsh)
      && !s.dev[i].done && !s.dev[i].fsh
      && forall j :: 0 <= j < i ==> s.dev[j].done || s.dev[j].fsh
    case Release(i, f, ev) =>
      && i <= |s.dev| && ev == |s.dev| && f <= ev
      && (f == ev ==> AllDetached(s))
  }

  predicate Inv(s: State) {
    && (forall j :: 0 <= j < |s.dev| ==> DevOk(s.dev[j]))
    && (forall j :: 0 <= j < |s.dev| ==> SlotsOk(s, j))
    && TimerOk(s)
    && (s.stop ==> AllDetached(s))
  }

  lemma InvInit(s: State)
    requires Init(s)
    ensures Inv(s)
  {}

  lemma InvDevice(s: State, e: Event)
    requires Inv(s) && Enabled(s, e) && !e.Timer?
    ensures Inv(Step(s, e))
  {
    forall j | 0 <= j < |s.dev| ensures DevOk(Step(s, e).dev[j]) && SlotsOk(Step(s, e), j) {
      assert DevOk(s.dev[j]) && SlotsOk(s, j);
    }
    TimerDevice(s, e);
    if AllDetached(s) { StaysDetached(s, e); }
  }

  lemma StaysDetached(s: State, e: Event)
    requires Enabled(s, e) && !e.Timer? && AllDetached(s)
    ensures AllDetached(Step(s, e))
  {}

  /** The first i devices, already counted, stay finished or detached, as counted. */
  lemma CountedKept(s: State, e: Event, i: nat)
    requires Inv(s) && Enabled(s, e) && (e.NextSlot? || e.Recheck? || e.Detach? || e.SpuriousDev?)
    requires i <= |s.dev| && forall j :: 0 <= j < i ==> s.dev[j].done || s.dev[j].fsh
    ensures var t := Step(s, e);
            && |t.dev| == |s.dev| && Count(t.dev[..i], IsFsh) == Count(s.dev[..i], IsFsh)
            && forall j :: 0 <= j < i ==> t.dev[j].done || t.dev[j].fsh
  {
    hide TimerOk, SlotsOk, Count;
    var v := Step(s, e).dev[e.d];
    assert DevOk(s.dev[e.d]);
    if e.d < i {
      assert Step(s, e).dev[..i] == s.dev[..i][e.d := v];
      CountUpdate(s.dev[..i], IsFsh, e.d, v);
    } else {
      assert Step(s, e).dev[..i] == s.dev[..i];
    }
  }

  /** A device's step keeps what the timer knows. */
  lemma TimerDevice(s: State, e: Event)
    requires Inv(s) && Enabled(s, e) && !e.Timer?
    ensures TimerOk(Step(s, e))
  {
    hide Count, SlotsOk;
    if s.timer.Collect? || s.timer.CollectAsleep? {
      if e.NextSlot? || e.Recheck? || e.Detach? || e.SpuriousDev? {
        CountedKept(s, e, s.timer.i);
        assert DevOk(s.dev[e.d]);
      }
    } else if AllDetached(s) {
      StaysDetached(s, e);
    }
  }

  lemma InvCollect(s: State)
    requires Inv(s) && Enabled(s, Timer) && s.timer.Collect?
    ensures Inv(TimerStep(s))
  {
    var i := s.timer.i;
    forall j | 0 <= j < |s.dev| ensures SlotsOk(TimerStep(s), j) {
      assert SlotsOk(s, j);
    }
    if i == |s.dev| {
      assert s.dev[..i] == s.dev;
      CountAll(s.dev, IsFsh);
    } else {
      assert s.dev[..i + 1][..i] == s.dev[..i];
    }
  }

  lemma InvRelease(s: State)
    requires Inv(s) && Enabled(s, Timer) && s.timer.Release?
    ensures Inv(TimerStep(s))
  {
    forall j | 0 <= j < |s.dev| ensures SlotsOk(TimerStep(s), j) {
      assert SlotsOk(s, j);
    }
  }

  lemma InvStep(s: State, e: Event)
    requires Inv(s) && Enabled(s, e)
    ensures Inv(Step(s, e))
  {
    if e.Timer? {
      match s.timer
      case Collect(_, _, _) => InvCollect(s);
      case Release(_, _, _) => InvRelease(s);
      case Top =>
        forall j | 0 <= j < |s.dev| ensures SlotsOk(Step(s, e), j) {
          assert SlotsOk(s, j);
        }
    } else {
      InvDevice(s, e);
    }
  }

  // ----------------------------------------------------------------- runs

  /** `tr` is the sequence of states visited by the events `es`, from a start state. */
  ghost predicate IsRun(tr: seq<State>, es: seq<Event>) {
    && |tr| == |es| + 1 && Init(tr[0])
    && forall k :: 0 <= k < |es| ==> Enabled(tr[k], es[k]) && tr[k + 1] == Step(tr[k], es[k])
  }

  lemma {:induction false} RunInv(tr: seq<State>, es: seq<Event>, k: nat)
    requires IsRun(tr, es) && k < |tr|
    ensures Inv(tr[k])
  {
    if k == 0 {
      InvInit(tr[0]);
    } else {
      RunInv(tr, es, k - 1);
      InvStep(tr[k - 1], es[k - 1]);
    }
  }

  /** A device doing the work of its slot is level with every undetached device, or one
      report behind it; two working devices are always in the same slot. */
  lemma WorkingLevel(s: State, x: nat, y: nat)
    requires Inv(s) && x < |s.dev| && y < |s.dev|
    requires s.dev[x].pc == Running && s.dev[y].pc != Detached
    ensures s.dev[x].slots <= s.dev[y].slots <= s.dev[x].slots + 1
    ensures s.dev[y].pc == Running ==> s.dev[x].slots == s.dev[y].slots
    ensures s.dev[x].slots == s.time
  {
    assert SlotsOk(s, x) && SlotsOk(s, y);
  }

  /** Lock step over whole runs: an undetached device has finished `time` or `time + 1`
      slots, and whenever next_slot lets a device into slot t every undetached device has
      already finished slot t - 1. */
  lemma LockStep(tr: seq<State>, es: seq<Event>, k: nat, d: nat)
    requires IsRun(tr, es) && k < |tr| && d < |tr[k].dev| && tr[k].dev[d].pc != Detached
    ensures tr[k].time <= tr[k].dev[d].slots <= tr[k].time + 1
    ensures k < |es| && es[k].Recheck? && tr[k + 1].dev[es[k].d].pc == Running
            ==> tr[k].dev[es[k].d].slots <= tr[k].dev[d].slots
  {
    RunInv(tr, es, k);
    assert SlotsOk(tr[k], d);
    if k < |es| && es[k].Recheck? && tr[k + 1].dev[es[k].d].pc == Running {
      RunInv(tr, es, k + 1);
      WorkingLevel(tr[k + 1], es[k].d, d);
    }
  }

  /** No wakeup is lost: whoever sleeps on a condition variable still has its wait
      condition unsatisfied, and the sleeper's counterpart has yet to act. */
  lemma NoLostWakeup(tr: seq<State>, es: seq<Event>, k: nat)
    requires IsRun(tr, es) && k < |tr|
    ensures forall d :: 0 <= d < |tr[k].dev| && tr[k].dev[d].pc == Asleep
                        ==> tr[k].dev[d].done && !tr[k].timer.Exited?
    ensures tr[k].timer.CollectAsleep? ==>
              && tr[k].timer.i < |tr[k].dev|
              && (tr[k].dev[tr[k].timer.i].pc == Running || tr[k].dev[tr[k].timer.i].pc == Parked)
  {
    RunInv(tr, es, k);
  }

  /** The test that ends timer_routine is exact: when the counters are complete they agree
      if and only if every device has detached. */
  lemma ExitTest(s: State)
    requires Inv(s) && s.timer.Collect? && s.timer.i == |s.dev|
    ensures s.timer.fshSeen == s.timer.event <==> AllDetached(s)
  {
    assert s.dev[..|s.dev|] == s.dev;
    CountAll(s.dev, IsFsh);
  }

  /** Once stop_timer has been called, a timer at the head of its loop leaves it: the time
      does not advance again, and the next step of the timer is its exit. */
  lemma {:induction false} StopEnds(tr: seq<State>, es: seq<Event>, k: nat, m: nat)
    requires IsRun(tr, es) && k <= m < |tr| && tr[k].stop && tr[k].timer == Top
    ensures tr[m].stop && tr[m].time == tr[k].time
    ensures if forall j :: k <= j < m ==> es[j] != Timer then tr[m].timer == Top else tr[m].timer == Exited
    decreases m
  {
    if k < m {
      StopEnds(tr, es, k, m - 1);
      assert Enabled(tr[m - 1], es[m - 1]) && tr[m] == Step(tr[m - 1], es[m - 1]);
    }
  }

  // ----------------------------------------------------------------- progress

  // The barrier's own steps, as opposed to the devices' work (NextSlot, Detach) and to
  // spurious wakeups.
  predicate Internal(e: Event) {
    e.Timer? || e.Recheck?
  }

  predicate SomeUndetached(s: State) {
    exists j :: 0 <= j < |s.dev| && s.dev[j].pc != Detached
  }

  /** Every undetached device has finished its slot and lies before position `lim`. */
  predicate FullBefore(s: State, lim: nat) {
    SomeUndetached(s) && forall j :: 0 <= j < |s.dev| && s.dev[j].pc != Detached ==> j < lim && s.dev[j].done
  }

  /** Timer steps to the end of the current pass over the devices. */
  function PassLeft(s: State): int {
    var n := |s.dev|;
    match s.timer
    case Top => 2 * n + 4
    case Collect(i, _, _) => 2 * n - i + 2
    case CollectAsleep(i, _, _) => 2 * n - i + 1
    case Release(i, _, _) => n - i + 1
    case Exited => 0
  }

  /** Complete passes that may still follow without any device working. */
  function PassesAfter(s: State): nat {
    match s.timer
    case Exited => 0
    case Release(i, f, ev) => if f == ev then 0 else if FullBefore(s, i) then 2 else 1
    case _ => if FullBefore(s, |s.dev|) then 1 else 0
  }

  /** Bounds the number of internal steps the barrier can take from `s` on its own. */
  function Potential(s: State): int {
    var a := PassesAfter(s);
    var pass := 2 * |s.dev| + 5;
    2 * (PassLeft(s) + (if a == 0 then 0 else if a == 1 then pass else pass + pass)) + Count(s.dev, IsParked)
  }

  lemma PotentialBound(s: State)
    requires Inv(s)
    ensures 0 <= Potential(s) <= 13 * |s.dev| + 28
  {}

  lemma RecheckDecreases(s: State, d: nat)
    requires Inv(s) && Enabled(s, Recheck(d))
    ensures Potential(Step(s, Recheck(d))) < Potential(s)
  {
    var t := Step(s, Recheck(d));
    CountUpdate(s.dev, IsParked, d, t.dev[d]);
    assert forall lim: nat :: FullBefore(t, lim) == FullBefore(s, lim) by {
      assert forall j :: 0 <= j < |s.dev| ==>
        t.dev[j].done == s.dev[j].done && (t.dev[j].pc == Detached <==> s.dev[j].pc == Detached);
      assert SomeUndetached(s) && SomeUndetached(t);
    }
  }

  lemma ReleaseDecreases(s: State)
    requires Inv(s) && Enabled(s, Timer) && s.timer.Release?
    ensures Potential(TimerStep(s)) < Potential(s)
  {
    var i := s.timer.i;
    var t := TimerStep(s);
    if i < |s.dev| {
      CountUpdate(s.dev, IsParked, i, t.dev[i]);
      assert FullBefore(t, i + 1) ==> FullBefore(s, i) by {
        if FullBefore(t, i + 1) {
          assert t.dev[i].pc == Detached;
          assert t.dev[i] == s.dev[i].(done := false);
          assert SlotsOk(s, i);
          assert forall j :: 0 <= j < |s.dev| && j != i ==> t.dev[j] == s.dev[j];
        }
      }
    }
  }

  lemma TimerDecreases(s: State)
    requires Inv(s) && Enabled(s, Timer)
    ensures Potential(TimerStep(s)) < Potential(s)
  {
    if s.timer.Release? {
      ReleaseDecreases(s);
    } else if s.timer.Collect? && s.timer.i == |s.dev| {
      ExitTest(s);
      assert !FullBefore(TimerStep(s), 0);
    }
  }

  /** Left to itself the barrier comes to rest: internal steps cannot go on for ever. */
  lemma {:induction false} ComesToRest(s: State, es: seq<Event>, tr: seq<State>)
    requires Inv(s) && |tr| == |es| + 1 && tr[0] == s
    requires forall k :: 0 <= k < |es| ==> Internal(es[k]) && Enabled(tr[k], es[k]) && tr[k + 1] == Step(tr[k], es[k])
    ensures |es| <= Potential(s) <= 13 * |s.dev| + 28
    decreases |es|
  {
    PotentialBound(s);
    if es != [] {
      InvStep(s, es[0]);
      if es[0].Timer? { TimerDecreases(s); } else { RecheckDecreases(s, es[0].d); }
      forall k | 0 <= k < |es[1..]|
        ensures Internal(es[1..][k]) && Enabled(tr[1..][k], es[1..][k])
        ensures tr[1..][k + 1] == Step(tr[1..][k], es[1..][k])
      {
        assert es[1..][k] == es[k + 1] && tr[1..][k] == tr[k + 1] && tr[1..][k + 1] == tr[k + 2];
      }
      ComesToRest(tr[1], es[1..], tr[1..]);
    }
  }

  /** Where it comes to rest: either everything has ended, or the timer waits for a device
      that is still working, and every other undetached device is working in the same slot
      or has finished it.  So no device is ever stuck behind the barrier. */
  lemma RestState(s: State)
    requires Inv(s)
    requires forall e :: Internal(e) ==> !Enabled(s, e)
    ensures if s.timer.Exited? then AllDetached(s)
            else s.timer.CollectAsleep? && s.timer.i < |s.dev| && s.dev[s.timer.i].pc == Running
    ensures forall d :: 0 <= d < |s.dev| && s.dev[d].pc != Detached ==>
              || (s.dev[d].pc == Running && s.dev[d].slots == s.time)
              || (s.dev[d].pc == Asleep && s.dev[d].slots == s.time + 1)
  {
    assert !Enabled(s, Timer);
    forall d | 0 <= d < |s.dev| ensures s.dev[d].pc != Parked && SlotsOk(s, d) {
      assert !Enabled(s, Recheck(d));
    }
  }

  /** While some device is undetached, the timer or a device can step. */
  lemma DeadlockFree(tr: seq<State>, es: seq<Event>, k: nat) returns (e: Event)
    requires IsRun(tr, es) && k < |tr| && SomeUndetached(tr[k])
    ensures Enabled(tr[k], e) && (Internal(e) || e.NextSlot?)
  {
    RunInv(tr, es, k);
    var s := tr[k];
    if j: nat :| j < |s.dev| && s.dev[j].pc == Parked {
      e := Recheck(j);
    } else if s.timer.CollectAsleep? {
      e := NextSlot(s.timer.i);
    } else {
      e := Timer;
    }
  }
}
