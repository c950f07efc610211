/** The scheduler in runs of the kernel model: which operation each step performs on it, and
    how long a queued process waits for a CPU. */
module KernelWaits {
  import opened Prelude
  import opened Kernel
  import opened KernelInv
  import opened KernelRuns
  import Sched
  import B = Barrier

  /** The operation an event performs on the queues, if any. */
  function SchedEvent(cfg: Config, s: State, e: Event): Option<Sched.Op>
    requires Enabled(cfg, s, e)
  {
    if !Works(s, e) then None
    else if e.d == 0 then
      if s.ld == LAdd then Some(Sched.PutOp(s.next, cfg.procs[s.next].prio)) else None
    else
      var u := s.cpus[e.d - 1];
      match u.pc
      case Top =>
        if u.proc == None || s.pcs[u.proc.value] == |cfg.procs[u.proc.value].code| then Some(Sched.GetOp)
        else if u.left == 0 then Some(Sched.PutOp(u.proc.value, cfg.procs[u.proc.value].prio))
        else None
      case Fetch => Some(Sched.GetOp)
      case _ => None
  }

  /** Every step applies exactly that operation; a get hands its process to the CPU. */
  lemma SchedMoves(cfg: Config, s: State, e: Event)
    requires Enabled(cfg, s, e)
    ensures match SchedEvent(cfg, s, e)
            case None => Step(cfg, s, e).sched == s.sched
            case Some(op) =>
              && (op.PutOp? ==> op.prio < Sched.MAX_PRIO)
              && Step(cfg, s, e).sched == Sched.Apply(s.sched, op)
              && (op.GetOp? ==>
                    0 < e.d <= |Step(cfg, s, e).cpus| && Step(cfg, s, e).cpus[e.d - 1].proc == Sched.Get(s.sched).1)
  {
    hide Sched.Get, Sched.Put;
  }

  lemma {:induction false} AfterFront(s: Sched.State, ops: seq<Sched.Op>, ops': seq<Sched.Op>, k: nat)
    requires Sched.Valid(s) && Sched.OpsOk(ops) && Sched.OpsOk(ops') && k <= |ops| && ops <= ops'
    ensures Sched.After(s, ops, k) == Sched.After(s, ops', k)
    decreases k
  {
    hide Sched.Apply, Sched.Valid;
    if k > 0 {
      AfterFront(s, ops, ops', k - 1);
      assert ops[k - 1] == ops'[k - 1];
    }
  }

  /** The scheduler's states in a kernel run are those of one of its own runs. */
  lemma {:induction false} SchedulerRun(cfg: Config, tr: seq<State>, es: seq<Event>, k: nat)
    returns (ops: seq<Sched.Op>)
    requires IsRun(cfg, tr, es) && k < |tr|
    ensures Sched.Valid(tr[0].sched) && Sched.OpsOk(ops) && |ops| <= k
    ensures Sched.After(tr[0].sched, ops, |ops|) == tr[k].sched
  {
    hide Step, Enabled, Inv, Sched.Apply;
    StartValid(cfg, tr[0]);
    if k == 0 {
      ops := [];
    } else {
      var front := SchedulerRun(cfg, tr, es, k - 1);
      assert Enabled(cfg, tr[k - 1], es[k - 1]) && tr[k] == Step(cfg, tr[k - 1], es[k - 1]);
      SchedMoves(cfg, tr[k - 1], es[k - 1]);
      var op := SchedEvent(cfg, tr[k - 1], es[k - 1]);
      ops := front;
      if op.Some? {
        ops := front + [op.value];
        AfterFront(tr[0].sched, front, ops, |front|);
      }
    }
  }

  lemma StartValid(cfg: Config, s: State)
    requires Init(cfg, s)
    ensures Sched.Valid(s.sched)
  {}

  /** Event t of a run is a call of get_proc. */
  ghost predicate GetsAt(cfg: Config, tr: seq<State>, es: seq<Event>, t: nat)
    requires IsRun(cfg, tr, es) && t < |es|
  {
    SchedEvent(cfg, tr[t], es[t]) == Some(Sched.GetOp)
  }

  /** How many of the events k .. m - 1 are. */
  ghost function GetsIn(cfg: Config, tr: seq<State>, es: seq<Event>, k: nat, m: nat): nat
    requires IsRun(cfg, tr, es) && k <= m <= |es|
    decreases m - k
  {
    if k == m then 0 else (if GetsAt(cfg, tr, es, k) then 1 else 0) + GetsIn(cfg, tr, es, k + 1, m)
  }

  /** Whenever get_proc is called among the events k .. m - 1, no level before l has work. */
  ghost predicate LevelsIdle(cfg: Config, tr: seq<State>, es: seq<Event>, k: nat, m: nat, l: nat)
    requires IsRun(cfg, tr, es) && k <= m <= |es| && l < Sched.MAX_PRIO
  {
    forall t :: k <= t < m && GetsAt(cfg, tr, es, t) ==> LevelsEmpty(tr[t].sched, l)
  }

  predicate LevelsEmpty(s: Sched.State, l: nat) {
    |s.queues| == Sched.MAX_PRIO && l < Sched.MAX_PRIO && forall u :: 0 <= u < l ==> s.queues[u] == []
  }

  /** One event of a run, seen from position i of level l. */
  lemma WaitEvent(cfg: Config, s: State, e: Event, l: nat, i: nat)
    requires Enabled(cfg, s, e) && l < Sched.MAX_PRIO && Sched.Valid(s.sched) && i < |s.sched.queues[l]|
    requires SchedEvent(cfg, s, e) == Some(Sched.GetOp) ==> LevelsEmpty(s.sched, l)
    ensures var t, g := Step(cfg, s, e), SchedEvent(cfg, s, e) == Some(Sched.GetOp);
            && Sched.Valid(t.sched)
            && if g && Sched.Get(s.sched).0.curr == l then
                 && Sched.Debt(t.sched, l) == 0 && t.sched.queues[l] == s.sched.queues[l][1..]
                 && 0 < e.d <= |t.cpus| && t.cpus[e.d - 1].proc == Some(s.sched.queues[l][0])
               else
                 && i < |t.sched.queues[l]| && t.sched.queues[l][i] == s.sched.queues[l][i]
                 && Sched.Debt(s.sched, l) == Sched.Debt(t.sched, l) + (if g then 1 else 0)
  {
    hide Step, Sched.Get, Sched.Put, Sched.Debt, Enabled;
    SchedMoves(cfg, s, e);
    var op := SchedEvent(cfg, s, e);
    if op.Some? {
      Sched.OneStepNearer(s.sched, op.value, l, i);
    }
  }

  /** Bounded waiting in the kernel: a process at position i of level l, while no more urgent
      level has work at any call of get_proc, is on a CPU within slot_left + i + 1 calls of
      get_proc by all CPUs together, whatever is added or put back meanwhile. */
  lemma {:induction false} KernelWaiting(cfg: Config, tr: seq<State>, es: seq<Event>, k: nat, m: nat, l: nat, i: nat)
    returns (j: nat)
    requires IsRun(cfg, tr, es) && k <= m <= |es| && l < Sched.MAX_PRIO && LevelsIdle(cfg, tr, es, k, m, l)
    requires Sched.Valid(tr[k].sched) && i < |tr[k].sched.queues[l]|
    requires GetsIn(cfg, tr, es, k, m) >= Sched.Debt(tr[k].sched, l) + i + 1
    ensures k <= j < m && GetsAt(cfg, tr, es, j) && 0 < es[j].d <= |tr[j + 1].cpus|
    ensures tr[j + 1].cpus[es[j].d - 1].proc == Some(tr[k].sched.queues[l][i])
    ensures GetsIn(cfg, tr, es, k, j) < Sched.Debt(tr[k].sched, l) + i + 1 <= tr[k].sched.slot + i + 1
    decreases m - k
  {
    hide Step, Enabled, SchedEvent, Sched.Get, LevelsEmpty;
    var s, e := tr[k], es[k];
    assert Enabled(cfg, s, e) && tr[k + 1] == Step(cfg, s, e);
    WaitEvent(cfg, s, e, l, i);
    if GetsAt(cfg, tr, es, k) && Sched.Get(s.sched).0.curr == l {
      if i == 0 {
        j := k;
      } else {
        j := KernelWaiting(cfg, tr, es, k + 1, m, l, i - 1);
      }
    } else {
      j := KernelWaiting(cfg, tr, es, k + 1, m, l, i);
    }
  }
}
