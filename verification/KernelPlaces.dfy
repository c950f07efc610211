/** Where every process is: the conservation invariant of the kernel model. */
module KernelPlaces {
  import opened Prelude
  import opened Kernel
  import Sched
  import B = Barrier

  /** A waiting process stands in the queue of its own priority. */
  predicate QueuesAgree(cfg: Config, s: State)
    requires Shape(cfg, s)
  {
    forall l, i :: 0 <= l < Sched.MAX_PRIO && 0 <= i < |s.sched.queues[l]| ==>
      var p := s.sched.queues[l][i];
      cfg.procs[p].prio == l && s.place[p] == Queued
  }

  predicate CpusAgree(cfg: Config, s: State)
    requires Shape(cfg, s)
  {
    && (forall c :: 0 <= c < |s.cpus| && s.cpus[c].proc.Some? ==> s.place[s.cpus[c].proc.value] == OnCpu(c))
    && (forall p :: 0 <= p < |s.place| && s.place[p].OnCpu? ==>
          s.place[p].cpu < |s.cpus| && s.cpus[s.place[p].cpu].proc == Some(p))
  }

  ghost predicate Places(cfg: Config, s: State) {
    && Shape(cfg, s)
    && QueuesAgree(cfg, s)
    && CpusAgree(cfg, s)
    && (forall l :: 0 <= l < Sched.MAX_PRIO ==> NoDup(s.sched.queues[l]))
    && (forall p :: 0 <= p < |s.place| && s.place[p] == Queued ==> p in s.sched.queues[cfg.procs[p].prio])
    && s.next <= |cfg.procs|
    && (forall p :: 0 <= p < |s.place| ==> (s.place[p] == Waiting <==> p >= s.next))
  }

  lemma PlacesInit(cfg: Config, s: State)
    requires Init(cfg, s)
    ensures Places(cfg, s)
  {}

  /** Steps that move no process. */
  lemma PlacesFrame(cfg: Config, s: State, t: State)
    requires Places(cfg, s)
    requires t.sched == s.sched && t.place == s.place && t.next == s.next
    requires |t.cpus| == |s.cpus| && |t.bar.dev| == |s.bar.dev| && |t.pcs| == |s.pcs| && |t.calls| == |s.calls|
    requires forall c :: 0 <= c < |s.cpus| ==> t.cpus[c].proc == s.cpus[c].proc
    requires t.ld == LTime || t.ld == LAdd || t.ld == LSkipTime ==> t.next < |cfg.procs|
    ensures Places(cfg, t)
  {}

  lemma PlacesRetire(cfg: Config, s: State, c: nat)
    requires Places(cfg, s) && c < |s.cpus| && s.cpus[c].proc.Some?
    ensures Places(cfg, RetireStep(cfg, s, c))
  {
    assert s.place[s.cpus[c].proc.value] == OnCpu(c);
  }

  /** The effect on the queues of dequeuing the head of level `l`. */
  lemma PlacesTake(cfg: Config, s: State, queues: seq<seq<nat>>, place: seq<Place>, l: nat)
    requires Places(cfg, s) && l < Sched.MAX_PRIO && s.sched.queues[l] != []
    requires queues == s.sched.queues[l := s.sched.queues[l][1..]]
    requires |place| == |s.place|
    requires forall r :: 0 <= r < |place| && r != s.sched.queues[l][0] ==> place[r] == s.place[r]
    requires place[s.sched.queues[l][0]] != Queued
    ensures forall m, i :: 0 <= m < Sched.MAX_PRIO && 0 <= i < |queues[m]| ==>
              queues[m][i] < |cfg.procs| && cfg.procs[queues[m][i]].prio == m && place[queues[m][i]] == Queued
    ensures forall m :: 0 <= m < Sched.MAX_PRIO ==> NoDup(queues[m])
    ensures forall r :: 0 <= r < |place| && place[r] == Queued ==> r in queues[cfg.procs[r].prio]
  {
    var q := s.sched.queues[l];
    var p := q[0];
    forall m, i | 0 <= m < Sched.MAX_PRIO && 0 <= i < |queues[m]|
      ensures queues[m][i] < |cfg.procs| && cfg.procs[queues[m][i]].prio == m && place[queues[m][i]] == Queued
    {
      var j := if m == l then i + 1 else i;
      assert queues[m][i] == s.sched.queues[m][j];
      assert cfg.procs[q[0]].prio == l;
    }
    forall r | 0 <= r < |place| && place[r] == Queued ensures r in queues[cfg.procs[r].prio] {
      assert r != p && r in s.sched.queues[cfg.procs[r].prio];
    }
  }

  lemma PlacesFetch(cfg: Config, s: State, c: nat, miss: CpuPc)
    requires Places(cfg, s) && c < |s.cpus| && s.cpus[c].proc == None
    ensures Places(cfg, FetchStep(cfg, s, c, miss))
  {
    hide Sched.Get;
    if Sched.Get(s.sched).1 == None {
      FetchMiss(cfg, s, c, miss);
    } else {
      FetchHit(cfg, s, c, miss);
    }
  }

  lemma FetchMiss(cfg: Config, s: State, c: nat, miss: CpuPc)
    requires Places(cfg, s) && c < |s.cpus| && s.cpus[c].proc == None && Sched.Get(s.sched).1 == None
    ensures Places(cfg, FetchStep(cfg, s, c, miss))
  {
    hide Sched.Get;
    Sched.Selection(s.sched);
  }

  lemma FetchHit(cfg: Config, s: State, c: nat, miss: CpuPc)
    requires Places(cfg, s) && c < |s.cpus| && s.cpus[c].proc == None && Sched.Get(s.sched).1 != None
    ensures Places(cfg, FetchStep(cfg, s, c, miss))
  {
    hide Sched.Get;
    Sched.Selection(s.sched);
    var t := FetchStep(cfg, s, c, miss);
    assert s.place[s.sched.queues[t.sched.curr][0]] == Queued;
    PlacesTake(cfg, s, t.sched.queues, t.place, t.sched.curr);
  }

  /** The effect of one enqueue of a process that stands in no queue. */
  lemma PlacesPut(cfg: Config, s: State, t: State, p: nat)
    requires Places(cfg, s) && p < |cfg.procs| && s.place[p] != Queued
    requires t.sched == Sched.Put(s.sched, p, cfg.procs[p].prio)
    requires t.place == s.place[p := Landed(s, cfg.procs[p].prio)]
    ensures forall l, i :: 0 <= l < Sched.MAX_PRIO && 0 <= i < |t.sched.queues[l]| ==>
              t.sched.queues[l][i] < |cfg.procs| && cfg.procs[t.sched.queues[l][i]].prio == l
              && t.place[t.sched.queues[l][i]] == Queued
    ensures forall l :: 0 <= l < Sched.MAX_PRIO ==> NoDup(t.sched.queues[l])
    ensures forall r :: 0 <= r < |t.place| && t.place[r] == Queued ==> r in t.sched.queues[cfg.procs[r].prio]
  {
    var l := cfg.procs[p].prio;
    var q := s.sched.queues[l];
    forall m, i | 0 <= m < Sched.MAX_PRIO && 0 <= i < |t.sched.queues[m]|
      ensures t.sched.queues[m][i] < |cfg.procs| && cfg.procs[t.sched.queues[m][i]].prio == m
      ensures t.place[t.sched.queues[m][i]] == Queued
    {
      if m != l || i < |q| {
        assert t.sched.queues[m][i] == s.sched.queues[m][i];
      }
    }
    assert forall i :: 0 <= i < |q| ==> q[i] != p;
    forall r | 0 <= r < |t.place| && t.place[r] == Queued ensures r in t.sched.queues[cfg.procs[r].prio] {
      if r != p {
        assert r in s.sched.queues[cfg.procs[r].prio];
      } else {
        assert t.sched.queues[l] == q + [p];
      }
    }
  }

  lemma PlacesRequeue(cfg: Config, s: State, c: nat)
    requires Places(cfg, s) && c < |s.cpus| && s.cpus[c].proc.Some?
    ensures Places(cfg, RequeueStep(cfg, s, c))
  {
    PlacesPut(cfg, s, RequeueStep(cfg, s, c), s.cpus[c].proc.value);
  }

  lemma PlacesAdd(cfg: Config, s: State)
    requires Places(cfg, s) && s.ld == LAdd && s.bar.dev[0].pc == B.Running
    ensures Places(cfg, LoaderStep(cfg, s))
  {
    PlacesPut(cfg, s, LoaderStep(cfg, s), s.next);
  }

  lemma PlacesCpu(cfg: Config, s: State, c: nat)
    requires Places(cfg, s) && c < |s.cpus| && s.bar.dev[c + 1].pc == B.Running
    requires s.cpus[c].pc == Fetch ==> s.cpus[c].proc == None
    ensures Places(cfg, CpuStep(cfg, s, c))
  {
    var cpu := s.cpus[c];
    var t := CpuStep(cfg, s, c);
    if cpu.pc == Fetch || (cpu.pc == Top && cpu.proc == None) {
      PlacesFetch(cfg, s, c, if cpu.pc == Fetch then Recheck else Skip);
    } else if cpu.pc == Top && s.pcs[cpu.proc.value] == |cfg.procs[cpu.proc.value].code| {
      PlacesRetire(cfg, s, c);
      PlacesFetch(cfg, RetireStep(cfg, s, c), c, Recheck);
    } else if cpu.pc == Top && cpu.left == 0 {
      PlacesRequeue(cfg, s, c);
    } else {
      PlacesFrame(cfg, s, t);
    }
  }

  lemma PlacesStep(cfg: Config, s: State, e: Event)
    requires Places(cfg, s) && Enabled(cfg, s, e)
    requires forall c :: 0 <= c < |s.cpus| && s.cpus[c].pc == Fetch ==> s.cpus[c].proc == None
    ensures Places(cfg, Step(cfg, s, e))
  {
    hide CpuStep, Sched.Put;
    if e.Thread? && s.bar.dev[e.d].pc == B.Running {
      if e.d > 0 {
        PlacesCpu(cfg, s, e.d - 1);
      } else if s.ld == LAdd {
        PlacesAdd(cfg, s);
      } else {
        PlacesFrame(cfg, s, Step(cfg, s, e));
      }
    } else {
      PlacesFrame(cfg, s, Step(cfg, s, e));
    }
  }
}
