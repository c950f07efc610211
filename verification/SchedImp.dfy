/** queue.c and sched.c in place: bounded array queues, and the loops over them. */
module SchedImp {
  import opened Prelude
  import Sched

  /** struct queue_t: `None` stands for a NULL slot. */
  class Queue {
    const proc: array<Option<nat>>
    var size: nat

    ghost predicate Valid()
      reads this, proc
    {
      && proc.Length == Sched.MAX_QUEUE_SIZE && size <= proc.Length
      && forall i :: 0 <= i < size ==> proc[i].Some?
    }

    /** The waiting processes, oldest first. */
    ghost function Contents(): (s: seq<nat>)
      requires Valid()
      reads this, proc
    {
      seq(size, i requires 0 <= i < size <= proc.Length && proc[i].Some? reads this, proc => proc[i].value)
    }

    constructor ()
      ensures Valid() && fresh(proc) && Contents() == []
    {
      proc := new Option<nat>[Sched.MAX_QUEUE_SIZE](_ => None);
      size := 0;
    }

    method Empty() returns (r: bool)
      requires Valid()
      ensures r == (Contents() == [])
    {
      assert |Contents()| == size;
      r := size == 0;
    }

    method Enqueue(p: nat)
      requires Valid()
      modifies this`size, proc
      ensures Valid() && Contents() == Sched.Appended(old(Contents()), p)
    {
      if size >= Sched.MAX_QUEUE_SIZE {
        return;
      }
      size := size + 1;
      proc[size - 1] := Some(p);
    }

    method Dequeue() returns (head: Option<nat>)
      requires Valid()
      modifies this`size, proc
      ensures Valid()
      ensures head == if old(Contents()) == [] then None else Some(old(Contents())[0])
      ensures Contents() == if old(Contents()) == [] then [] else old(Contents())[1..]
    {
      if size == 0 {
        return None;
      }
      head := proc[0];
      var i := 0;
      while i < size - 1
        invariant 0 <= i <= size - 1 && size == old(size)
        invariant forall k :: 0 <= k < i ==> proc[k] == old(proc[k + 1])
        invariant forall k :: i <= k < proc.Length ==> proc[k] == old(proc[k])
      {
        proc[i] := proc[i + 1];
        i := i + 1;
      }
      proc[size - 1] := None;
      size := size - 1;
    }
  }

  /** The cursor's successor. */
  lemma Wrap(l: nat)
    requires l < Sched.MAX_PRIO
    ensures (l + 1) % Sched.MAX_PRIO == if l + 1 == Sched.MAX_PRIO then 0 else l + 1
  {}

  /** The static state of sched.c; each method is one critical section under queue_lock. */
  class Scheduler {
    const queues: seq<Queue>
    var currPrio: nat
    var slotLeft: nat
    ghost var levels: seq<seq<nat>>

    ghost function Cells(): set<object> {
      (set l | 0 <= l < |queues| :: queues[l] as object) + (set l | 0 <= l < |queues| :: queues[l].proc as object)
    }

    ghost predicate QueuesValid()
      reads this`levels, Cells()
    {
      && |queues| == |levels| == Sched.MAX_PRIO
      && (forall k, l :: 0 <= k < l < |queues| ==> queues[k] != queues[l] && queues[k].proc != queues[l].proc)
      && (forall l :: 0 <= l < |queues| ==> queues[l].Valid() && queues[l].Contents() == levels[l])
    }

    ghost predicate Valid()
      reads this, Cells()
    {
      QueuesValid() && currPrio < Sched.MAX_PRIO && slotLeft <= Sched.MAX_PRIO - currPrio
    }

    ghost function View(): (v: Sched.State)
      requires Valid()
      reads this, Cells()
      ensures Sched.Valid(v)
    {
      assert forall l :: 0 <= l < |queues| ==> |queues[l].Contents()| <= Sched.MAX_QUEUE_SIZE;
      Sched.State(levels, currPrio, slotLeft)
    }

    // init_scheduler, with the initial values of the two static variables.
    constructor ()
      ensures Valid() && fresh(Cells())
      ensures View() == Sched.State(seq(Sched.MAX_PRIO, _ => []), 0, Sched.MAX_PRIO)
    {
      var qs: seq<Queue> := [];
      for i := 0 to Sched.MAX_PRIO
        invariant |qs| == i
        invariant forall l :: 0 <= l < i ==> fresh(qs[l]) && fresh(qs[l].proc)
        invariant forall l :: 0 <= l < i ==> qs[l].Valid() && qs[l].Contents() == []
        invariant forall k, l :: 0 <= k < l < i ==> qs[k] != qs[l] && qs[k].proc != qs[l].proc
      {
        var q := new Queue();
        qs := qs + [q];
      }
      queues := qs;
      currPrio, slotLeft := 0, Sched.MAX_PRIO;
      levels := seq(Sched.MAX_PRIO, _ => []);
    }

    method IsEmpty(l: nat) returns (r: bool)
      requires QueuesValid() && l < Sched.MAX_PRIO
      ensures r == (levels[l] == [])
    {
      r := queues[l].Empty();
    }

    // The served branch: dequeue at the cursor and spend one unit of the budget.
    method Serve() returns (head: Option<nat>)
      requires Valid() && levels[currPrio] != [] && slotLeft > 0
      modifies this, Cells()
      ensures Valid() && head == Some(old(levels)[old(currPrio)][0])
      ensures View() == Sched.State(old(levels)[old(currPrio) := old(levels)[old(currPrio)][1..]],
                                    old(currPrio), old(slotLeft) - 1)
    {
      head := queues[currPrio].Dequeue();
      levels := levels[currPrio := levels[currPrio][1..]];
      slotLeft := slotLeft - 1;
    }

    // get_mlq_proc up to its dequeue: give up a cursor without budget or work, then advance
    // until the cursor's level has work, at most once around.
    method Search() returns (found: bool)
      requires Valid()
      modifies this`currPrio, this`slotLeft
      ensures QueuesValid() && currPrio < Sched.MAX_PRIO
      ensures if old(Sched.Holds(View())) then found && currPrio == old(currPrio) && slotLeft == old(slotLeft)
              else slotLeft == Sched.MAX_PRIO - currPrio && forall m :: 0 <= m < currPrio ==> levels[m] == []
      ensures found ==> levels[currPrio] != []
      ensures !found ==> currPrio == 0 && forall m :: 0 <= m < Sched.MAX_PRIO ==> levels[m] == []
    {
      ghost var held := Sched.Holds(View());
      var none := IsEmpty(currPrio);
      if slotLeft == 0 || none {
        currPrio := 0;
        slotLeft := Sched.MAX_PRIO - currPrio;
      }
      var i := 0;
      while i < Sched.MAX_PRIO
        invariant 0 <= i <= Sched.MAX_PRIO
        invariant held ==> i == 0 && currPrio == old(currPrio) && slotLeft == old(slotLeft)
        invariant !held ==>
                    && currPrio == (if i == Sched.MAX_PRIO then 0 else i) && slotLeft == Sched.MAX_PRIO - currPrio
                    && forall m :: 0 <= m < i ==> levels[m] == []
      {
        none := IsEmpty(currPrio);
        if slotLeft == 0 || none {
          Wrap(currPrio);
          currPrio := (currPrio + 1) % Sched.MAX_PRIO;
          slotLeft := Sched.MAX_PRIO - currPrio;
        } else {
          return true;
        }
        i := i + 1;
      }
      found := false;
    }

    method GetMlqProc() returns (proc: Option<nat>)
      requires Valid()
      modifies this, Cells()
      ensures Valid()
      ensures View() == Sched.Get(old(View())).0 && proc == Sched.Get(old(View())).1
    {
      ghost var v := View();
      var found := Search();
      Sched.GetAt(v, if found then currPrio else Sched.MAX_PRIO);
      proc := None;
      if found {
        proc := Serve();
      }
    }

    // put_mlq_proc and add_mlq_proc have the same body.
    method PutMlqProc(p: nat, prio: nat)
      requires Valid() && prio < Sched.MAX_PRIO
      modifies this`levels, Cells()
      ensures Valid()
      ensures View() == Sched.Put(old(View()), p, prio)
    {
      queues[prio].Enqueue(p);
      levels := levels[prio := Sched.Appended(levels[prio], p)];
    }
  }
}
