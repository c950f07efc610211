/**
 The multi-level queue policy of sched.c as a function on values: 140 bounded queues, a
 cursor `curr` and a budget `slot` kept from call to call.  SchedImp.dfy proves the loops
 of sched.c and queue.c against it.
 */
module Sched {
  import opened Prelude

  const MAX_PRIO: nat := 140
  const MAX_QUEUE_SIZE: nat := 10

  datatype State = State(queues: seq<seq<nat>>, curr: nat, slot: nat)

  /** What every call keeps: the budget never exceeds what the cursor's level may have. */
  predicate Valid(s: State) {
    && |s.queues| == MAX_PRIO
    && (forall l :: 0 <= l < MAX_PRIO ==> |s.queues[l]| <= MAX_QUEUE_SIZE)
    && s.curr < MAX_PRIO
    && s.slot <= MAX_PRIO - s.curr
  }

  /** The content of a queue after enqueue: a full queue drops the newcomer. */
  function Appended(q: seq<nat>, p: nat): seq<nat> {
    if |q| >= MAX_QUEUE_SIZE then q else q + [p]
  }

  /** put_mlq_proc and add_mlq_proc. */
  function Put(s: State, p: nat, prio: nat): (t: State)
    requires Valid(s) && prio < MAX_PRIO
  {
    s.(queues := s.queues[prio := Appended(s.queues[prio], p)])
  }

  /** The least level from `l` on with a waiting process, or MAX_PRIO. */
  function LeastFrom(queues: seq<seq<nat>>, l: nat): (r: nat)
    requires |queues| == MAX_PRIO && l <= MAX_PRIO
    ensures l <= r <= MAX_PRIO
    ensures r < MAX_PRIO ==> queues[r] != []
    ensures forall m :: l <= m < r ==> queues[m] == []
    decreases MAX_PRIO - l
  {
    if l == MAX_PRIO || queues[l] != [] then l else LeastFrom(queues, l + 1)
  }

  /** The cursor's level still has budget and work. */
  predicate Holds(s: State)
    requires Valid(s)
  {
    s.slot != 0 && s.queues[s.curr] != []
  }

  /** The level get_mlq_proc serves, or MAX_PRIO when all queues are empty. */
  function Pick(s: State): nat
    requires Valid(s)
  {
    if Holds(s) then s.curr else LeastFrom(s.queues, 0)
  }

  /** get_mlq_proc: the new state and the process handed out. */
  function Get(s: State): (r: (State, Option<nat>))
    requires Valid(s)
  {
    var l := Pick(s);
    if l == MAX_PRIO then (State(s.queues, 0, MAX_PRIO), None)
    else
      var budget := if Holds(s) then s.slot else MAX_PRIO - l;
      (State(s.queues[l := s.queues[l][1..]], l, budget - 1), Some(s.queues[l][0]))
  }

  /** Get, given the level its search arrives at. */
  lemma GetAt(s: State, l: nat)
    requires Valid(s) && l <= MAX_PRIO
    requires l < MAX_PRIO ==> s.queues[l] != []
    requires if Holds(s) then l == s.curr else forall m :: 0 <= m < l ==> s.queues[m] == []
    ensures l == MAX_PRIO ==> Get(s) == (State(s.queues, 0, MAX_PRIO), None)
    ensures l < MAX_PRIO ==>
              Get(s) == (State(s.queues[l := s.queues[l][1..]], l, (if Holds(s) then s.slot else MAX_PRIO - l) - 1),
                         Some(s.queues[l][0]))
  {
    assert Pick(s) == l;
  }

  predicate AllEmpty(s: State)
    requires |s.queues| == MAX_PRIO
  {
    forall l :: 0 <= l < MAX_PRIO ==> s.queues[l] == []
  }

  /** Exact selection: NULL exactly when every queue is empty; otherwise the head of the
      cursor's queue while it has budget and work, else the head of the most urgent
      non-empty queue.  Only that queue changes, and the range of the budget is kept. */
  lemma Selection(s: State)
    requires Valid(s)
    ensures Valid(Get(s).0)
    ensures Get(s).1 == None <==> AllEmpty(s)
    ensures Get(s).1 == None ==> Get(s).0.queues == s.queues
    ensures forall p :: Get(s).1 == Some(p) ==>
              var l := Get(s).0.curr;
              && s.queues[l] != [] && s.queues[l][0] == p
              && Get(s).0.queues == s.queues[l := s.queues[l][1..]]
              && (s.slot > 0 && s.queues[s.curr] != [] ==> l == s.curr)
              && (s.slot == 0 || s.queues[s.curr] == [] ==> forall m :: 0 <= m < l ==> s.queues[m] == [])
  {
    if !Holds(s) && LeastFrom(s.queues, 0) == MAX_PRIO {
      assert AllEmpty(s);
    }
  }

  // ----------------------------------------------------------------- runs

  datatype Op = GetOp | PutOp(pid: nat, prio: nat)

  predicate OpsOk(ops: seq<Op>) {
    forall k :: 0 <= k < |ops| ==> ops[k].PutOp? ==> ops[k].prio < MAX_PRIO
  }

  function Apply(s: State, op: Op): (t: State)
    requires Valid(s) && (op.PutOp? ==> op.prio < MAX_PRIO)
    ensures Valid(t)
  {
    match op
    case GetOp => Selection(s); Get(s).0
    case PutOp(p, prio) => Put(s, p, prio)
  }

  /** The state after the first `k` operations. */
  function After(s: State, ops: seq<Op>, k: nat): (t: State)
    requires Valid(s) && OpsOk(ops) && k <= |ops|
    ensures Valid(t)
  {
    if k == 0 then s else Apply(After(s, ops, k - 1), ops[k - 1])
  }

  /** How many of the first `k` operations are calls of get_mlq_proc. */
  function Gets(ops: seq<Op>, k: nat): (n: nat)
    requires k <= |ops|
  {
    if k == 0 then 0 else Gets(ops, k - 1) + (if ops[k - 1].GetOp? then 1 else 0)
  }

  /** Before each get among `ops`, the queues more urgent than `p` are empty. */
  ghost predicate NothingMoreUrgent(s: State, ops: seq<Op>, p: nat)
    requires Valid(s) && OpsOk(ops) && p < MAX_PRIO
  {
    forall k, m :: 0 <= k < |ops| && ops[k].GetOp? && 0 <= m < p ==> After(s, ops, k).queues[m] == []
  }

  /** What a less urgent level may still take before level `p` is looked at. */
  function Debt(s: State, p: nat): nat {
    if s.curr > p then s.slot else 0
  }

  /** One operation moves the process at position `i` of level `p` forward: a get either
      hands it out or uses up one unit of the waiting bound; a put leaves it in place. */
  lemma OneStepNearer(s: State, op: Op, p: nat, i: nat)
    requires Valid(s) && (op.PutOp? ==> op.prio < MAX_PRIO)
    requires p < MAX_PRIO && i < |s.queues[p]|
    requires op.GetOp? ==> forall m :: 0 <= m < p ==> s.queues[m] == []
    ensures op.PutOp? ==> Debt(Apply(s, op), p) == Debt(s, p) && s.queues[p] <= Apply(s, op).queues[p]
    ensures op.GetOp? && Get(s).0.curr == p ==>
              && Debt(Apply(s, op), p) == 0 && Get(s).1 == Some(s.queues[p][0])
              && Apply(s, op).queues[p] == s.queues[p][1..]
    ensures op.GetOp? && Get(s).0.curr != p ==>
              Debt(s, p) == Debt(Apply(s, op), p) + 1 && Apply(s, op).queues[p] == s.queues[p]
  {
    Selection(s);
    assert Get(s).1.Some? by {
      assert s.queues[p] != [];
    }
  }

  /** Bounded waiting.  If from now on no more urgent level has work, the process at
      position `i` of level `p` is handed out by one of the next Debt + i + 1 calls of
      get_mlq_proc, whatever puts come in between. */
  lemma {:induction false} BoundedWaiting(s: State, ops: seq<Op>, p: nat, i: nat) returns (k: nat)
    requires Valid(s) && OpsOk(ops) && p < MAX_PRIO && i < |s.queues[p]|
    requires NothingMoreUrgent(s, ops, p)
    requires Gets(ops, |ops|) >= Debt(s, p) + i + 1
    ensures k < |ops| && ops[k].GetOp?
    ensures Get(After(s, ops, k)).0.curr == p && Get(After(s, ops, k)).1 == Some(s.queues[p][i])
    ensures Gets(ops, k) < Debt(s, p) + i + 1 <= s.slot + i + 1
  {
    k := WaitFrom(s, ops, p, s.queues[p][i], 0, i, Debt(s, p) + i + 1);
  }

  /** After `at` operations the process is at position `j`, and what it may still have to
      wait for plus the gets already made stay within `bound`. */
  ghost predicate WaitsWithin(s: State, ops: seq<Op>, p: nat, who: nat, at: nat, j: nat, bound: nat)
    requires Valid(s) && OpsOk(ops) && p < MAX_PRIO && at <= |ops|
  {
    var t := After(s, ops, at);
    && j < |t.queues[p]| && t.queues[p][j] == who
    && Gets(ops, at) + Debt(t, p) + j < bound
  }

  lemma WaitStep(s: State, ops: seq<Op>, p: nat, who: nat, at: nat, j: nat, bound: nat)
    requires Valid(s) && OpsOk(ops) && p < MAX_PRIO && at <= |ops|
    requires NothingMoreUrgent(s, ops, p) && Gets(ops, |ops|) >= bound
    requires WaitsWithin(s, ops, p, who, at, j, bound)
    ensures at < |ops| && Gets(ops, at) < bound
    ensures if ops[at].PutOp? || Get(After(s, ops, at)).0.curr != p then WaitsWithin(s, ops, p, who, at + 1, j, bound)
            else if j > 0 then WaitsWithin(s, ops, p, who, at + 1, j - 1, bound)
            else Get(After(s, ops, at)).1 == Some(who)
  {
    var t := After(s, ops, at);
    OneStepNearer(t, ops[at], p, j);
    assert After(s, ops, at + 1) == Apply(t, ops[at]);
  }

  lemma {:induction false} WaitFrom(s: State, ops: seq<Op>, p: nat, who: nat, at: nat, j: nat, bound: nat)
      returns (k: nat)
    requires Valid(s) && OpsOk(ops) && p < MAX_PRIO && at <= |ops|
    requires NothingMoreUrgent(s, ops, p)
    requires Gets(ops, |ops|) >= bound
    requires WaitsWithin(s, ops, p, who, at, j, bound)
    ensures k < |ops| && ops[k].GetOp? && Gets(ops, k) < bound
    ensures Get(After(s, ops, k)).0.curr == p && Get(After(s, ops, k)).1 == Some(who)
    decreases |ops| - at
  {
    hide NothingMoreUrgent, WaitsWithin, After, Get, Gets;
    WaitStep(s, ops, p, who, at, j, bound);
    if ops[at].PutOp? || Get(After(s, ops, at)).0.curr != p {
      k := WaitFrom(s, ops, p, who, at + 1, j, bound);
    } else if j > 0 {
      k := WaitFrom(s, ops, p, who, at + 1, j - 1, bound);
    } else {
      k := at;
    }
  }

  /** The gets among operations a..b all serve level `p` although a more urgent level waits. */
  ghost predicate PassesOver(s: State, ops: seq<Op>, p: nat, a: nat, b: nat)
    requires Valid(s) && OpsOk(ops) && a <= b <= |ops| && p < MAX_PRIO
  {
    forall k :: a <= k < b && ops[k].GetOp? ==>
      && Get(After(s, ops, k)).1.Some? && Get(After(s, ops, k)).0.curr == p
      && exists m :: 0 <= m < p && After(s, ops, k).queues[m] != []
  }

  /** No level holds on for long: level `p` is served at most MAX_PRIO - p times in a row
      while a more urgent level waits. */
  lemma {:induction false} BoundedHold(s: State, ops: seq<Op>, p: nat, a: nat, b: nat)
    requires Valid(s) && OpsOk(ops) && a <= b <= |ops| && p < MAX_PRIO
    requires PassesOver(s, ops, p, a, b)
    ensures Gets(ops, b) - Gets(ops, a) <= MAX_PRIO - p
    ensures Gets(ops, b) > Gets(ops, a) ==>
              After(s, ops, b).curr == p && After(s, ops, b).slot + Gets(ops, b) - Gets(ops, a) <= MAX_PRIO - p
    decreases b - a
  {
    if a < b {
      assert PassesOver(s, ops, p, a, b - 1);
      BoundedHold(s, ops, p, a, b - 1);
      var t := After(s, ops, b - 1);
      if ops[b - 1].GetOp? {
        Selection(t);
      }
    }
  }

  /** A put loses the process exactly when its queue is full, and never touches another
      level. */
  lemma FullQueueDrops(s: State, p: nat, prio: nat)
    requires Valid(s) && prio < MAX_PRIO
    ensures Put(s, p, prio).queues == s.queues <==> |s.queues[prio]| == MAX_QUEUE_SIZE
    ensures |s.queues[prio]| < MAX_QUEUE_SIZE ==>
              && Put(s, p, prio).queues[prio] == s.queues[prio] + [p]
              && forall l :: 0 <= l < MAX_PRIO && l != prio ==> Put(s, p, prio).queues[l] == s.queues[l]
  {
    if |s.queues[prio]| < MAX_QUEUE_SIZE {
      assert |Put(s, p, prio).queues[prio]| == |s.queues[prio]| + 1;
    }
  }
}
