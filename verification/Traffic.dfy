/**
 Runs that mix __alloc and __free with reads and writes, of any number of processes, down to
 the bytes of the RAM and of the swap device.
 */
module Traffic {
  import opened Prelude
  import opened Bits
  import opened Pte
  import opened Frames
  import opened Devices
  import opened Memory
  import opened Access
  import opened Paging
  import M = Machine

  /** The books, and the contents of the two devices. */
  datatype World = World(m: M.State, ram: seq<Byte>, swp: seq<Byte>)

  datatype Op = Book(op: M.Op) | ReadOp(pid: nat, addr: Word) | WriteOp(pid: nat, addr: Word, value: Byte)

  /** What process `pid` sees of the world. */
  function View(w: World, pid: nat): Space
    requires pid < |w.m.mms|
  {
    Space(w.m.mms[pid].pgd, w.m.mms[pid].fifo, w.m.swp, w.ram, w.swp)
  }

  /** Books and devices fit each other, so that every operation is defined. */
  ghost predicate Sound(w: World) {
    && M.Shape(w.m) && |w.ram| >= RAM_MIN
    && AllInside(w.m.swp, |w.swp|)
    && forall i :: 0 <= i < |w.m.mms| ==> SpaceOk(View(w, i))
  }

  predicate Legal(w: World, op: Op)
    requires M.Shape(w.m)
  {
    match op
    case Book(o) => M.Legal(w.m, o)
    case ReadOp(pid, _) => pid < |w.m.mms|
    case WriteOp(pid, _, _) => pid < |w.m.mms|
  }

  lemma SpaceBacked(s: Space)
    requires SpaceOk(s)
    ensures Backed(s.pgd, s.fifo, |s.ram|)
  {
    hide Present, PagingFpn, Inside;
    forall i | 0 <= i < |s.fifo| ensures Inside(PagingFpn(s.pgd[s.fifo[i]]), |s.ram|) {
      FpnInside(s.pgd[s.fifo[i]], |s.ram|);
    }
  }

  /** The swap device after an operation on the books: evicted pages are saved to it. */
  ghost function SwapAfter(w: World, o: M.Op): (r: seq<Byte>)
    requires Sound(w) && M.Legal(w.m, o)
    ensures |r| == |w.swp|
  {
    if M.Grows(w.m, o) then
      var mm := w.m.mms[o.pid];
      SpaceBacked(View(w, o.pid));
      Saved(PagesFor(o.size), mm.pgd, mm.fifo, w.m.ram, w.m.swp, w.swp, w.ram)
    else w.swp
  }

  /** The world in which process `pid` sees `s`. */
  function Update(w: World, pid: nat, s: Space): World
    requires pid < |w.m.mms|
  {
    var mm := w.m.mms[pid].(pgd := s.pgd, fifo := s.fifo);
    World(w.m.(mms := w.m.mms[pid := mm], swp := s.slots), s.ram, s.swp)
  }

  ghost function Step(w: World, op: Op): World
    requires Sound(w) && Legal(w, op)
  {
    match op
    case Book(o) => World(M.Step(w.m, o), w.ram, SwapAfter(w, o))
    case ReadOp(pid, addr) => Update(w, pid, Fetch(View(w, pid), addr).1)
    case WriteOp(pid, addr, value) => Update(w, pid, Store(View(w, pid), addr, value).1)
  }

  /** Allocations can be mapped, and accesses stay below the end of the area. */
  predicate Served(w: World, op: Op)
    requires M.Shape(w.m) && Legal(w, op)
  {
    match op
    case Book(o) => M.Maps(w.m, o)
    case ReadOp(pid, addr) => addr < w.m.mms[pid].vmEnd
    case WriteOp(pid, addr, _) => addr < w.m.mms[pid].vmEnd
  }

  /** `tr` lists the worlds visited by served operations from freshly formatted devices. */
  ghost predicate IsRun(tr: seq<World>, ops: seq<Op>) {
    && |tr| == |ops| + 1 && RAM_MIN <= |tr[0].ram| && |tr[0].ram| / 256 <= MAX_FPN && |tr[0].swp| / 256 <= MAX_SWPOFF
    && tr[0].m == M.State([], Range(|tr[0].ram| / 256), Range(|tr[0].swp| / 256))
    && forall k :: 0 <= k < |ops| ==>
         Sound(tr[k]) && Legal(tr[k], ops[k]) && Served(tr[k], ops[k]) && tr[k + 1] == Step(tr[k], ops[k])
  }

  /** Agreement of the books makes a world sound. */
  lemma AgreedSound(w: World, nram: nat, nswp: nat)
    requires M.Shape(w.m) && M.Agrees(w.m, nram, nswp) && |w.ram| >= RAM_MIN && 256 * nswp <= |w.swp|
    ensures Sound(w)
  {
    hide Present, Swapped, SlotsIn, M.AllSlots, Range;
    forall i | 0 <= i < |w.m.swp| ensures w.m.swp[i] < nswp {
      M.RangeCount(nswp, w.m.swp[i]);
      assert w.m.swp[i] in multiset(w.m.swp);
      assert (M.AllSlots(w.m.mms) + multiset(w.m.swp))[w.m.swp[i]] >= 1;
    }
    forall i | 0 <= i < |w.m.mms| ensures SpaceOk(View(w, i)) {
      MappedSpace(w.m.mms[i], View(w, i));
    }
  }

  lemma MappedSpace(mm: Mm, s: Space)
    requires MappedOk(mm) && s.pgd == mm.pgd && s.fifo == mm.fifo && |s.ram| >= RAM_MIN
    requires forall i :: 0 <= i < |s.slots| ==> s.slots[i] < MAX_SWPOFF && Inside(s.slots[i], |s.swp|)
    ensures SpaceOk(s)
  {
    hide Present, Swapped;
  }

  /** A served access leaves the books alone: a read changes nothing, a write one byte. */
  lemma AccessStep(w: World, op: Op, nram: nat, nswp: nat)
    requires Sound(w) && M.Agrees(w.m, nram, nswp) && Legal(w, op) && Served(w, op) && !op.Book?
    ensures Step(w, op) == if op.ReadOp? then w
                           else w.(ram := w.ram[Phys(w.m.mms[op.pid].pgd, op.addr) := op.value])
    ensures op.ReadOp? ==>
              Fetch(View(w, op.pid), op.addr).0 == Some(w.ram[Phys(w.m.mms[op.pid].pgd, op.addr)])
  {
    hide Phys, Present, Swapped, Fetch, Store;
    var mm := w.m.mms[op.pid];
    assert MappedOk(mm) && SpaceOk(View(w, op.pid));
    AccessBelowEnd(mm, View(w, op.pid), op.addr, if op.WriteOp? then op.value else 0);
    assert w.m.mms[op.pid := mm] == w.m.mms;
  }

  /** Slot ownership over all processes survives every access to a page below the end of its
      area, also one that a failed mapping left unmapped, where pg_getpage swaps. */
  lemma AccessOwns(w: World, op: Op, nswp: nat)
    requires Sound(w) && M.AllTabled(w.m) && M.SlotsOwned(w.m, nswp) && Legal(w, op) && !op.Book?
    requires Pgn(op.addr) < Pages(w.m.mms[op.pid])
    ensures M.AllTabled(Step(w, op).m) && M.SlotsOwned(Step(w, op).m, nswp)
  {
    hide Pgn, Offst, Phys, Present, Swapped, Fetch, Store, SlotsIn, M.SlotsOwned;
    var mm, s := w.m.mms[op.pid], View(w, op.pid);
    assert Tabled(mm) && SpaceOk(s);
    AccessConserves(s, op.addr, if op.WriteOp? then op.value else 0, Pages(mm));
    var t := if op.ReadOp? then Fetch(s, op.addr).1 else Store(s, op.addr, op.value).1;
    assert Step(w, op) == Update(w, op.pid, t);
    M.SlotsReplace(w.m, op.pid, mm.(pgd := t.pgd, fifo := t.fifo), w.m.ram, t.slots, nswp);
  }

  /** What every run keeps, and that the operations of every run are defined. */
  lemma {:induction false} RunSound(tr: seq<World>, ops: seq<Op>, k: nat)
    requires IsRun(tr, ops) && k < |tr|
    ensures |tr[k].ram| == |tr[0].ram| && |tr[k].swp| == |tr[0].swp|
    ensures M.Agrees(tr[k].m, |tr[0].ram| / 256, |tr[0].swp| / 256) && M.Spaces(tr[k].m) && Sound(tr[k])
  {
    hide M.Step, M.Agrees, M.Spaces, M.Legal, M.Maps, Sound, Phys, Fetch, Store, SwapAfter, Update;
    var nram, nswp := |tr[0].ram| / 256, |tr[0].swp| / 256;
    if k == 0 {
      Start(tr[0].m, nram, nswp);
    } else {
      RunSound(tr, ops, k - 1);
      var w, op := tr[k - 1], ops[k - 1];
      SoundShape(w);
      assert Legal(w, op) && Served(w, op) && tr[k] == Step(w, op);
      if op.Book? {
        M.AgreesStep(w.m, op.op, nram, nswp);
        M.SpacesStep(w.m, op.op);
      } else {
        AccessStep(w, op, nram, nswp);
      }
    }
    M.SpacesShape(tr[k].m);
    AgreedSound(tr[k], nram, nswp);
  }

  lemma SoundShape(w: World)
    requires Sound(w)
    ensures M.Shape(w.m)
  {}

  lemma Start(m: M.State, nram: nat, nswp: nat)
    requires nram <= MAX_FPN && nswp <= MAX_SWPOFF && m == M.State([], Range(nram), Range(nswp))
    ensures M.Agrees(m, nram, nswp) && M.Spaces(m)
  {
    M.AgreesStart(m, nram, nswp);
  }

  /** The books of a run, its accesses left out, are a run of the machine: partition,
      agreement and ownership hold with accesses in between. */
  lemma {:induction false} BooksRun(tr: seq<World>, ops: seq<Op>, k: nat) returns (mtr: seq<M.State>, mops: seq<M.Op>)
    requires IsRun(tr, ops) && k < |tr|
    ensures M.IsRun(mtr, mops, |tr[0].ram| / 256, |tr[0].swp| / 256) && |mops| <= k && mtr[|mops|] == tr[k].m
    ensures forall i :: 0 <= i < |mops| ==> M.Maps(mtr[i], mops[i])
  {
    hide M.Step, M.Agrees, M.Spaces, M.Legal, M.Maps, Sound, Phys, Fetch, Store, SwapAfter, Update;
    if k == 0 {
      mtr, mops := [tr[0].m], [];
    } else {
      mtr, mops := BooksRun(tr, ops, k - 1);
      RunSound(tr, ops, k - 1);
      var w, op := tr[k - 1], ops[k - 1];
      SoundShape(w);
      assert Legal(w, op) && Served(w, op) && tr[k] == Step(w, op);
      if op.Book? {
        mtr, mops := mtr + [tr[k].m], mops + [op.op];
      } else {
        AccessStep(w, op, |tr[0].ram| / 256, |tr[0].swp| / 256);
      }
    }
  }

  /** The byte last stored at RAM address `a`, by whatever process, in the first k operations;
      the initial byte if there was none. */
  function LastStored(tr: seq<World>, ops: seq<Op>, k: nat, a: nat): Byte
    requires k <= |ops| < |tr| && a < |tr[0].ram|
    requires forall j :: 0 <= j < k && ops[j].WriteOp? ==> ops[j].pid < |tr[j].m.mms|
  {
    if k == 0 then tr[0].ram[a]
    else if ops[k - 1].WriteOp? && Phys(tr[k - 1].m.mms[ops[k - 1].pid].pgd, ops[k - 1].addr) == a then ops[k - 1].value
    else LastStored(tr, ops, k - 1, a)
  }

  lemma {:induction false} RamIsLast(tr: seq<World>, ops: seq<Op>, k: nat, a: nat)
    requires IsRun(tr, ops) && k <= |ops| && a < |tr[0].ram|
    ensures forall j :: 0 <= j < k && ops[j].WriteOp? ==> ops[j].pid < |tr[j].m.mms|
    ensures |tr[k].ram| == |tr[0].ram| && tr[k].ram[a] == LastStored(tr, ops, k, a)
  {
    hide M.Step, M.Agrees, M.Spaces, M.Legal, M.Maps, Sound, Phys, Fetch, Store, SwapAfter, Update;
    if k > 0 {
      RamIsLast(tr, ops, k - 1, a);
      RunSound(tr, ops, k - 1);
      RunSound(tr, ops, k);
      var w, op := tr[k - 1], ops[k - 1];
      SoundShape(w);
      assert Legal(w, op) && Served(w, op) && tr[k] == Step(w, op);
      if !op.Book? {
        AccessStep(w, op, |tr[0].ram| / 256, |tr[0].swp| / 256);
      }
    }
  }

  /** Read the last write, over whole runs of any number of processes: a read returns the byte
      that was last stored, by whichever process, at an address that reached the same RAM byte
      when it was stored. */
  lemma ReadLastWrite(tr: seq<World>, ops: seq<Op>, k: nat)
    requires IsRun(tr, ops) && k < |ops| && ops[k].ReadOp?
    ensures Sound(tr[k]) && ops[k].pid < |tr[k].m.mms|
    ensures var a := Phys(tr[k].m.mms[ops[k].pid].pgd, ops[k].addr);
            && a < |tr[0].ram|
            && (forall j :: 0 <= j < k && ops[j].WriteOp? ==> ops[j].pid < |tr[j].m.mms|)
            && Fetch(View(tr[k], ops[k].pid), ops[k].addr).0 == Some(LastStored(tr, ops, k, a))
            && tr[k + 1] == tr[k]
  {
    hide M.Step, M.Agrees, M.Spaces, M.Legal, M.Maps, Sound, Fetch, Store, SwapAfter, Update, PagingFpn, Pgn, Offst;
    RunSound(tr, ops, k);
    SoundShape(tr[k]);
    assert Legal(tr[k], ops[k]) && Served(tr[k], ops[k]) && tr[k + 1] == Step(tr[k], ops[k]);
    AccessStep(tr[k], ops[k], |tr[0].ram| / 256, |tr[0].swp| / 256);
    RamIsLast(tr, ops, k, Phys(tr[k].m.mms[ops[k].pid].pgd, ops[k].addr));
  }
}
