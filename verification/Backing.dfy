/**
 What the swap device holds, over runs that mix allocations, frees and accesses of any number
 of processes: the page last evicted to each slot in use, and its first bytes in each free
 slot.
 */
module Backing {
  import opened Prelude
  import opened Bits
  import opened Pte
  import opened Frames
  import opened Devices
  import opened Memory
  import opened Access
  import opened Paging
  import opened Traffic
  import M = Machine

  // ----------------------------------------------------------------- page copies

  /** A copied page, and any other page of the device. */
  lemma CopyBlock(dst: seq<Byte>, d: nat, src: seq<Byte>, f: nat, x: nat)
    requires Inside(d, |dst|) && Inside(f, |src|) && Inside(x, |dst|)
    ensures CopyPage(dst, d, src, f)[256 * x..256 * x + 256]
            == if x == d then src[256 * f..256 * f + 256] else dst[256 * x..256 * x + 256]
  {
    hide CopyPage;
    var page := CopyPage(dst, d, src, f)[256 * x..256 * x + 256];
    var want := if x == d then src[256 * f..256 * f + 256] else dst[256 * x..256 * x + 256];
    forall i | 0 <= i < 256 ensures page[i] == want[i] {
      CopyPageAt(dst, d, src, f, 256 * x + i);
    }
  }

  /** Distinct slots keep the frames copied to them; no other page changes. */
  lemma {:induction false} ImageBlock(swp: seq<Byte>, ram: seq<Byte>, slots: seq<nat>, frames: seq<nat>, x: nat)
    requires |slots| == |frames| && AllInside(slots, |swp|) && AllInside(frames, |ram|)
    requires NoDup(slots) && Inside(x, |swp|)
    ensures var r := SwapImage(swp, ram, slots, frames);
            && (x !in slots ==> r[256 * x..256 * x + 256] == swp[256 * x..256 * x + 256])
            && (forall i :: 0 <= i < |slots| && slots[i] == x ==>
                  r[256 * x..256 * x + 256] == ram[256 * frames[i]..256 * frames[i] + 256])
    decreases |slots|
  {
    hide CopyPage;
    if slots != [] {
      var n := |slots| - 1;
      ImageBlock(swp, ram, slots[..n], frames[..n], x);
      CopyBlock(SwapImage(swp, ram, slots[..n], frames[..n]), slots[n], ram, frames[n], x);
      forall i | 0 <= i < n && slots[i] == x
        ensures slots[n] != x && slots[..n][i] == x && frames[..n][i] == frames[i]
      {}
      assert x in slots <==> x in slots[..n] || x == slots[n];
    }
  }

  // ----------------------------------------------------------------- slots have one owner

  lemma {:induction false} RecordedSlot(pgd: Pgd, n: nat, p: nat)
    requires p < n <= MAX_PGN && Swapped(pgd[p])
    ensures SlotsIn(pgd, n)[SwpOff(pgd[p])] >= 1
    decreases n
  {
    hide Swapped, SwpOff;
    if p < n - 1 { RecordedSlot(pgd, n - 1, p); }
  }

  /** A slot recorded in a page table exists and is not free. */
  lemma OwnedSlot(m: M.State, nswp: nat, pid: nat, p: nat)
    requires M.SlotsOwned(m, nswp) && pid < |m.mms| && p < Pages(m.mms[pid]) && Swapped(m.mms[pid].pgd[p])
    ensures SwpOff(m.mms[pid].pgd[p]) < nswp && SwpOff(m.mms[pid].pgd[p]) !in m.swp
  {
    hide Swapped, SwpOff, SlotsIn, M.Union, Range;
    var mm := m.mms[pid];
    var x := SwpOff(mm.pgd[p]);
    RecordedSlot(mm.pgd, Pages(mm), p);
    M.UnionWithin(M.SlotParts(m.mms), pid);
    M.RangeCount(nswp, x);
    assert (M.AllSlots(m.mms) + multiset(m.swp))[x] <= 1;
  }

  /** The free slots exist, each once. */
  lemma FreeSlots(m: M.State, nswp: nat)
    requires M.SlotsOwned(m, nswp)
    ensures NoDup(m.swp) && forall i :: 0 <= i < |m.swp| ==> m.swp[i] < nswp
  {
    hide SlotsIn, M.Union, Range, M.AllSlots;
    forall i | 0 <= i < |m.swp| ensures m.swp[i] < nswp && multiset(m.swp)[m.swp[i]] <= 1 {
      M.RangeCount(nswp, m.swp[i]);
      assert m.swp[i] in multiset(m.swp);
      assert (M.AllSlots(m.mms) + multiset(m.swp))[m.swp[i]] <= 1;
    }
    forall i, j | 0 <= i < j < |m.swp| ensures m.swp[i] != m.swp[j] {
      if m.swp[i] == m.swp[j] { M.MultisetCount(m.swp, i, j); }
    }
  }

  // ----------------------------------------------------------------- one growing step

  /** The swap device after the area of a process grew: the i-th slot taken holds the frame
      named by bits 8 and 9 of the frame number stored for the i-th oldest page. */
  lemma GrowBytes(w: World, o: M.Op, x: nat)
    requires Sound(w) && M.Legal(w.m, o) && M.Grows(w.m, o) && NoDup(w.m.swp) && Inside(x, |w.swp|)
    requires Serves(w.m.mms[o.pid], w.m.ram, w.m.swp, o.size)
    ensures var mm, k := w.m.mms[o.pid], Shortfall(PagesFor(o.size), w.m.ram);
            && k <= |mm.fifo| && k <= |w.m.swp| && PagesOk(mm.fifo)
            && (x !in w.m.swp[..k] ==> SwapAfter(w, o)[256 * x..256 * x + 256] == w.swp[256 * x..256 * x + 256])
            && (forall i :: 0 <= i < k && w.m.swp[i] == x ==>
                  var f := FpnField(mm.pgd[mm.fifo[|mm.fifo| - 1 - i]]) / 256 % 4;
                  && Inside(f, |w.ram|)
                  && SwapAfter(w, o)[256 * x..256 * x + 256] == w.ram[256 * f..256 * f + 256])
  {
    hide PagingFpn, FpnField, Present, SwapImage, PagesFor, SpaceOk, VictimFrames;
    var mm, k := w.m.mms[o.pid], Shortfall(PagesFor(o.size), w.m.ram);
    SpaceBacked(View(w, o.pid));
    VictimsRead(mm.pgd, mm.fifo, k, |w.ram|);
    var frames := VictimFrames(mm.pgd, Victims(mm.fifo, k));
    ImageBlock(w.swp, w.ram, w.m.swp[..k], frames, x);
    forall i | 0 <= i < k ensures w.m.swp[..k][i] == w.m.swp[i] && Inside(frames[i], |w.ram|) {}
  }

  lemma VictimsRead(pgd: Pgd, fifo: seq<nat>, k: nat, len: nat)
    requires PagesOk(fifo) && k <= |fifo| && len >= RAM_MIN
    ensures var frames := VictimFrames(pgd, Victims(fifo, k));
            && AllInside(frames, len)
            && forall i :: 0 <= i < k ==> frames[i] == FpnField(pgd[fifo[|fifo| - 1 - i]]) / 256 % 4
  {
    hide PagingFpn, FpnField;
    forall i | 0 <= i < k
      ensures VictimFrames(pgd, Victims(fifo, k))[i] == FpnField(pgd[fifo[|fifo| - 1 - i]]) / 256 % 4
      ensures Inside(VictimFrames(pgd, Victims(fifo, k))[i], len)
    {
      PagingFpnExact(pgd[fifo[|fifo| - 1 - i]]);
      FpnInside(pgd[fifo[|fifo| - 1 - i]], len);
    }
  }

  /** A page off the FIFO list after the area grew: it was off the list before and kept its
      entry, or it was the i-th oldest page and now records the i-th free slot. */
  lemma GrowPage(mm: Mm, ram: seq<nat>, swp: seq<nat>, size: nat, p: nat) returns (i: nat)
    requires MappedOk(mm) && DevicesOk(ram, swp) && mm.vmEnd + Aligned(size) <= BUS && Serves(mm, ram, swp, size)
    requires p < Pages(mm) + PagesFor(size) <= MAX_PGN && p !in Extend(mm, ram, swp, size).fifo
    ensures p < Pages(mm) <= MAX_PGN
    ensures p !in mm.fifo ==> Extend(mm, ram, swp, size).pgd[p] == mm.pgd[p]
    ensures p in mm.fifo ==>
              && i < Shortfall(PagesFor(size), ram) <= |swp| && mm.fifo[|mm.fifo| - 1 - i] == p
              && SwpOff(Extend(mm, ram, swp, size).pgd[p]) == swp[i]
  {
    hide Extend, MapPages, SwapOut, Enlisted, Obtained, Present, Swapped, SwpOff, SetFpn, SetSwap, PagesFor;
    var n, np := PagesFor(size), Pages(mm);
    var k := Shortfall(n, ram);
    ExtendShape(mm, ram, swp, size);
    var rest := mm.fifo[..|mm.fifo| - k];
    FrontOk(mm.fifo, np, |mm.fifo| - k);
    EnlistedOk(rest, np, n);
    VictimsDistinct(mm.fifo, k);
    SwapOutExact(mm.pgd, mm.fifo, swp, k, np);
    MapPagesAt(SwapOut(mm.pgd, Victims(mm.fifo, k), swp[..k]), np, Reverse(Obtained(n, mm.pgd, mm.fifo, ram)), p);
    i := 0;
    if p in mm.fifo {
      assert p in Victims(mm.fifo, k);
      i :| 0 <= i < k && Victims(mm.fifo, k)[i] == p;
      SetSwapFacts(mm.pgd[p], swp[i]);
    }
  }

  // ----------------------------------------------------------------- one step of a run

  /** Two states of a device of slots agree on slot x. */
  predicate SameSlot(before: seq<Byte>, after: seq<Byte>, x: nat) {
    Inside(x, |before|) && Inside(x, |after|) && after[256 * x..256 * x + 256] == before[256 * x..256 * x + 256]
  }

  /** Slot x of the swap device holds RAM frame f. */
  predicate HoldsFrame(swp: seq<Byte>, x: nat, ram: seq<Byte>, f: nat) {
    Inside(x, |swp|) && Inside(f, |ram|) && swp[256 * x..256 * x + 256] == ram[256 * f..256 * f + 256]
  }

  /** What the runs provide before and after each step. */
  ghost predicate Steady(w: World, nram: nat, nswp: nat) {
    Sound(w) && M.Agrees(w.m, nram, nswp) && M.Spaces(w.m) && 256 * nswp <= |w.swp|
  }

  lemma SteadyRun(tr: seq<World>, ops: seq<Op>, k: nat)
    requires IsRun(tr, ops) && k < |tr|
    ensures Steady(tr[k], |tr[0].ram| / 256, |tr[0].swp| / 256) && |tr[k].swp| == |tr[0].swp|
  {
    hide Sound, M.Agrees, M.Spaces, Step, Legal, Served;
    RunSound(tr, ops, k);
  }

  /** The step evicts nothing of anybody and touches no slot. */
  predicate Calm(w: World, op: Op)
    requires M.Shape(w.m) && Legal(w, op)
  {
    op.Book? ==> !M.Grows(w.m, op.op)
  }

  /** Page p of process `pid` exists and is off its FIFO list. */
  predicate Evicted(w: World, pid: nat, p: nat) {
    pid < |w.m.mms| && p < Pages(w.m.mms[pid]) <= MAX_PGN && p !in w.m.mms[pid].fifo
  }

  lemma CalmStep(w: World, op: Op, pid: nat, nram: nat, nswp: nat)
    requires Steady(w, nram, nswp) && M.Shape(w.m) && Legal(w, op) && Served(w, op) && Calm(w, op)
    ensures var t := Step(w, op);
            && t.swp == w.swp && t.m.swp == w.m.swp
            && |w.m.mms| <= |t.m.mms|
            && (pid < |w.m.mms| ==>
                  && t.m.mms[pid].pgd == w.m.mms[pid].pgd && t.m.mms[pid].fifo == w.m.mms[pid].fifo
                  && t.m.mms[pid].vmEnd == w.m.mms[pid].vmEnd)
            && (|w.m.mms| <= pid < |t.m.mms| ==> Pages(t.m.mms[pid]) == 0)
  {
    hide M.Agrees, Phys, Fetch, Store, SpaceOk, Extend;
    if !op.Book? {
      AccessStep(w, op, nram, nswp);
    }
  }

  /** The slot of an evicted page exists and is not free. */
  lemma EvictedSlot(w: World, pid: nat, p: nat, nram: nat, nswp: nat)
    requires Steady(w, nram, nswp) && Evicted(w, pid, p)
    ensures var x := SwpOff(w.m.mms[pid].pgd[p]);
            Inside(x, |w.swp|) && x !in w.m.swp
  {
    hide SwpOff, Swapped, Present, M.SlotsOwned, Sound, M.Spaces;
    MappedAt(w.m.mms[pid], p);
    OwnedSlot(w.m, nswp, pid, p);
  }

  /** The facts about a step that grows an area. */
  lemma GrowFacts(w: World, o: M.Op, nram: nat, nswp: nat)
    requires Steady(w, nram, nswp) && M.Shape(w.m) && M.Legal(w.m, o) && M.Maps(w.m, o) && M.Grows(w.m, o)
    ensures var mm, t := w.m.mms[o.pid], M.Step(w.m, o);
            && MappedOk(mm) && DevicesOk(w.m.ram, w.m.swp) && mm.vmEnd + Aligned(o.size) <= BUS
            && Serves(mm, w.m.ram, w.m.swp, o.size) && NoDup(w.m.swp)
            && var g := Extend(mm, w.m.ram, w.m.swp, o.size);
               && t.mms == w.m.mms[o.pid := t.mms[o.pid]] && t.swp == g.swp
               && t.mms[o.pid].pgd == g.pgd && t.mms[o.pid].fifo == g.fifo
               && Pages(t.mms[o.pid]) == Pages(mm) + PagesFor(o.size)
  {
    hide Extend, Serves, MappedOk, M.SlotsOwned, Sound, Aligned, PagesFor, VmOk;
    assert MappedOk(w.m.mms[o.pid]) && VmOk(w.m.mms[o.pid]);
    FreeSlots(w.m, nswp);
    GrownPages(w.m.mms[o.pid], o.id, o.size, Extend(w.m.mms[o.pid], w.m.ram, w.m.swp, o.size));
  }

  /** The growing process itself. */
  lemma GrowEvicts(w: World, o: M.Op, p: nat, nram: nat, nswp: nat)
    requires Steady(w, nram, nswp) && M.Shape(w.m) && M.Legal(w.m, o) && M.Maps(w.m, o) && M.Grows(w.m, o)
    requires Evicted(Step(w, Book(o)), o.pid, p)
    ensures p < Pages(w.m.mms[o.pid]) <= MAX_PGN
    ensures var t, x := Step(w, Book(o)), SwpOff(Step(w, Book(o)).m.mms[o.pid].pgd[p]);
            if p in w.m.mms[o.pid].fifo then HoldsFrame(t.swp, x, w.ram, FpnField(w.m.mms[o.pid].pgd[p]) / 256 % 4)
            else SwpOff(w.m.mms[o.pid].pgd[p]) == x && SameSlot(w.swp, t.swp, x)
  {
    hide Extend, Serves, MappedOk, M.Step, M.Agrees, M.Spaces, SwpOff, FpnField, SwapAfter, Aligned, PagesFor, SpaceOk;
    GrowFacts(w, o, nram, nswp);
    var mm := w.m.mms[o.pid];
    var i := GrowPage(mm, w.m.ram, w.m.swp, o.size, p);
    if p in mm.fifo {
      var x := w.m.swp[i];
      assert Inside(x, |w.swp|);
      GrowBytes(w, o, x);
    } else {
      EvictedSlot(w, o.pid, p, nram, nswp);
      GrowBytes(w, o, SwpOff(mm.pgd[p]));
    }
  }

  /** The other processes. */
  lemma GrowOthers(w: World, o: M.Op, pid: nat, p: nat, nram: nat, nswp: nat)
    requires Steady(w, nram, nswp) && M.Shape(w.m) && M.Legal(w.m, o) && M.Maps(w.m, o) && M.Grows(w.m, o)
    requires o.pid != pid && Evicted(Step(w, Book(o)), pid, p)
    ensures Evicted(w, pid, p) && Step(w, Book(o)).m.mms[pid] == w.m.mms[pid]
    ensures SameSlot(w.swp, Step(w, Book(o)).swp, SwpOff(w.m.mms[pid].pgd[p]))
  {
    hide Extend, Serves, MappedOk, M.Step, M.Agrees, M.Spaces, SwpOff, FpnField, SwapAfter, Aligned, PagesFor, SpaceOk;
    GrowFacts(w, o, nram, nswp);
    EvictedSlot(w, pid, p, nram, nswp);
    GrowBytes(w, o, SwpOff(w.m.mms[pid].pgd[p]));
  }

  /** A page that is off its FIFO list after a step: it was off the list before, with the same
      entry and the same bytes in its slot; or the step evicted it, and its slot holds the
      frame that bits 8 and 9 of its stored frame number named. */
  lemma EvictedStep(w: World, op: Op, pid: nat, p: nat, nram: nat, nswp: nat)
    requires Steady(w, nram, nswp) && M.Shape(w.m) && Legal(w, op) && Served(w, op)
    requires Steady(Step(w, op), nram, nswp) && Evicted(Step(w, op), pid, p)
    ensures pid < |w.m.mms| && p < Pages(w.m.mms[pid]) <= MAX_PGN
    ensures var t, x := Step(w, op), SwpOff(Step(w, op).m.mms[pid].pgd[p]);
            if p in w.m.mms[pid].fifo then HoldsFrame(t.swp, x, w.ram, FpnField(w.m.mms[pid].pgd[p]) / 256 % 4)
            else SwpOff(w.m.mms[pid].pgd[p]) == x && SameSlot(w.swp, t.swp, x)
  {
    hide Sound, M.Agrees, M.Spaces, Step, SwpOff, FpnField;
    if Calm(w, op) {
      CalmStep(w, op, pid, nram, nswp);
      EvictedSlot(w, pid, p, nram, nswp);
    } else if op.op.pid == pid {
      GrowEvicts(w, op.op, p, nram, nswp);
    } else {
      GrowOthers(w, op.op, pid, p, nram, nswp);
    }
  }

  /** A slot that is free after a step was free before, and kept its bytes. */
  lemma FreeStep(w: World, op: Op, x: nat, nram: nat, nswp: nat)
    requires Steady(w, nram, nswp) && M.Shape(w.m) && Legal(w, op) && Served(w, op) && x in Step(w, op).m.swp
    ensures x in w.m.swp && SameSlot(w.swp, Step(w, op).swp, x)
  {
    hide Sound, M.Agrees, M.Spaces, Step;
    if Calm(w, op) {
      CalmStep(w, op, 0, nram, nswp);
      FreeInside(w, x);
    } else {
      GrowKeepsFree(w, op.op, x, nram, nswp);
    }
  }

  lemma FreeInside(w: World, x: nat)
    requires Sound(w) && x in w.m.swp
    ensures Inside(x, |w.swp|)
  {
    hide SpaceOk;
  }

  lemma GrowKeepsFree(w: World, o: M.Op, x: nat, nram: nat, nswp: nat)
    requires Steady(w, nram, nswp) && M.Shape(w.m) && M.Legal(w.m, o) && M.Maps(w.m, o) && M.Grows(w.m, o)
    requires x in Step(w, Book(o)).m.swp
    ensures x in w.m.swp && SameSlot(w.swp, Step(w, Book(o)).swp, x)
  {
    hide Extend, Serves, MappedOk, M.Step, M.Agrees, M.Spaces, SwpOff, FpnField, SwapAfter, Aligned, PagesFor, SpaceOk;
    GrowFacts(w, o, nram, nswp);
    SlotsTaken(w.m.mms[o.pid], w.m.ram, w.m.swp, o.size);
    var k := Shortfall(PagesFor(o.size), w.m.ram);
    var i :| 0 <= i < |w.m.swp[k..]| && w.m.swp[k..][i] == x;
    assert w.m.swp[k + i] == x && x !in w.m.swp[..k];
    FreeInside(w, x);
    GrowBytes(w, o, x);
  }

  lemma SlotsTaken(mm: Mm, ram: seq<nat>, swp: seq<nat>, size: nat)
    requires MappedOk(mm) && DevicesOk(ram, swp) && mm.vmEnd + Aligned(size) <= BUS && Serves(mm, ram, swp, size)
    ensures var k := Shortfall(PagesFor(size), ram);
            k <= |swp| && Extend(mm, ram, swp, size).swp == swp[k..]
  {
    hide Extend, MapPages, SwapOut, Enlisted, Obtained, Present, Swapped, PagesFor;
    ExtendShape(mm, ram, swp, size);
  }

  // ----------------------------------------------------------------- whole runs

  /** Evicted pages keep their bytes, over whole runs: every page below the end of an area
      that is off its FIFO list was evicted by one operation of the run and has been off the
      list since; its entry records a slot of the swap device, and that slot holds the bytes
      which, just before that operation, were in the RAM frame named by bits 8 and 9 of the
      frame number stored for the page. */
  lemma {:induction false} EvictedBytes(tr: seq<World>, ops: seq<Op>, k: nat, pid: nat, p: nat) returns (j: nat)
    requires IsRun(tr, ops) && k < |tr| && Evicted(tr[k], pid, p)
    ensures j < k && pid < |tr[j].m.mms| && p < Pages(tr[j].m.mms[pid]) <= MAX_PGN && p in tr[j].m.mms[pid].fifo
    ensures forall i :: j < i <= k ==> Evicted(tr[i], pid, p)
    ensures var x, f := SwpOff(tr[k].m.mms[pid].pgd[p]), FpnField(tr[j].m.mms[pid].pgd[p]) / 256 % 4;
            && Inside(x, |tr[k].swp|) && Inside(f, |tr[j].ram|)
            && tr[k].swp[256 * x..256 * x + 256] == tr[j].ram[256 * f..256 * f + 256]
  {
    hide Sound, M.Agrees, M.Spaces, Step, Legal, Served, SwpOff, FpnField;
    var nram, nswp := |tr[0].ram| / 256, |tr[0].swp| / 256;
    if k == 0 {
      assert false;
    } else {
      SteadyRun(tr, ops, k - 1);
      SteadyRun(tr, ops, k);
      var w, op := tr[k - 1], ops[k - 1];
      SoundShape(w);
      assert Legal(w, op) && Served(w, op) && tr[k] == Step(w, op);
      EvictedStep(w, op, pid, p, nram, nswp);
      if p in w.m.mms[pid].fifo {
        j := k - 1;
      } else {
        j := EvictedBytes(tr, ops, k - 1, pid, p);
      }
    }
  }

  /** A slot that is still free holds the bytes it had at the start. */
  lemma {:induction false} FreeBytes(tr: seq<World>, ops: seq<Op>, k: nat, x: nat)
    requires IsRun(tr, ops) && k < |tr| && x in tr[k].m.swp
    ensures Inside(x, |tr[0].swp|) && |tr[k].swp| == |tr[0].swp|
    ensures tr[k].swp[256 * x..256 * x + 256] == tr[0].swp[256 * x..256 * x + 256]
  {
    hide Sound, M.Agrees, M.Spaces, Step, Legal, Served;
    SteadyRun(tr, ops, k);
    if k == 0 {
      FreeInside(tr[0], x);
    } else {
      SteadyRun(tr, ops, k - 1);
      var w, op := tr[k - 1], ops[k - 1];
      SoundShape(w);
      assert Legal(w, op) && Served(w, op) && tr[k] == Step(w, op);
      FreeStep(w, op, x, |tr[0].ram| / 256, |tr[0].swp| / 256);
      FreeBytes(tr, ops, k - 1, x);
    }
  }
}
