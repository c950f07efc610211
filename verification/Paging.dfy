/** mm.c and mm-vm.c in place: one process with its page table, its FIFO list and its area,
    on a shared RAM and swap device.  Each method is proved against the functions of
    Frames, Regions and Memory. */
module Paging {
  import opened Prelude
  import opened Bits
  import opened Pte
  import opened Regions
  import opened Frames
  import opened Memory
  import opened Devices
  import opened Lists
  import opened Access

  /** struct mm_struct with its one vm_area_struct. */
  class MmStruct {
    const pgd: array<Word>
    const symrgtbl: array<Region>
    const fifoPgn: PageList
    const freeRg: RegionList
    var sbrk: nat
    var vmEnd: nat
    ghost var live: set<nat>

    ghost predicate Shape()
      reads freeRg, freeRg.nodes, fifoPgn, fifoPgn.nodes
    {
      pgd.Length == MAX_PGN && symrgtbl.Length == SYMTBL_SZ && freeRg.Valid() && fifoPgn.Valid()
    }

    ghost function View(): Mm
      requires pgd.Length == MAX_PGN
      reads this, pgd, symrgtbl, freeRg, fifoPgn
    {
      Mm(pgd[..], fifoPgn.pages, freeRg.regions, symrgtbl[..], live, sbrk, vmEnd)
    }

    // init_mm.  The list heads that init_mm leaves unset are taken to be NULL, and the
    // symbol table to be zero.
    constructor ()
      ensures Shape() && fresh(pgd) && fresh(symrgtbl) && View() == InitMm()
      ensures fresh(freeRg) && fresh(freeRg.nodes) && fresh(fifoPgn) && fresh(fifoPgn.nodes)
    {
      pgd := new Word[MAX_PGN](_ => 0);
      symrgtbl := new Region[SYMTBL_SZ](_ => Region(0, 0));
      fifoPgn := new PageList();
      freeRg := new RegionList(0, 0);
      sbrk, vmEnd := 0, 0;
      live := {};
      new;
      assert pgd[..] == seq(MAX_PGN, _ => 0);
      assert symrgtbl[..] == seq(SYMTBL_SZ, _ => Region(0, 0));
    }
  }

  /** Every frame lies inside a device of `len` bytes. */
  predicate AllInside(frames: seq<nat>, len: nat) {
    forall i :: 0 <= i < |frames| ==> Inside(frames[i], len)
  }

  /** The storage of the swap device after the frames were copied to the slots, in order. */
  function SwapImage(swp: seq<Byte>, ram: seq<Byte>, slots: seq<nat>, frames: seq<nat>): (r: seq<Byte>)
    requires |slots| == |frames| && AllInside(slots, |swp|) && AllInside(frames, |ram|)
    ensures |r| == |swp|
    decreases |slots|
  {
    if slots == [] then swp
    else
      var n := |slots| - 1;
      CopyPage(SwapImage(swp, ram, slots[..n], frames[..n]), slots[n], ram, frames[n])
  }

  /** How many pages alloc_pages_range(req) evicts, the last one before it fails included. */
  function Evictions(req: nat, fifo: seq<nat>, ram: seq<nat>, swp: seq<nat>): (m: nat)
    ensures m <= |fifo| && m <= |swp|
  {
    Min(Shortfall(req, ram), Min(|fifo|, |swp|))
  }

  /** Pages on the FIFO list exist and are present, and the frames they are believed to
      occupy exist. */
  predicate Backed(pgd: Pgd, fifo: seq<nat>, len: nat) {
    && PagesOk(fifo)
    && forall i :: 0 <= i < |fifo| ==> Present(pgd[fifo[i]]) && Inside(PagingFpn(pgd[fifo[i]]), len)
  }

  /** An entry that was ever written is present. */
  predicate Written(pgd: Pgd) {
    forall p :: 0 <= p < MAX_PGN ==> pgd[p] == 0 || Present(pgd[p])
  }

  /** The victims' pages, oldest first, in the first free slots. */
  function Saved(req: nat, pgd: Pgd, fifo: seq<nat>, free: seq<nat>, slots: seq<nat>,
                 swp: seq<Byte>, ram: seq<Byte>): (r: seq<Byte>)
    requires Backed(pgd, fifo, |ram|) && AllInside(slots, |swp|)
    ensures |r| == |swp|
  {
    var m := Evictions(req, fifo, free, slots);
    SwapImage(swp, ram, slots[..m], VictimFrames(pgd, Victims(fifo, m)))
  }

  /** One eviction more adds one page copy. */
  lemma SavedStep(n: nat, pgd: Pgd, fifo: seq<nat>, free: seq<nat>, slots: seq<nat>, swp: seq<Byte>, ram: seq<Byte>)
    requires Backed(pgd, fifo, |ram|) && AllInside(slots, |swp|) && Affords(n + 1, fifo, free, slots)
    ensures n < |free| ==> Saved(n + 1, pgd, fifo, free, slots, swp, ram) == Saved(n, pgd, fifo, free, slots, swp, ram)
    ensures n >= |free| ==>
              Saved(n + 1, pgd, fifo, free, slots, swp, ram)
              == CopyPage(Saved(n, pgd, fifo, free, slots, swp, ram), slots[n - |free|],
                          ram, PagingFpn(pgd[fifo[|fifo| - 1 - (n - |free|)]]))
  {
    hide PagingFpn, CopyPage, FifoOk, SlotsOk;
    if n >= |free| {
      var m := n - |free|;
      var f, f' := VictimFrames(pgd, Victims(fifo, m)), VictimFrames(pgd, Victims(fifo, m + 1));
      assert f'[..m] == f;
      assert slots[..m + 1][..m] == slots[..m];
    }
  }

  /** Before the loop. */
  lemma AllocNone(pgd: Pgd, fifo: seq<nat>, free: seq<nat>, slots: seq<nat>, swp: seq<Byte>, ram: seq<Byte>)
    requires FifoOk(fifo, MAX_PGN) && SlotsOk(slots) && Backed(pgd, fifo, |ram|) && AllInside(slots, |swp|)
    ensures Affords(0, fifo, free, slots)
    ensures AllocPages(0, pgd, fifo, free, slots) == Grab(0, [], pgd, fifo, free, slots)
    ensures Saved(0, pgd, fifo, free, slots, swp, ram) == swp
  {
    PartialShape(0, pgd, fifo, free, slots);
    PartialStart(pgd, fifo, free, slots);
  }

  /** A turn that fails has copied no page. */
  lemma SavedLast(req: nat, n: nat, pgd: Pgd, fifo: seq<nat>, free: seq<nat>, slots: seq<nat>,
                  swp: seq<Byte>, ram: seq<Byte>)
    requires Backed(pgd, fifo, |ram|) && AllInside(slots, |swp|) && n < req
    requires Affords(n, fifo, free, slots) && !Affords(n + 1, fifo, free, slots)
    ensures Saved(req, pgd, fifo, free, slots, swp, ram) == Saved(n, pgd, fifo, free, slots, swp, ram)
  {}

  /** Where the loop stands before it evicts for frame n + 1. */
  lemma BeforeEviction(n: nat, pgd: Pgd, fifo: seq<nat>, ram: seq<nat>, swp: seq<nat>)
    requires Affords(n, fifo, ram, swp)
    ensures var g := AllocPages(n, pgd, fifo, ram, swp);
            && g.code == 0 && (n < |ram| <==> g.ram != [])
            && (n >= |ram| ==>
                  && |g.fifo| == |fifo| - (n - |ram|) && |g.swp| == |swp| - (n - |ram|)
                  && g.fifo == fifo[..|g.fifo|] && g.swp == swp[n - |ram|..]
                  && (g.fifo != [] && g.swp != [] ==>
                        && g.fifo[|g.fifo| - 1] == fifo[|fifo| - 1 - (n - |ram|)] < MAX_PGN
                        && g.pgd[g.fifo[|g.fifo| - 1]] == pgd[g.fifo[|g.fifo| - 1]]))
  {
    hide SetSwap, PagingFpn, SwapOut, Obtained;
    PartialShape(n, pgd, fifo, ram, swp);
    if n >= |ram| && n - |ram| < |fifo| && n - |ram| < |swp| {
      PartialEvict(n, pgd, fifo, ram, swp, MAX_PGN);
    }
  }

  // ----------------------------------------------------------------- frames stay in the RAM

  lemma BackedSwapOut(pgd: Pgd, fifo: seq<nat>, slots: seq<nat>, m: nat, c: nat, len: nat)
    requires FifoOk(fifo, MAX_PGN) && SlotsOk(slots) && Backed(pgd, fifo, len)
    requires m <= |slots| && c + m <= |fifo|
    ensures Backed(SwapOut(pgd, Victims(fifo, m), slots[..m]), fifo[..c], len)
  {
    hide PagingFpn, SetSwap, SwapOut, Present;
    VictimsDistinct(fifo, m);
    SwapOutExact(pgd, fifo, slots, m, MAX_PGN);
    forall i | 0 <= i < c ensures SwapOut(pgd, Victims(fifo, m), slots[..m])[fifo[i]] == pgd[fifo[i]] {
      assert fifo[..|fifo| - m][i] == fifo[i];
    }
  }

  lemma BackedMapped(pgd: Pgd, rest: seq<nat>, first: nat, obtained: seq<nat>, len: nat)
    requires Backed(pgd, rest, len) && AllInside(obtained, len) && first + |obtained| <= MAX_PGN
    requires forall i :: 0 <= i < |rest| ==> rest[i] < first
    requires forall i :: 0 <= i < |obtained| ==> obtained[i] < MAX_FPN
    ensures Backed(MapPages(pgd, first, Reverse(obtained)), Enlisted(rest, first, |obtained|), len)
  {
    hide PagingFpn, SetFpn, MapPages, FpnField, Present;
    var pgd', e := MapPages(pgd, first, Reverse(obtained)), Enlisted(rest, first, |obtained|);
    forall i | 0 <= i < |e| ensures e[i] < MAX_PGN && Present(pgd'[e[i]]) && Inside(PagingFpn(pgd'[e[i]]), len) {
      EntryAt(pgd, rest, first, obtained, i, Reverse(obtained));
      if i < |obtained| {
        SetFpnFacts(pgd[e[i]], obtained[i]);
        PagingFpnExact(SetFpn(pgd[e[i]], obtained[i]));
      }
    }
  }

  lemma ObtainedInside(n: nat, pgd: Pgd, fifo: seq<nat>, free: seq<nat>, len: nat)
    requires Backed(pgd, fifo, len) && AllInside(free, len) && Shortfall(n, free) <= |fifo|
    ensures AllInside(Obtained(n, pgd, fifo, free), len)
  {
    hide PagingFpn;
  }

  /** vm_map_ram keeps pages backed, whether it succeeds or fails. */
  lemma BackedAfter(pgd: Pgd, fifo: seq<nat>, free: seq<nat>, slots: seq<nat>, first: nat, n: nat, len: nat)
    requires FifoOk(fifo, first) && DevicesOk(free, slots) && first + n <= MAX_PGN
    requires Backed(pgd, fifo, len) && AllInside(free, len)
    ensures var g := VmMapRam(Grab(0, [], pgd, fifo, free, slots), first, n);
            Backed(g.pgd, g.fifo, len) && AllInside(g.ram, len)
  {
    hide PagingFpn, SetFpn, SetSwap, SwapOut, MapPages, Enlisted, Obtained, Backed;
    var k := Shortfall(n, free);
    if k <= |fifo| && k <= |slots| {
      BackedOk(pgd, fifo, len);
      BackedSwapOut(pgd, fifo, slots, k, |fifo| - k, len);
      ObtainedInside(n, pgd, fifo, free, len);
      ObtainedOk(n, pgd, fifo, free);
      BackedMapped(SwapOut(pgd, Victims(fifo, k), slots[..k]), fifo[..|fifo| - k], first,
                   Obtained(n, pgd, fifo, free), len);
    } else {
      var m := Min(|fifo|, |slots|);
      var c := if |fifo| - m == 0 then 0 else |fifo| - m - 1;
      BackedSwapOut(pgd, fifo, slots, m, c, len);
      assert VmMapRam(Grab(0, [], pgd, fifo, free, slots), first, n).fifo == fifo[..c];
    }
  }

  /** vm_map_ram writes no entry that is not present. */
  lemma WrittenAfter(pgd: Pgd, fifo: seq<nat>, free: seq<nat>, slots: seq<nat>, first: nat, n: nat)
    requires FifoOk(fifo, first) && DevicesOk(free, slots) && first + n <= MAX_PGN && Written(pgd)
    ensures Written(VmMapRam(Grab(0, [], pgd, fifo, free, slots), first, n).pgd)
  {
    hide PagingFpn, SetFpn, SetSwap, SwapOut, MapPages, Enlisted, Obtained, Written;
    var k := Shortfall(n, free);
    if k <= |fifo| && k <= |slots| {
      ObtainedOk(n, pgd, fifo, free);
      WrittenSwapOut(pgd, fifo, slots, k, first);
      WrittenMapped(SwapOut(pgd, Victims(fifo, k), slots[..k]), first, Reverse(Obtained(n, pgd, fifo, free)));
    } else {
      WrittenSwapOut(pgd, fifo, slots, Min(|fifo|, |slots|), first);
    }
  }

  lemma WrittenSwapOut(pgd: Pgd, fifo: seq<nat>, slots: seq<nat>, m: nat, pages: nat)
    requires FifoOk(fifo, pages) && SlotsOk(slots) && m <= |fifo| && m <= |slots| && Written(pgd)
    ensures Written(SwapOut(pgd, Victims(fifo, m), slots[..m]))
  {
    hide SwapOut, Present, Swapped;
    var r := SwapOut(pgd, Victims(fifo, m), slots[..m]);
    forall p | 0 <= p < MAX_PGN ensures r[p] == 0 || Present(r[p]) {
      EvictPoint(pgd, fifo, slots, m, pages, p);
    }
  }

  lemma WrittenMapped(pgd: Pgd, first: nat, frames: seq<nat>)
    requires first + |frames| <= MAX_PGN && (forall i :: 0 <= i < |frames| ==> frames[i] < MAX_FPN) && Written(pgd)
    ensures Written(MapPages(pgd, first, frames))
  {
    hide MapPages, SetFpn, Present, Swapped, FpnField;
    var r := MapPages(pgd, first, frames);
    forall p | 0 <= p < MAX_PGN ensures r[p] == 0 || Present(r[p]) {
      MapPagesAt(pgd, first, frames, p);
      if first <= p < first + |frames| { SetFpnFacts(pgd[p], frames[p - first]); }
    }
  }

  lemma BackedOk(pgd: Pgd, fifo: seq<nat>, len: nat)
    requires Backed(pgd, fifo, len)
    ensures PagesOk(fifo)
  {}

  /** The free slots after vm_map_ram are some of the free slots before. */
  lemma SlotsLeft(pgd: Pgd, fifo: seq<nat>, free: seq<nat>, slots: seq<nat>, first: nat, n: nat, len: nat)
    requires PagesOk(fifo) && DevicesOk(free, slots) && first + n <= MAX_PGN && AllInside(slots, len)
    ensures AllInside(VmMapRam(Grab(0, [], pgd, fifo, free, slots), first, n).swp, len)
  {
    hide PagingFpn, SetFpn, SetSwap, SwapOut, MapPages, Enlisted, Obtained;
  }

  /** Growing the area keeps what the RAM and the swap device must hold. */
  lemma ExtendBacked(m: Mm, free: seq<nat>, slots: seq<nat>, size: nat, len: nat, swplen: nat)
    requires VmOk(m) && DevicesOk(free, slots) && m.vmEnd + Aligned(size) <= BUS
    requires Backed(m.pgd, m.fifo, len) && AllInside(free, len) && AllInside(slots, swplen) && Written(m.pgd)
    ensures var g := Extend(m, free, slots, size);
            Written(g.pgd) && Backed(g.pgd, g.fifo, len) && AllInside(g.ram, len) && AllInside(g.swp, swplen)
  {
    hide VmMapRam, Backed, AllInside, Aligned, PagesFor, Bounded, Written;
    PageMath(m.vmEnd, size);
    WrittenAfter(m.pgd, m.fifo, free, slots, Pages(m), PagesFor(size));
    BackedOk(m.pgd, m.fifo, len);
    BackedAfter(m.pgd, m.fifo, free, slots, Pages(m), PagesFor(size), len);
    SlotsLeft(m.pgd, m.fifo, free, slots, Pages(m), PagesFor(size), swplen);
  }

  lemma AlignedTwice(size: nat)
    ensures Aligned(Aligned(size)) == Aligned(size) && PagesFor(Aligned(size)) == PagesFor(size)
  {}

  lemma PageMathView(vmEnd: nat, size: nat)
    requires vmEnd + Aligned(size) <= BUS
    ensures Aligned(size) / 256 == PagesFor(size) && vmEnd / 256 + PagesFor(size) <= MAX_PGN
  {}

  // ----------------------------------------------------------------- one page more

  lemma MapStep(pgd: Pgd, first: nat, frames: seq<nat>, i: nat)
    requires first + |frames| <= MAX_PGN && i < |frames| && forall j :: 0 <= j < |frames| ==> frames[j] < MAX_FPN
    ensures var w := MapPages(pgd, first, frames[..i]);
            MapPages(pgd, first, frames[..i + 1]) == w[first + i := SetFpn(w[first + i], frames[i])]
  {
    hide SetFpn, MapPages;
    var w := MapPages(pgd, first, frames[..i]);
    var v, w' := MapPages(pgd, first, frames[..i + 1]), w[first + i := SetFpn(w[first + i], frames[i])];
    forall p | 0 <= p < MAX_PGN ensures v[p] == w'[p] {
      MapPagesAt(pgd, first, frames[..i], p);
      MapPagesAt(pgd, first, frames[..i + 1], p);
    }
  }

  lemma MapNone(pgd: Pgd, first: nat)
    requires first <= MAX_PGN
    ensures MapPages(pgd, first, []) == pgd
  {
    hide SetFpn;
  }

  lemma EnlistStep(fifo: seq<nat>, first: nat, i: nat)
    ensures Enlisted(fifo, first, i + 1) == [first + i] + Enlisted(fifo, first, i)
    ensures Enlisted(fifo, first, 0) == fifo
  {}

  /** pg_getpage below page `pages` keeps the FIFO list free of duplicates, and takes the first
      free slot exactly if it swaps a page in. */
  lemma PageFifo(s: Space, pgn: nat, pages: nat)
    requires SpaceOk(s) && pgn < pages && FifoOk(s.fifo, pages)
    ensures FifoOk(Access.GetPage(s, pgn).1.fifo, pages)
    ensures Access.GetPage(s, pgn).1.slots
            == if !Present(s.pgd[pgn]) && s.fifo != [] && s.slots != [] then s.slots[1..] else s.slots
  {
    hide Remap, Present, PagingFpn, CopyPage;
    assert !Present(s.pgd[pgn]) ==> forall i :: 0 <= i < |s.fifo| ==> s.fifo[i] != pgn;
  }

  /** What VmOk and DevicesOk mean for the parts. */
  lemma VmParts(m: Mm, ram: seq<nat>, swp: seq<nat>)
    requires VmOk(m) && DevicesOk(ram, swp)
    ensures FifoOk(m.fifo, MAX_PGN) && PagesOk(m.fifo) && SlotsOk(swp) && |m.sym| == SYMTBL_SZ
  {}

  /** The branch of pg_getpage for a page that is not present, and that all its parts exist. */
  lemma GetAbsent(s: Space, pgn: nat)
    requires SpaceOk(s) && pgn < MAX_PGN && !Present(s.pgd[pgn])
    ensures s.fifo == [] ==> Access.GetPage(s, pgn) == (-1, s)
    ensures s.fifo != [] && s.slots == [] ==> Access.GetPage(s, pgn) == (-1, s.(fifo := s.fifo[..|s.fifo| - 1]))
    ensures s.fifo != [] && s.slots != [] ==>
              var v, slot := s.fifo[|s.fifo| - 1], s.slots[0];
              && v < MAX_PGN && slot < MAX_SWPOFF && Inside(slot, |s.swp|)
              && var vicfpn := PagingFpn(s.pgd[v]);
                 && vicfpn < MAX_FPN && Inside(vicfpn, |s.ram|) && Inside(PagingSwp(s.pgd[pgn]), |s.swp|)
                 && var swp := CopyPage(s.swp, slot, s.ram, vicfpn);
                    Access.GetPage(s, pgn)
                    == (0, Space(Remap(s.pgd, v, slot, pgn, vicfpn), [pgn] + s.fifo[..|s.fifo| - 1], s.slots[1..],
                                 CopyPage(s.ram, vicfpn, swp, PagingSwp(s.pgd[pgn])), swp))
  {
    hide PagingFpn, PagingSwp, Present, Remap, CopyPage, Inside;
    if s.fifo != [] && s.slots != [] {
      FpnInside(s.pgd[s.fifo[|s.fifo| - 1]], |s.ram|);
      AbsentSlot(s, pgn);
    }
  }

  /** struct pcb_t, as far as memory is concerned. */
  class Pcb {
    const mm: MmStruct
    const mram: Memphy
    const activeMswp: Memphy

    /** The objects are distinct and the devices can hold what the tables name. */
    ghost predicate Ready()
      reads this, mm, mm.pgd, mm.fifoPgn, mm.fifoPgn.nodes, mram, activeMswp
    {
      && mm.pgd.Length == MAX_PGN && mram != activeMswp && mram.storage != activeMswp.storage
      && mm.fifoPgn.Valid() && activeMswp.Valid() && SlotsOk(activeMswp.freeFp) && FifoOk(mm.fifoPgn.pages, MAX_PGN)
      && Backed(mm.pgd[..], mm.fifoPgn.pages, mram.storage.Length)
    }

    /** What every operation keeps. */
    ghost predicate Valid()
      reads this, mm, mm.pgd, mm.symrgtbl, mm.freeRg, mm.freeRg.nodes, mm.fifoPgn, mm.fifoPgn.nodes, mram, activeMswp
    {
      && mm.Shape() && Ready() && VmOk(mm.View())
      && mram.Valid() && DevicesOk(mram.freeFp, activeMswp.freeFp) && Written(mm.pgd[..])
    }

    // What ld_routine sets up for memory: a fresh address space on the shared devices.
    constructor (ram: Memphy, swp: Memphy)
      requires ram != swp && ram.storage != swp.storage && ram.Valid() && swp.Valid()
      requires DevicesOk(ram.freeFp, swp.freeFp)
      ensures Valid() && fresh(mm) && fresh(mm.pgd) && fresh(mm.symrgtbl)
      ensures fresh(mm.freeRg) && fresh(mm.freeRg.nodes) && fresh(mm.fifoPgn) && fresh(mm.fifoPgn.nodes)
      ensures mm.View() == InitMm() && mram == ram && activeMswp == swp
    {
      mm := new MmStruct();
      mram, activeMswp := ram, swp;
      InitOk();
    }

    /** Tables and free lists, with a return code and a frame list. */
    ghost function Held(code: int, frames: seq<nat>): Grab
      requires mm.pgd.Length == MAX_PGN
      reads this, mm, mm.pgd, mm.fifoPgn, mram, activeMswp
    {
      Grab(code, frames, mm.pgd[..], mm.fifoPgn.pages, mram.freeFp, activeMswp.freeFp)
    }

    // The eviction in the loop of alloc_pages_range; None when there is no victim or no slot.
    method Evict() returns (fpn: Option<nat>)
      requires Ready()
      modifies mm.pgd, mm.fifoPgn, mm.fifoPgn.nodes, activeMswp`freeFp, activeMswp.storage
      ensures mm.fifoPgn.Valid() && forall n :: n in mm.fifoPgn.nodes ==> n in old(mm.fifoPgn.nodes)
      ensures fpn.Some? ==> Ready()
      ensures fpn == None <==> old(mm.fifoPgn.pages) == [] || old(activeMswp.freeFp) == []
      ensures fpn == None ==>
                && mm.pgd[..] == old(mm.pgd[..]) && activeMswp.freeFp == old(activeMswp.freeFp)
                && activeMswp.storage[..] == old(activeMswp.storage[..])
                && mm.fifoPgn.pages
                   == if old(mm.fifoPgn.pages) == [] then [] else old(mm.fifoPgn.pages)[..|old(mm.fifoPgn.pages)| - 1]
      ensures fpn.Some? ==>
                var v, slot := old(mm.fifoPgn.pages)[|old(mm.fifoPgn.pages)| - 1], old(activeMswp.freeFp)[0];
                && v < MAX_PGN && slot < MAX_SWPOFF && fpn.value == PagingFpn(old(mm.pgd[..])[v])
                && mm.pgd[..] == old(mm.pgd[..])[v := SetSwap(old(mm.pgd[..])[v], 0, slot)]
                && mm.fifoPgn.pages == old(mm.fifoPgn.pages)[..|old(mm.fifoPgn.pages)| - 1]
                && activeMswp.freeFp == old(activeMswp.freeFp)[1..]
                && Inside(slot, activeMswp.storage.Length) && Inside(fpn.value, mram.storage.Length)
                && activeMswp.storage[..] == CopyPage(old(activeMswp.storage[..]), slot, mram.storage[..], fpn.value)
    {
      hide PageList.Valid, RegionList.Valid, SetSwap, PagingFpn, CopyPage;
      var victim := mm.fifoPgn.FindVictim();
      if victim == None {
        return None;
      }
      var slot := activeMswp.GetFreeFp();
      if slot == None {
        return None;
      }
      var vicfpn := PagingFpn(mm.pgd[victim.value]);
      SwapCpPage(mram, vicfpn, activeMswp, slot.value);
      mm.pgd[victim.value] := SetSwap(mm.pgd[victim.value], 0, slot.value);
      fpn := Some(vicfpn);
    }

    // One turn of the loop of alloc_pages_range, up to the frame number it obtains.
    method ObtainFrame(ghost frames: seq<nat>) returns (fpn: Option<nat>)
      requires Ready()
      modifies mm.pgd, mm.fifoPgn, mm.fifoPgn.nodes, mram`freeFp, activeMswp`freeFp, activeMswp.storage
      ensures mm.fifoPgn.Valid() && forall n :: n in mm.fifoPgn.nodes ==> n in old(mm.fifoPgn.nodes)
      ensures fpn.Some? ==> Ready() && Held(0, [fpn.value] + frames) == Turn(old(Held(0, frames)))
      ensures fpn == None ==> Held(if frames == [] then -1 else -3000, []) == Turn(old(Held(0, frames)))
      ensures fpn.Some? && old(mram.freeFp) == [] ==>
                && old(mm.fifoPgn.pages) != [] && old(activeMswp.freeFp) != []
                && fpn.value == PagingFpn(old(mm.pgd[..])[old(mm.fifoPgn.pages)[|old(mm.fifoPgn.pages)| - 1]])
                && Inside(old(activeMswp.freeFp)[0], activeMswp.storage.Length)
                && Inside(fpn.value, mram.storage.Length)
                && activeMswp.storage[..]
                   == CopyPage(old(activeMswp.storage[..]), old(activeMswp.freeFp)[0], mram.storage[..], fpn.value)
      ensures fpn == None || old(mram.freeFp) != [] ==> activeMswp.storage[..] == old(activeMswp.storage[..])
    {
      hide PageList.Valid, RegionList.Valid, SetSwap, PagingFpn, CopyPage;
      fpn := mram.GetFreeFp();
      if fpn == None {
        fpn := Evict();
      }
    }

    // alloc_pages_range with an empty frame list; on an error the frames already taken are
    // lost.
    method AllocPagesRange(req: nat) returns (code: int, frames: seq<nat>)
      requires Ready()
      modifies mm.pgd, mm.fifoPgn, mm.fifoPgn.nodes, mram`freeFp, activeMswp`freeFp, activeMswp.storage
      ensures mm.fifoPgn.Valid() && forall n :: n in mm.fifoPgn.nodes ==> n in old(mm.fifoPgn.nodes)
      ensures Held(code, frames)
              == AllocPages(req, old(mm.pgd[..]), old(mm.fifoPgn.pages), old(mram.freeFp), old(activeMswp.freeFp))
      ensures activeMswp.storage[..]
              == Saved(req, old(mm.pgd[..]), old(mm.fifoPgn.pages), old(mram.freeFp), old(activeMswp.freeFp),
                       old(activeMswp.storage[..]), mram.storage[..])
    {
      hide PageList.Valid, RegionList.Valid, PagingFpn, AllocPages, Saved, Turn, Affords, Backed, FifoOk;
      ghost var pgd, fifo, free, slots := mm.pgd[..], mm.fifoPgn.pages, mram.freeFp, activeMswp.freeFp;
      ghost var swp, ram := activeMswp.storage[..], mram.storage[..];
      code, frames := 0, [];
      BackedOk(pgd, fifo, |ram|);
      AllocNone(pgd, fifo, free, slots, swp, ram);
      var pgit := 0;
      while pgit < req
        invariant 0 <= pgit <= req && code == 0 && Ready() && PagesOk(fifo) && Affords(pgit, fifo, free, slots)
        invariant forall n :: n in mm.fifoPgn.nodes ==> n in old(mm.fifoPgn.nodes)
        invariant Held(0, frames) == AllocPages(pgit, pgd, fifo, free, slots)
        invariant activeMswp.storage[..] == Saved(pgit, pgd, fifo, free, slots, swp, ram)
      {
        NextTurn(req, pgit, pgd, fifo, free, slots);
        BeforeEviction(pgit, pgd, fifo, free, slots);
        assert forall i :: 0 <= i < |mm.fifoPgn.nodes| ==> mm.fifoPgn.nodes[i] in old(mm.fifoPgn.nodes);
        var fpn := ObtainFrame(frames);
        if fpn == None {
          SavedLast(req, pgit, pgd, fifo, free, slots, swp, ram);
          code := if frames == [] then -1 else -3000;
          frames := [];
          return;
        }
        SavedStep(pgit, pgd, fifo, free, slots, swp, ram);
        frames := [fpn.value] + frames;
        pgit := pgit + 1;
      }
    }

    // vmap_page_range: maps the frames, from the head of the list, at consecutive pages, and
    // enlists the pages; returns what is left of the list.
    method VmapPageRange(addr: Word, pgnum: nat, frames: seq<nat>) returns (left: seq<nat>)
      requires mm.pgd.Length == MAX_PGN && addr <= BUS && addr / 256 + pgnum <= MAX_PGN && mm.fifoPgn.Valid()
      requires |frames| >= pgnum && forall i :: 0 <= i < |frames| ==> frames[i] < MAX_FPN
      modifies mm.pgd, mm.fifoPgn
      ensures mm.fifoPgn.Valid() && forall n :: n in mm.fifoPgn.nodes ==> n in old(mm.fifoPgn.nodes) || fresh(n)
      ensures left == frames[pgnum..]
      ensures mm.pgd[..] == MapPages(old(mm.pgd[..]), addr / 256, frames[..pgnum])
      ensures mm.fifoPgn.pages == Enlisted(old(mm.fifoPgn.pages), addr / 256, pgnum)
    {
      hide PageList.Valid, RegionList.Valid, SetFpn, Enlisted, MapPages, Pgn, Offst;
      ghost var pgd, fifo, first := mm.pgd[..], mm.fifoPgn.pages, addr / 256;
      AddressSplit(addr);
      MapNone(pgd, first);
      EnlistStep(fifo, first, 0);
      var pgit, pgn := 0, Pgn(addr);
      left := frames;
      while pgit < pgnum
        invariant 0 <= pgit <= pgnum && left == frames[pgit..] && pgn == Pgn(addr)
        invariant mm.pgd[..] == MapPages(pgd, first, frames[..pgit]) && mm.fifoPgn.pages == Enlisted(fifo, first, pgit)
        invariant mm.fifoPgn.Valid() && forall n :: n in mm.fifoPgn.nodes ==> n in old(mm.fifoPgn.nodes) || fresh(n)
      {
        MapStep(pgd, first, frames[..pgnum], pgit);
        EnlistStep(fifo, first, pgit);
        assert frames[..pgnum][..pgit] == frames[..pgit] && frames[..pgnum][..pgit + 1] == frames[..pgit + 1];
        mm.pgd[pgn + pgit] := SetFpn(mm.pgd[pgn + pgit], left[0]);
        left := left[1..];
        mm.fifoPgn.EnlistPgn(pgn + pgit);
        pgit := pgit + 1;
      }
    }

    // vm_map_ram
    method VmMapRam(mapstart: Word, incpgnum: nat) returns (code: int)
      requires Ready() && DevicesOk(mram.freeFp, activeMswp.freeFp)
      requires mapstart <= BUS && mapstart / 256 + incpgnum <= MAX_PGN
      modifies mm.pgd, mm.fifoPgn, mm.fifoPgn.nodes, mram`freeFp, activeMswp`freeFp, activeMswp.storage
      ensures mm.fifoPgn.Valid() && forall n :: n in mm.fifoPgn.nodes ==> n in old(mm.fifoPgn.nodes) || fresh(n)
      ensures var g := Memory.VmMapRam(old(Held(0, [])), mapstart / 256, incpgnum);
              && (code == 0 <==> g.code == 0) && (code == 0 || code == -1)
              && mm.pgd[..] == g.pgd && mm.fifoPgn.pages == g.fifo && mram.freeFp == g.ram && activeMswp.freeFp == g.swp
      ensures activeMswp.storage[..]
              == Saved(incpgnum, old(mm.pgd[..]), old(mm.fifoPgn.pages), old(mram.freeFp), old(activeMswp.freeFp),
                       old(activeMswp.storage[..]), mram.storage[..])
    {
      hide PageList.Valid, RegionList.Valid, SetFpn, SetSwap, PagingFpn, Enlisted, MapPages, SwapOut, Saved, CopyPage;
      ghost var pgd, fifo, free, slots := mm.pgd[..], mm.fifoPgn.pages, mram.freeFp, activeMswp.freeFp;
      var frames;
      code, frames := AllocPagesRange(incpgnum);
      if code < 0 {
        return -1;
      }
      ObtainedOk(incpgnum, pgd, fifo, free);
      assert frames[..incpgnum] == frames;
      var left := VmapPageRange(mapstart, incpgnum, frames);
    }

    // inc_vma_limit.  validate_overlap_vm_area never objects: there is one area, and it is
    // the one that grows.
    method IncVmaLimit(incSz: nat) returns (code: int)
      requires Valid() && mm.vmEnd + Aligned(incSz) <= BUS
      modifies mm`vmEnd, mm`sbrk, mm.pgd, mm.fifoPgn, mm.fifoPgn.nodes
      modifies mram`freeFp, activeMswp`freeFp, activeMswp.storage
      ensures mm.fifoPgn.Valid() && forall n :: n in mm.fifoPgn.nodes ==> n in old(mm.fifoPgn.nodes) || fresh(n)
      ensures var g := Memory.VmMapRam(old(Held(0, [])), old(mm.vmEnd) / 256, PagesFor(incSz));
              && (code == 0 <==> g.code == 0) && (code == 0 || code == -1)
              && mm.pgd[..] == g.pgd && mm.fifoPgn.pages == g.fifo && mram.freeFp == g.ram && activeMswp.freeFp == g.swp
      ensures mm.vmEnd == old(mm.vmEnd) + incSz && mm.sbrk == old(mm.sbrk) + incSz
      ensures activeMswp.storage[..]
              == Saved(PagesFor(incSz), old(mm.pgd[..]), old(mm.fifoPgn.pages), old(mram.freeFp),
                       old(activeMswp.freeFp), old(activeMswp.storage[..]), mram.storage[..])
    {
      hide PageList.Valid, RegionList.Valid, VmOk, Memory.VmMapRam, Saved, Aligned, PagesFor;
      var incAmt := Aligned(incSz);
      var incNumPage := incAmt / 256;
      var oldEnd := mm.vmEnd;
      PageMathView(oldEnd, incSz);
      mm.vmEnd := mm.vmEnd + incSz;
      mm.sbrk := mm.sbrk + incSz;
      code := VmMapRam(oldEnd, incNumPage);
    }

    // The second half of __alloc: the area grows, and what is left of its new pages becomes
    // a free region.  The code of inc_vma_limit is not looked at.
    method Grow(size: nat) returns (addr: nat)
      requires Valid() && mm.vmEnd + Aligned(size) <= BUS
      modifies mm`vmEnd, mm`sbrk, mm.pgd, mm.freeRg, mm.fifoPgn, mm.fifoPgn.nodes
      modifies mram`freeFp, activeMswp`freeFp, activeMswp.storage
      ensures mm.Shape() && addr == old(mm.sbrk)
      ensures var g := Extend(old(mm.View()), old(mram.freeFp), old(activeMswp.freeFp), size);
              mm.pgd[..] == g.pgd && mm.fifoPgn.pages == g.fifo && mram.freeFp == g.ram && activeMswp.freeFp == g.swp
      ensures mm.vmEnd == old(mm.vmEnd) + Aligned(size) && mm.sbrk == addr + Aligned(size)
      ensures mm.freeRg.regions == Enlist(old(mm.freeRg.regions), Region(addr + size, mm.vmEnd))
      ensures activeMswp.storage[..]
              == Saved(PagesFor(size), old(mm.pgd[..]), old(mm.fifoPgn.pages), old(mram.freeFp),
                       old(activeMswp.freeFp), old(activeMswp.storage[..]), mram.storage[..])
    {
      hide PageList.Valid, RegionList.Valid, Saved, Memory.VmMapRam, PagesFor, Aligned, PagingFpn, Bounded;
      AlignedTwice(size);
      addr := mm.sbrk;
      var inc := IncVmaLimit(Aligned(size));
      if addr + size < mm.vmEnd {
        var rest := new RgNode(addr + size, mm.vmEnd);
        var enlisted := mm.freeRg.Enlist(rest);
      }
    }

    // __alloc.  It returns 0 in every case.
    method Alloc(rgid: nat, size: nat) returns (code: int, addr: nat)
      requires Valid() && CanAlloc(mm.View(), rgid, size)
      modifies mm, mm.pgd, mm.symrgtbl, mm.freeRg, mm.freeRg.nodes, mm.fifoPgn, mm.fifoPgn.nodes
      modifies mram`freeFp, activeMswp`freeFp, activeMswp.storage
      ensures Valid() && code == 0
      ensures var o := Memory.Alloc(old(mm.View()), old(mram.freeFp), old(activeMswp.freeFp), rgid, size);
              mm.View() == o.mm && mram.freeFp == o.ram && activeMswp.freeFp == o.swp && addr == o.addr
      ensures activeMswp.storage[..]
              == if Take(old(mm.freeRg.regions), size).Some? then old(activeMswp.storage[..])
                 else Saved(PagesFor(size), old(mm.pgd[..]), old(mm.fifoPgn.pages), old(mram.freeFp),
                            old(activeMswp.freeFp), old(activeMswp.storage[..]), mram.storage[..])
    {
      hide PageList.Valid, RegionList.Valid, Saved, Extend, PagesFor, Aligned, Backed, Written, Take, VmOk, FifoOk,
        DevicesOk, SlotsOk;
      ghost var m, free, slots := mm.View(), mram.freeFp, activeMswp.freeFp;
      VmParts(m, free, slots);
      AllocKeeps(m, free, slots, rgid, size);
      VmParts(Memory.Alloc(m, free, slots, rgid, size).mm, Memory.Alloc(m, free, slots, rgid, size).ram,
              Memory.Alloc(m, free, slots, rgid, size).swp);
      code := 0;
      var rgnode := mm.freeRg.GetFreeArea(size);
      if rgnode.Some? {
        addr := rgnode.value.start;
        mm.live := mm.live + {rgid};
        mm.symrgtbl[rgid] := rgnode.value;
      } else {
        ExtendBacked(m, free, slots, size, mram.storage.Length, activeMswp.storage.Length);
        addr := Grow(size);
        mm.live := mm.live + {rgid};
        mm.symrgtbl[rgid] := Region(addr, addr + size);
      }
    }

    // __free of an id in the table, or of one the range check refuses.
    method Free(rgid: int) returns (code: int)
      requires Valid() && rgid != SYMTBL_SZ
      modifies mm.freeRg, mm`live
      ensures Valid()
      ensures 0 <= rgid < SYMTBL_SZ ==> code == 0 && mm.View() == Memory.Free(old(mm.View()), rgid)
      ensures rgid < 0 || rgid > SYMTBL_SZ ==> code == -1 && mm.View() == old(mm.View())
    {
      hide PageList.Valid, RegionList.Valid, PagingFpn, Bounded;
      if rgid < 0 || rgid > SYMTBL_SZ {
        return -1;
      }
      FreeKeeps(mm.View(), rgid);
      var rgnode := new RgNode(mm.symrgtbl[rgid].start, mm.symrgtbl[rgid].end);
      var enlisted := mm.freeRg.Enlist(rgnode);
      mm.live := mm.live - {rgid};
      code := 0;
    }

    // ----------------------------------------------------------------- accesses

    ghost function Bytes(): Space
      requires mm.pgd.Length == MAX_PGN
      reads this, mm, mm.pgd, mm.fifoPgn, mram, mram.storage, activeMswp, activeMswp.storage
    {
      Space(mm.pgd[..], mm.fifoPgn.pages, activeMswp.freeFp, mram.storage[..], activeMswp.storage[..])
    }

    /** What an access needs; Valid on a RAM of four frames or more. */
    ghost predicate Accessible()
      reads this, mm, mm.pgd, mm.fifoPgn, mm.fifoPgn.nodes, mram, mram.storage, activeMswp, activeMswp.storage
    {
      && mm.pgd.Length == MAX_PGN && mm.fifoPgn.Valid() && mram != activeMswp && mram.storage != activeMswp.storage
      && SpaceOk(Bytes())
    }

    lemma ValidAccessible()
      requires Valid() && mram.storage.Length >= RAM_MIN
      ensures Accessible()
    {
      hide PageList.Valid, RegionList.Valid, Present, PagingFpn;
    }

    lemma AccessibleValid()
      requires mm.Shape() && Accessible() && VmOk(mm.View())
      requires mram.Valid() && DevicesOk(mram.freeFp, activeMswp.freeFp)
      ensures Valid()
    {
      hide PageList.Valid, RegionList.Valid, Present, PagingFpn;
      forall i | 0 <= i < |mm.fifoPgn.pages|
        ensures Inside(PagingFpn(mm.pgd[mm.fifoPgn.pages[i]]), mram.storage.Length)
      {
        FpnInside(mm.pgd[mm.fifoPgn.pages[i]], mram.storage.Length);
      }
    }

    // The branch of pg_getpage for a page that is not present.
    method FetchPage(pgn: nat) returns (code: int)
      requires Accessible() && pgn < MAX_PGN && !Present(mm.pgd[pgn])
      modifies mm.pgd, mm.fifoPgn, mm.fifoPgn.nodes, activeMswp`freeFp, activeMswp.storage, mram.storage
      ensures Accessible() && (code, Bytes()) == Access.GetPage(old(Bytes()), pgn)
      ensures code == if old(mm.fifoPgn.pages) == [] || old(activeMswp.freeFp) == [] then -1 else 0
      ensures activeMswp.freeFp == if code == 0 then old(activeMswp.freeFp)[1..] else old(activeMswp.freeFp)
      ensures mm.fifoPgn.pages
              == if old(mm.fifoPgn.pages) == [] then []
                 else (if code == 0 then [pgn] else []) + old(mm.fifoPgn.pages)[..|old(mm.fifoPgn.pages)| - 1]
    {
      hide PageList.Valid, Present, PagingFpn, PagingSwp, SetSwap, SetFpn, CopyPage, Inside, Access.GetPage, SpaceOk;
      SwapInOk(Bytes(), pgn);
      GetAbsent(Bytes(), pgn);
      var tgtfpn := PagingSwp(mm.pgd[pgn]);
      var vicpgn := mm.fifoPgn.FindVictim();
      if vicpgn == None {
        return -1;
      }
      var swpfpn := activeMswp.GetFreeFp();
      if swpfpn == None {
        return -1;
      }
      var vicfpn := PagingFpn(mm.pgd[vicpgn.value]);
      SwapCpPage(mram, vicfpn, activeMswp, swpfpn.value);
      SwapCpPage(activeMswp, tgtfpn, mram, vicfpn);
      mm.pgd[vicpgn.value] := SetSwap(mm.pgd[vicpgn.value], 0, swpfpn.value);
      mm.pgd[pgn] := SetFpn(mm.pgd[pgn], vicfpn);
      mm.fifoPgn.EnlistPgn(pgn);
      code := 0;
    }

    // pg_getpage.  An access below the end of the area keeps what __alloc and __free need.
    method GetPage(pgn: nat) returns (code: int, fpn: nat)
      requires Accessible() && pgn < MAX_PGN
      modifies mm.pgd, mm.fifoPgn, mm.fifoPgn.nodes, activeMswp`freeFp, activeMswp.storage, mram.storage
      ensures Accessible() && (code, Bytes()) == Access.GetPage(old(Bytes()), pgn)
      ensures code == 0 ==> fpn == PagingFpn(mm.pgd[pgn])
      ensures old(Valid()) && pgn < mm.vmEnd / 256 ==> Valid()
    {
      hide PageList.Valid, RegionList.Valid, Present, PagingFpn, Remap, CopyPage, Bounded, Inside, SwapIn, Written;
      ghost var valid := Valid() && pgn < mm.vmEnd / 256;
      ghost var s := Bytes();
      code, fpn := 0, 0;
      if !Present(mm.pgd[pgn]) {
        code := FetchPage(pgn);
        if valid {
          PageFifo(s, pgn, mm.vmEnd / 256);
          AccessibleValid();
        }
        if code != 0 {
          return;
        }
      }
      fpn := PagingFpn(mm.pgd[pgn]);
    }

    // pg_getval
    method GetVal(addr: Word) returns (code: int, data: Byte)
      requires Accessible()
      modifies mm.pgd, mm.fifoPgn, mm.fifoPgn.nodes, activeMswp`freeFp, activeMswp.storage, mram.storage
      ensures Accessible()
      ensures (if code == 0 then Some(data) else None, Bytes()) == Fetch(old(Bytes()), addr)
      ensures old(Valid()) && Pgn(addr) < old(mm.vmEnd) / 256 ==> Valid()
    {
      hide PageList.Valid, RegionList.Valid, Present, PagingFpn, Pgn, Offst, Access.GetPage;
      AddressSplit(addr);
      var pgn, off := Pgn(addr), Offst(addr);
      var fpn;
      code, fpn := GetPage(pgn);
      data := 0;
      if code != 0 {
        return -1, 0;
      }
      FpnInside(mm.pgd[pgn], mram.storage.Length);
      data := mram.Read(fpn * 256 + off);
    }

    // pg_setval
    method SetVal(addr: Word, value: Byte) returns (code: int)
      requires Accessible()
      modifies mm.pgd, mm.fifoPgn, mm.fifoPgn.nodes, activeMswp`freeFp, activeMswp.storage, mram.storage
      ensures Accessible() && (code, Bytes()) == Store(old(Bytes()), addr, value)
      ensures old(Valid()) && Pgn(addr) < old(mm.vmEnd) / 256 ==> Valid()
    {
      hide PageList.Valid, RegionList.Valid, Present, PagingFpn, Pgn, Offst, Access.GetPage;
      AddressSplit(addr);
      var pgn, off := Pgn(addr), Offst(addr);
      var fpn;
      code, fpn := GetPage(pgn);
      if code != 0 {
        return -1;
      }
      FpnInside(mm.pgd[pgn], mram.storage.Length);
      mram.Write(fpn * 256 + off, value);
    }

    // __read.  The sum is passed on as a 32-bit int.  The code is 0 whether or not pg_getval
    // could get the page; what `data` holds then is undefined, and 0 here.
    method Read(rgid: int, offset: nat) returns (code: int, data: Byte)
      requires Accessible() && mm.Shape() && rgid != SYMTBL_SZ
      modifies mm.pgd, mm.fifoPgn, mm.fifoPgn.nodes, activeMswp`freeFp, activeMswp.storage, mram.storage
      ensures Accessible()
      ensures rgid < 0 || rgid > SYMTBL_SZ ==> code == -1 && Bytes() == old(Bytes())
      ensures 0 <= rgid < SYMTBL_SZ ==>
                var (byte, s) := Fetch(old(Bytes()), (old(mm.symrgtbl[rgid]).start + offset) % WORD);
                code == 0 && Bytes() == s && (byte.Some? ==> data == byte.value)
    {
      hide PageList.Valid, RegionList.Valid, Fetch;
      if rgid < 0 || rgid > SYMTBL_SZ {
        return -1, 0;
      }
      var ret;
      ret, data := GetVal((mm.symrgtbl[rgid].start + offset) % WORD);
      code := 0;
    }

    // __write, likewise.
    method Write(rgid: int, offset: nat, value: Byte) returns (code: int)
      requires Accessible() && mm.Shape() && rgid != SYMTBL_SZ
      modifies mm.pgd, mm.fifoPgn, mm.fifoPgn.nodes, activeMswp`freeFp, activeMswp.storage, mram.storage
      ensures Accessible()
      ensures rgid < 0 || rgid > SYMTBL_SZ ==> code == -1 && Bytes() == old(Bytes())
      ensures 0 <= rgid < SYMTBL_SZ ==>
                code == 0 && Bytes() == Store(old(Bytes()), (old(mm.symrgtbl[rgid]).start + offset) % WORD, value).1
    {
      hide PageList.Valid, RegionList.Valid, Store;
      if rgid < 0 || rgid > SYMTBL_SZ {
        return -1;
      }
      var ret := SetVal((mm.symrgtbl[rgid].start + offset) % WORD, value);
      code := 0;
    }
  }
}
