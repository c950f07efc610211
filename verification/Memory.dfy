/**
 __alloc and __free of one process on values: the virtual space, the page table and the two
 shared devices together.
 */
module Memory {
  import opened Prelude
  import opened Bits
  import opened Pte
  import opened Regions
  import opened Frames

  /** One mm_struct with its only area; `live` is the history of ids allocated and not freed. */
  datatype Mm = Mm(pgd: Pgd, fifo: seq<nat>, free: seq<Region>, sym: seq<Region>, live: set<nat>, sbrk: nat, vmEnd: nat)

  const BUS: nat := 0x40_0000

  /** init_mm. */
  function InitMm(): Mm {
    Mm(seq(MAX_PGN, _ => 0), [], [Region(0, 0)], seq(SYMTBL_SZ, _ => Region(0, 0)), {}, 0, 0)
  }

  function Pages(mm: Mm): nat { mm.vmEnd / 256 }

  function PagesFor(size: nat): nat { DivRoundUp(size, 256) }

  /** PAGING_PAGE_ALIGNSZ. */
  function Aligned(size: nat): (r: nat)
    ensures size <= r < size + 256 && r % 256 == 0 && r / 256 == PagesFor(size)
  {
    DivRoundUp(size, 256) * 256
  }

  /** What every operation keeps, failed allocations and misuse of ids included. */
  ghost predicate VmOk(mm: Mm) {
    && |mm.sym| == SYMTBL_SZ
    && Bounded(mm.free, mm.sym, mm.live, mm.vmEnd)
    && mm.sbrk == mm.vmEnd && mm.vmEnd % 256 == 0 && mm.vmEnd <= BUS
    && FifoOk(mm.fifo, Pages(mm))
  }

  ghost predicate Parted(mm: Mm) {
    Partition(mm.free, mm.sym, mm.live, mm.vmEnd)
  }

  /** Free frames and free swap slots have numbers that fit their page table fields. */
  predicate DevicesOk(ram: seq<nat>, swp: seq<nat>) {
    (forall i :: 0 <= i < |ram| ==> ram[i] < MAX_FPN) && SlotsOk(swp)
  }

  /** vm_map_ram: on success the frames are mapped and the pages enlisted. */
  function VmMapRam(g0: Grab, first: nat, n: nat): (g: Grab)
    requires PagesOk(g0.fifo) && SlotsOk(g0.swp) && DevicesOk(g0.ram, g0.swp) && first + n <= MAX_PGN
  {
    var g := AllocPages(n, g0.pgd, g0.fifo, g0.ram, g0.swp);
    if g.code != 0 then g
    else
      assert forall i :: 0 <= i < |g.frames| ==> g.frames[i] < MAX_FPN by {
        ObtainedOk(n, g0.pgd, g0.fifo, g0.ram);
      }
      g.(pgd := MapPages(g.pgd, first, g.frames), fifo := Enlisted(g.fifo, first, n))
  }

  /** The request is served from the free list, or the extended area stays on the bus. */
  predicate CanAlloc(mm: Mm, id: nat, size: nat) {
    id < SYMTBL_SZ && (Take(mm.free, size) == None ==> mm.vmEnd + Aligned(size) <= BUS)
  }

  /** The frames that the free list lacks for `size` bytes can be had by eviction. */
  predicate Serves(mm: Mm, ram: seq<nat>, swp: seq<nat>, size: nat) {
    var k := Shortfall(PagesFor(size), ram);
    k <= |mm.fifo| && k <= |swp|
  }

  /** __alloc needs no new page, or all the pages it needs can be mapped. */
  predicate CanMap(mm: Mm, ram: seq<nat>, swp: seq<nat>, size: nat) {
    Take(mm.free, size).Some? || Serves(mm, ram, swp, size)
  }

  datatype Outcome = Outcome(mm: Mm, ram: seq<nat>, swp: seq<nat>, addr: nat)

  /** The physical outcome of extending the area for `size` bytes. */
  function Extend(mm: Mm, ram: seq<nat>, swp: seq<nat>, size: nat): (g: Grab)
    requires PagesOk(mm.fifo) && DevicesOk(ram, swp) && mm.vmEnd + Aligned(size) <= BUS
  {
    VmMapRam(Grab(0, [], mm.pgd, mm.fifo, ram, swp), Pages(mm), PagesFor(size))
  }

  /** The state after the area was extended for `size` bytes with physical outcome `g`. */
  function Grown(mm: Mm, id: nat, size: nat, g: Grab): Mm
    requires id < |mm.sym|
  {
    var end' := mm.vmEnd + Aligned(size);
    Mm(g.pgd, g.fifo, Enlist(mm.free, Region(mm.sbrk + size, end')),
       mm.sym[id := Region(mm.sbrk, mm.sbrk + size)], mm.live + {id}, mm.sbrk + Aligned(size), end')
  }

  /** __alloc, which does not look at the code of vm_map_ram. */
  function Alloc(mm: Mm, ram: seq<nat>, swp: seq<nat>, id: nat, size: nat): Outcome
    requires |mm.sym| == SYMTBL_SZ && PagesOk(mm.fifo) && DevicesOk(ram, swp) && CanAlloc(mm, id, size)
  {
    match Take(mm.free, size)
    case Some((r, free')) =>
      Outcome(mm.(free := free', sym := mm.sym[id := r], live := mm.live + {id}), ram, swp, r.start)
    case None =>
      var g := Extend(mm, ram, swp, size);
      Outcome(Grown(mm, id, size, g), g.ram, g.swp, mm.sbrk)
  }

  /** __free of an id in the table: the table entry stays. */
  function Free(mm: Mm, id: nat): Mm
    requires id < |mm.sym|
  {
    mm.(free := Enlist(mm.free, mm.sym[id]), live := mm.live - {id})
  }

  // ----------------------------------------------------------------- the virtual space

  lemma PageMath(vmEnd: nat, size: nat)
    requires vmEnd % 256 == 0
    ensures (vmEnd + Aligned(size)) % 256 == 0 && (vmEnd + Aligned(size)) / 256 == vmEnd / 256 + PagesFor(size)
    ensures vmEnd + Aligned(size) <= BUS ==> vmEnd / 256 + PagesFor(size) <= MAX_PGN
    ensures PagesFor(size) == 0 <==> size == 0
  {}

  lemma InitOk()
    ensures VmOk(InitMm()) && Parted(InitMm())
  {
    var mm := InitMm();
    forall b: nat ensures FreeAt(mm.free, b) + LiveAt(mm.sym, {}, |mm.sym|, b) == 0 {
      FreeAtOne(Region(0, 0), b);
      NothingLive(mm.sym, |mm.sym|, b);
    }
  }

  lemma {:induction false} NothingLive(sym: seq<Region>, n: nat, b: nat)
    requires n <= |sym|
    ensures LiveAt(sym, {}, n, b) == 0
  {
    if n > 0 { NothingLive(sym, n - 1, b); }
  }

  lemma AllocPagesKeepsFifo(req: nat, pgd: Pgd, fifo: seq<nat>, ram: seq<nat>, swp: seq<nat>, pages: nat)
    requires FifoOk(fifo, pages) && DevicesOk(ram, swp)
    ensures var g := AllocPages(req, pgd, fifo, ram, swp);
            FifoOk(g.fifo, pages) && DevicesOk(g.ram, g.swp)
  {
    hide SetSwap, PagingFpn, SwapOut, Obtained;
  }

  lemma ExtendKeepsFifo(mm: Mm, ram: seq<nat>, swp: seq<nat>, size: nat)
    requires VmOk(mm) && DevicesOk(ram, swp) && mm.vmEnd + Aligned(size) <= BUS
    ensures var g := Extend(mm, ram, swp, size);
            FifoOk(g.fifo, Pages(mm) + PagesFor(size)) && DevicesOk(g.ram, g.swp)
  {
    AllocPagesKeepsFifo(PagesFor(size), mm.pgd, mm.fifo, ram, swp, Pages(mm));
    var g := AllocPages(PagesFor(size), mm.pgd, mm.fifo, ram, swp);
    EnlistedOk(g.fifo, Pages(mm), PagesFor(size));
  }

  lemma AllocTake(mm: Mm, ram: seq<nat>, swp: seq<nat>, id: nat, size: nat)
    requires VmOk(mm) && Parted(mm) && DevicesOk(ram, swp) && id < SYMTBL_SZ && Take(mm.free, size).Some?
    ensures var o := Alloc(mm, ram, swp, id, size);
            && VmOk(o.mm) && (Parted(o.mm) <==> id !in mm.live || mm.sym[id].Empty())
  {
    TakeKeepsPartition(mm.free, mm.sym, mm.live, mm.vmEnd, id, size);
    var (r, free') := Take(mm.free, size).value;
    var m := Alloc(mm, ram, swp, id, size).mm;
    assert m.free == free' && m.sym == mm.sym[id := r] && m.live == mm.live + {id} && m.vmEnd == mm.vmEnd;
  }

  /** The virtual half of an extension, whatever its physical outcome. */
  lemma GrownVirtual(mm: Mm, id: nat, size: nat, g: Grab)
    requires VmOk(mm) && Parted(mm) && id < SYMTBL_SZ && mm.vmEnd + Aligned(size) <= BUS
    requires FifoOk(g.fifo, Pages(mm) + PagesFor(size))
    ensures var m := Grown(mm, id, size, g);
            VmOk(m) && (Parted(m) <==> id !in mm.live || mm.sym[id].Empty())
  {
    PageMath(mm.vmEnd, size);
    ExtendKeepsPartition(mm.free, mm.sym, mm.live, mm.vmEnd, mm.vmEnd + Aligned(size), id, size);
  }

  /** __alloc and __free keep the shape of the bookkeeping in every case: when the mapping
      fails, when a live id is allocated over, and when an id is freed twice. */
  lemma AllocKeeps(mm: Mm, ram: seq<nat>, swp: seq<nat>, id: nat, size: nat)
    requires VmOk(mm) && DevicesOk(ram, swp) && CanAlloc(mm, id, size)
    ensures var o := Alloc(mm, ram, swp, id, size);
            VmOk(o.mm) && DevicesOk(o.ram, o.swp)
  {
    hide Extend, AllocPages, Aligned, PagesFor;
    if Take(mm.free, size) == None {
      ExtendKeepsFifo(mm, ram, swp, size);
      PageMath(mm.vmEnd, size);
    }
  }

  lemma FreeKeeps(mm: Mm, id: nat)
    requires VmOk(mm) && id < SYMTBL_SZ
    ensures VmOk(Free(mm, id))
  {
    assert mm.sym[id].start <= mm.sym[id].end <= mm.vmEnd;
  }

  /** __alloc keeps the bookkeeping of the virtual space in every case, and keeps the
      partition exactly when it does not overwrite a live, non-empty region. */
  lemma AllocVirtual(mm: Mm, ram: seq<nat>, swp: seq<nat>, id: nat, size: nat)
    requires VmOk(mm) && Parted(mm) && DevicesOk(ram, swp) && CanAlloc(mm, id, size)
    ensures var o := Alloc(mm, ram, swp, id, size);
            && VmOk(o.mm) && DevicesOk(o.ram, o.swp)
            && (Parted(o.mm) <==> id !in mm.live || mm.sym[id].Empty())
  {
    if Take(mm.free, size).Some? {
      AllocTake(mm, ram, swp, id, size);
    } else {
      ExtendKeepsFifo(mm, ram, swp, size);
      GrownVirtual(mm, id, size, Extend(mm, ram, swp, size));
    }
  }

  /** The region an allocation hands out has the size asked for, lies below the end of the
      area and shares no byte with another live region. */
  lemma AllocFresh(mm: Mm, ram: seq<nat>, swp: seq<nat>, id: nat, size: nat, other: nat, b: nat)
    requires VmOk(mm) && Parted(mm) && DevicesOk(ram, swp) && CanAlloc(mm, id, size)
    requires other in mm.live && other != id && (id !in mm.live || mm.sym[id].Empty())
    ensures var o := Alloc(mm, ram, swp, id, size);
            && o.mm.sym[id] == Region(o.addr, o.addr + size) && o.addr + size <= o.mm.vmEnd
            && Covers(o.mm.sym[id], b) + Covers(o.mm.sym[other], b) <= 1
            && o.mm.sym[other] == mm.sym[other]
  {
    AllocVirtual(mm, ram, swp, id, size);
    var m := Alloc(mm, ram, swp, id, size).mm;
    LiveDisjoint(m.free, m.sym, m.live, m.vmEnd, id, other, b);
  }

  // ----------------------------------------------------------------- the page table

  /** Every page of the area is mapped and nothing else is; a page is on the FIFO list (once,
      by VmOk) exactly if it is not marked swapped. */
  ghost predicate MappedOk(mm: Mm) {
    && VmOk(mm)
    && (forall p :: 0 <= p < MAX_PGN ==> (mm.pgd[p] != 0 <==> p < Pages(mm)))
    && (forall p :: 0 <= p < Pages(mm) ==> Present(mm.pgd[p]))
    && (forall p :: 0 <= p < Pages(mm) ==> (p in mm.fifo <==> !Swapped(mm.pgd[p])))
  }

  /** Page table facts after the eviction half of a successful allocation. */
  lemma EvictPoint(pgd: Pgd, fifo: seq<nat>, swp: seq<nat>, k: nat, pages: nat, p: nat)
    requires FifoOk(fifo, pages) && SlotsOk(swp) && k <= |fifo| && k <= |swp| && p < MAX_PGN
    ensures var r := SwapOut(pgd, Victims(fifo, k), swp[..k])[p];
            if p in Victims(fifo, k) then r != 0 && Present(r) && Swapped(r) else r == pgd[p]
  {
    hide SetSwap;
    VictimsDistinct(fifo, k);
    var v := Victims(fifo, k);
    WritePoint(pgd, v, SwapEntries(pgd, v, swp[..k]));
    if p in v {
      var i :| 0 <= i < |v| && v[i] == p;
      SetSwapFacts(pgd[p], swp[i]);
    }
  }

  /** vm_map_ram succeeds exactly if the missing frames can be had by eviction. */
  lemma ExtendCode(mm: Mm, ram: seq<nat>, swp: seq<nat>, size: nat)
    requires PagesOk(mm.fifo) && DevicesOk(ram, swp) && mm.vmEnd + Aligned(size) <= BUS
    ensures Extend(mm, ram, swp, size).code == 0 <==> Serves(mm, ram, swp, size)
  {
    hide MapPages, SwapOut, Obtained, Enlisted, Aligned;
  }

  /** A successful extension evicts the k oldest pages, maps the frames obtained and enlists
      the new pages. */
  lemma ExtendShape(mm: Mm, ram: seq<nat>, swp: seq<nat>, size: nat)
    requires VmOk(mm) && DevicesOk(ram, swp) && mm.vmEnd + Aligned(size) <= BUS
    requires Serves(mm, ram, swp, size)
    ensures var g, n, np := Extend(mm, ram, swp, size), PagesFor(size), Pages(mm);
            var k := Shortfall(n, ram);
            && np + n <= MAX_PGN && k <= |mm.fifo| && k <= |swp|
            && var f := Reverse(Obtained(n, mm.pgd, mm.fifo, ram));
               && (forall i :: 0 <= i < n ==> f[i] < MAX_FPN)
               && g.pgd == MapPages(SwapOut(mm.pgd, Victims(mm.fifo, k), swp[..k]), np, f)
               && g.fifo == Enlisted(mm.fifo[..|mm.fifo| - k], np, n)
               && g.ram == ram[Min(n, |ram|)..] && g.swp == swp[k..]
  {
    hide MapPages, SwapOut, Obtained, Enlisted;
    PageMath(mm.vmEnd, size);
    ObtainedOk(PagesFor(size), mm.pgd, mm.fifo, ram);
  }

  /** A failed extension takes every free frame and every page and slot that pair up, and
      drops one more page from the FIFO list if slots ran out first. */
  lemma FailShape(mm: Mm, ram: seq<nat>, swp: seq<nat>, size: nat)
    requires VmOk(mm) && DevicesOk(ram, swp) && mm.vmEnd + Aligned(size) <= BUS
    requires !Serves(mm, ram, swp, size)
    ensures var g, m := Extend(mm, ram, swp, size), Min(|mm.fifo|, |swp|);
            && g.pgd == SwapOut(mm.pgd, Victims(mm.fifo, m), swp[..m])
            && g.fifo == mm.fifo[..if |mm.fifo| == m then 0 else |mm.fifo| - m - 1]
            && g.ram == [] && g.swp == swp[m..]
  {
    hide MapPages, SwapOut, Obtained, Enlisted, Aligned;
  }

  lemma MappedAt(mm: Mm, p: nat)
    requires MappedOk(mm) && p < MAX_PGN
    ensures VmOk(mm) && (mm.pgd[p] != 0 <==> p < Pages(mm))
    ensures p < Pages(mm) ==> Present(mm.pgd[p]) && (p in mm.fifo <==> !Swapped(mm.pgd[p]))
  {
    hide Present, Swapped;
  }

  /** The entry and the FIFO membership of one page after a successful extension. */
  lemma ExtendPoint(mm: Mm, ram: seq<nat>, swp: seq<nat>, size: nat, p: nat)
    requires MappedOk(mm) && DevicesOk(ram, swp) && mm.vmEnd + Aligned(size) <= BUS
    requires Serves(mm, ram, swp, size) && p < MAX_PGN
    ensures var g, pages' := Extend(mm, ram, swp, size), Pages(mm) + PagesFor(size);
            && (g.pgd[p] != 0 <==> p < pages')
            && (p < pages' ==> Present(g.pgd[p]))
            && (p < pages' ==> (p in g.fifo <==> !Swapped(g.pgd[p])))
  {
    hide Extend, MapPages, SwapOut, Enlisted, Obtained, Present, Swapped, SetFpn, SetSwap, MappedOk;
    var n, np := PagesFor(size), Pages(mm);
    var k := Shortfall(n, ram);
    MappedAt(mm, p);
    ExtendShape(mm, ram, swp, size);
    var pgd, rest := SwapOut(mm.pgd, Victims(mm.fifo, k), swp[..k]), mm.fifo[..|mm.fifo| - k];
    var f := Reverse(Obtained(n, mm.pgd, mm.fifo, ram));
    FrontOk(mm.fifo, np, |mm.fifo| - k);
    EnlistedOk(rest, np, n);
    EvictPoint(mm.pgd, mm.fifo, swp, k, np, p);
    VictimsDistinct(mm.fifo, k);
    MapPagesAt(pgd, np, f, p);
    if np <= p < np + n {
      SetFpnFacts(pgd[p], f[p - np]);
    }
  }

  /** The page table describes the area again after __alloc exactly if the free list has a
      region, or the k frames missing from the RAM are matched by k resident pages and k free
      slots: otherwise pages of the area stay unmapped. */
  lemma AllocMapped(mm: Mm, ram: seq<nat>, swp: seq<nat>, id: nat, size: nat)
    requires MappedOk(mm) && DevicesOk(ram, swp) && CanAlloc(mm, id, size)
    ensures MappedOk(Alloc(mm, ram, swp, id, size).mm) <==> CanMap(mm, ram, swp, size)
  {
    hide Extend, Serves, Present, Swapped;
    AllocKeeps(mm, ram, swp, id, size);
    if Take(mm.free, size) == None {
      var g := Extend(mm, ram, swp, size);
      PageMath(mm.vmEnd, size);
      if Serves(mm, ram, swp, size) {
        forall p | 0 <= p < MAX_PGN
          ensures g.pgd[p] != 0 <==> p < Pages(mm) + PagesFor(size)
          ensures p < Pages(mm) + PagesFor(size) ==> Present(g.pgd[p]) && (p in g.fifo <==> !Swapped(g.pgd[p]))
        {
          ExtendPoint(mm, ram, swp, size, p);
        }
      } else {
        FailedExtend(mm, ram, swp, size);
      }
    }
  }

  lemma FailedExtend(mm: Mm, ram: seq<nat>, swp: seq<nat>, size: nat)
    requires MappedOk(mm) && DevicesOk(ram, swp) && Take(mm.free, size) == None
    requires mm.vmEnd + Aligned(size) <= BUS && !Serves(mm, ram, swp, size)
    ensures Pages(mm) < MAX_PGN && Extend(mm, ram, swp, size).pgd[Pages(mm)] == 0 && PagesFor(size) > 0
  {
    assert Fits(mm.free[0], 0);
    PageMath(mm.vmEnd, size);
    var m := Min(|mm.fifo|, |swp|);
    EvictPoint(mm.pgd, mm.fifo, swp, m, Pages(mm), Pages(mm));
    assert Pages(mm) !in Victims(mm.fifo, m);
  }

  // ----------------------------------------------------------------- slots and frames

  /** Mapping frames at pages np .. np + n - 1 leaves the recorded slots as they are. */
  lemma SlotsMapped(pgd: Pgd, np: nat, frames: seq<nat>)
    requires np + |frames| <= MAX_PGN && forall i :: 0 <= i < |frames| ==> frames[i] < MAX_FPN
    ensures SlotsIn(MapPages(pgd, np, frames), np + |frames|) == SlotsIn(pgd, np)
  {
    hide SlotsIn, Swapped;
    hide SetFpn, MapPages;
    var pgd' := MapPages(pgd, np, frames);
    forall p | 0 <= p < np ensures pgd[p] == pgd'[p] {
      MapPagesAt(pgd, np, frames, p);
    }
    SlotsInFrame(pgd, pgd', np);
    forall p | np <= p < np + |frames| ensures !Swapped(pgd'[p]) {
      MapPagesAt(pgd, np, frames, p);
      SetFpnFacts(pgd[p], frames[p - np]);
    }
    SlotsInExtend(pgd', np, np + |frames|);
  }

  /** What holds of the page table even after failed mappings: pages on the FIFO list are not
      marked swapped, and entries beyond the area were never written. */
  ghost predicate Tabled(mm: Mm) {
    && VmOk(mm)
    && (forall i :: 0 <= i < |mm.fifo| ==> !Swapped(mm.pgd[mm.fifo[i]]))
    && (forall p :: Pages(mm) <= p < MAX_PGN ==> mm.pgd[p] == 0)
  }

  lemma MappedTabled(mm: Mm)
    requires MappedOk(mm)
    ensures Tabled(mm)
  {
    hide Present, Swapped;
    forall i | 0 <= i < |mm.fifo| ensures !Swapped(mm.pgd[mm.fifo[i]]) {
      assert mm.fifo[i] in mm.fifo;
    }
  }

  lemma NotSwappedZero()
    ensures !Swapped(0)
  {}

  /** Recorded slots after k evictions. */
  lemma SlotsEvicted(mm: Mm, swp: seq<nat>, k: nat)
    requires Tabled(mm) && SlotsOk(swp) && k <= |mm.fifo| && k <= |swp|
    ensures SlotsIn(SwapOut(mm.pgd, Victims(mm.fifo, k), swp[..k]), Pages(mm))
            == SlotsIn(mm.pgd, Pages(mm)) + multiset(swp[..k])
  {
    hide SwapOut, Swapped;
    VictimsDistinct(mm.fifo, k);
    SlotsSwapOut(mm.pgd, Victims(mm.fifo, k), swp[..k], Pages(mm));
  }

  /** The table after k evictions: the c newest pages are still unswapped, and nothing was
      written beyond the area. */
  lemma EvictTabled(mm: Mm, swp: seq<nat>, k: nat, c: nat)
    requires Tabled(mm) && SlotsOk(swp) && k <= |swp| && c + k <= |mm.fifo|
    ensures var pgd := SwapOut(mm.pgd, Victims(mm.fifo, k), swp[..k]);
            && (forall i :: 0 <= i < c ==> !Swapped(pgd[mm.fifo[i]]))
            && (forall p :: Pages(mm) <= p < MAX_PGN ==> pgd[p] == 0)
  {
    hide SwapOut, Swapped, SetSwap;
    var pgd := SwapOut(mm.pgd, Victims(mm.fifo, k), swp[..k]);
    VictimsDistinct(mm.fifo, k);
    SwapOutExact(mm.pgd, mm.fifo, swp, k, Pages(mm));
    forall i | 0 <= i < c ensures pgd[mm.fifo[i]] == mm.pgd[mm.fifo[i]] {
      assert mm.fifo[..|mm.fifo| - k][i] == mm.fifo[i];
    }
    forall p | Pages(mm) <= p < MAX_PGN ensures pgd[p] == 0 {
      assert p !in Victims(mm.fifo, k);
    }
  }

  /** Mapping and enlisting unswaps the new pages and leaves the others. */
  lemma MapTabled(pgd: Pgd, rest: seq<nat>, np: nat, frames: seq<nat>)
    requires PagesOk(rest) && np + |frames| <= MAX_PGN && forall i :: 0 <= i < |frames| ==> frames[i] < MAX_FPN
    requires forall i :: 0 <= i < |rest| ==> rest[i] < np && !Swapped(pgd[rest[i]])
    requires forall p :: np <= p < MAX_PGN ==> pgd[p] == 0
    ensures var pgd', fifo := MapPages(pgd, np, frames), Enlisted(rest, np, |frames|);
            && (forall i :: 0 <= i < |fifo| ==> fifo[i] < MAX_PGN && !Swapped(pgd'[fifo[i]]))
            && (forall p :: np + |frames| <= p < MAX_PGN ==> pgd'[p] == 0)
  {
    hide MapPages, Enlisted, Swapped, SetFpn;
    var pgd', fifo := MapPages(pgd, np, frames), Enlisted(rest, np, |frames|);
    EnlistedLength(rest, np, |frames|);
    forall i | 0 <= i < |fifo| ensures fifo[i] < MAX_PGN && !Swapped(pgd'[fifo[i]]) {
      EnlistedAt(rest, np, |frames|, i);
      MapPagesAt(pgd, np, frames, fifo[i]);
      if i < |frames| { SetFpnFacts(pgd[fifo[i]], frames[fifo[i] - np]); }
    }
    forall p | np + |frames| <= p < MAX_PGN ensures pgd'[p] == 0 {
      MapPagesAt(pgd, np, frames, p);
    }
  }

  lemma EnlistedLength(fifo: seq<nat>, first: nat, n: nat)
    ensures |Enlisted(fifo, first, n)| == n + |fifo|
  {}

  /** An extension, successful or not, moves the slots it takes from the free list into the
      table. */
  lemma ExtendSlots(mm: Mm, ram: seq<nat>, swp: seq<nat>, size: nat)
    requires Tabled(mm) && DevicesOk(ram, swp) && mm.vmEnd + Aligned(size) <= BUS
    ensures Pages(mm) + PagesFor(size) <= MAX_PGN
    ensures var g, np := Extend(mm, ram, swp, size), Pages(mm) + PagesFor(size);
            && SlotsIn(g.pgd, np) + multiset(g.swp) == SlotsIn(mm.pgd, Pages(mm)) + multiset(swp)
            && (forall i :: 0 <= i < |g.fifo| ==> g.fifo[i] < MAX_PGN && !Swapped(g.pgd[g.fifo[i]]))
            && (forall p :: np <= p < MAX_PGN ==> g.pgd[p] == 0)
  {
    hide Extend, SlotsIn, MapPages, SwapOut, Obtained, Swapped, Enlisted, Bounded;
    var n := PagesFor(size);
    PageMath(mm.vmEnd, size);
    if Serves(mm, ram, swp, size) {
      var k := Shortfall(n, ram);
      var pgd, f := SwapOut(mm.pgd, Victims(mm.fifo, k), swp[..k]), Reverse(Obtained(n, mm.pgd, mm.fifo, ram));
      ExtendShape(mm, ram, swp, size);
      SlotsMapped(pgd, Pages(mm), f);
      SlotsEvicted(mm, swp, k);
      MultisetSplit(swp, k);
      EvictTabled(mm, swp, k, |mm.fifo| - k);
      MapTabled(pgd, mm.fifo[..|mm.fifo| - k], Pages(mm), f);
    } else {
      FailSlots(mm, ram, swp, size);
    }
  }

  lemma FailSlots(mm: Mm, ram: seq<nat>, swp: seq<nat>, size: nat)
    requires Tabled(mm) && DevicesOk(ram, swp) && mm.vmEnd + Aligned(size) <= BUS
    requires !Serves(mm, ram, swp, size) && Pages(mm) + PagesFor(size) <= MAX_PGN
    ensures var g, np := Extend(mm, ram, swp, size), Pages(mm) + PagesFor(size);
            && SlotsIn(g.pgd, np) + multiset(g.swp) == SlotsIn(mm.pgd, Pages(mm)) + multiset(swp)
            && (forall i :: 0 <= i < |g.fifo| ==> g.fifo[i] < MAX_PGN && !Swapped(g.pgd[g.fifo[i]]))
            && (forall p :: np <= p < MAX_PGN ==> g.pgd[p] == 0)
  {
    hide Extend, SlotsIn, MapPages, SwapOut, Obtained, Swapped, Bounded;
    var m := Min(|mm.fifo|, |swp|);
    FailShape(mm, ram, swp, size);
    SlotsEvicted(mm, swp, m);
    MultisetSplit(swp, m);
    EvictTabled(mm, swp, m, if |mm.fifo| == m then 0 else |mm.fifo| - m - 1);
    NotSwappedZero();
    SlotsInExtend(Extend(mm, ram, swp, size).pgd, Pages(mm), Pages(mm) + PagesFor(size));
  }

  lemma MultisetSplit(s: seq<nat>, k: nat)
    requires k <= |s|
    ensures multiset(s) == multiset(s[..k]) + multiset(s[k..])
  {
    assert s == s[..k] + s[k..];
  }

  /** __alloc never loses a swap slot, whether or not its mapping succeeds: slots move between
      device and table.  Pages on the FIFO list and free frames together stay as many as they
      were exactly if the allocation can be mapped, or found neither. */
  lemma AllocConserves(mm: Mm, ram: seq<nat>, swp: seq<nat>, id: nat, size: nat)
    requires Tabled(mm) && DevicesOk(ram, swp) && CanAlloc(mm, id, size)
    ensures var o := Alloc(mm, ram, swp, id, size);
            && Tabled(o.mm) && Pages(o.mm) <= MAX_PGN
            && SlotsIn(o.mm.pgd, Pages(o.mm)) + multiset(o.swp) == SlotsIn(mm.pgd, Pages(mm)) + multiset(swp)
            && (|o.mm.fifo| + |o.ram| == |mm.fifo| + |ram|
                <==> CanMap(mm, ram, swp, size) || (ram == [] && mm.fifo == []))
  {
    hide SlotsIn, Extend, Grown, Swapped, Bounded;
    AllocKeeps(mm, ram, swp, id, size);
    if Take(mm.free, size) == None {
      ExtendSlots(mm, ram, swp, size);
      ExtendCounts(mm, ram, swp, size);
      GrownPages(mm, id, size, Extend(mm, ram, swp, size));
    }
  }

  lemma ExtendCounts(mm: Mm, ram: seq<nat>, swp: seq<nat>, size: nat)
    requires VmOk(mm) && DevicesOk(ram, swp) && mm.vmEnd + Aligned(size) <= BUS
    ensures var g := Extend(mm, ram, swp, size);
            |g.fifo| + |g.ram| == |mm.fifo| + |ram| <==> Serves(mm, ram, swp, size) || (ram == [] && mm.fifo == [])
  {
    hide Extend, MapPages, SwapOut, Obtained, Bounded;
    if Serves(mm, ram, swp, size) {
      ExtendShape(mm, ram, swp, size);
    } else {
      FailShape(mm, ram, swp, size);
    }
  }

  lemma GrownPages(mm: Mm, id: nat, size: nat, g: Grab)
    requires VmOk(mm) && id < |mm.sym|
    ensures var m := Grown(mm, id, size, g);
            Pages(m) == Pages(mm) + PagesFor(size) && m.pgd == g.pgd && m.fifo == g.fifo
  {
    PageMath(mm.vmEnd, size);
  }

  /** The frames the k oldest pages of a process are stored in, oldest last. */
  function Lost(mm: Mm, k: nat): (r: seq<nat>)
    requires PagesOk(mm.fifo) && k <= |mm.fifo|
    ensures |r| == k
  {
    FramesOf(mm.pgd, mm.fifo)[|mm.fifo| - k..]
  }

  /** What alloc_pages_range takes those frames to be. */
  function Believed(mm: Mm, k: nat): (r: seq<nat>)
    requires PagesOk(mm.fifo) && k <= |mm.fifo|
    ensures |r| == k && forall i :: 0 <= i < k ==> r[i] == Lost(mm, k)[k - 1 - i] / 256 % 4
  {
    hide PagingFpn, FpnField;
    var v := Victims(mm.fifo, k);
    var r := VictimFrames(mm.pgd, v);
    forall i | 0 <= i < k ensures r[i] == Lost(mm, k)[k - 1 - i] / 256 % 4 {
      PagingFpnExact(mm.pgd[v[i]]);
      assert Lost(mm, k)[k - 1 - i] == FpnField(mm.pgd[mm.fifo[|mm.fifo| - 1 - i]]);
    }
    r
  }

  /** A successful extension with k evictions exchanges, among frames in use and free
      frames, the victims' frames for the frames they were believed to occupy. */
  lemma ExtendFrames(mm: Mm, ram: seq<nat>, swp: seq<nat>, size: nat)
    requires VmOk(mm) && DevicesOk(ram, swp) && mm.vmEnd + Aligned(size) <= BUS
    requires Serves(mm, ram, swp, size)
    ensures var g, k := Extend(mm, ram, swp, size), Shortfall(PagesFor(size), ram);
            && k <= |mm.fifo| && PagesOk(g.fifo)
            && multiset(FramesOf(g.pgd, g.fifo)) + multiset(g.ram) + multiset(Lost(mm, k))
               == multiset(FramesOf(mm.pgd, mm.fifo)) + multiset(ram) + multiset(Believed(mm, k))
  {
    hide Extend, MapPages, SwapOut, Enlisted, FramesOf, Obtained, Believed, Bounded, PagesFor, Pages, Victims;
    var n := PagesFor(size);
    var k := Shortfall(n, ram);
    ExtendShape(mm, ram, swp, size);
    FramesAfter(n, mm.pgd, mm.fifo, ram, swp, Pages(mm));
    ObtainedParts(mm, ram, n);
    var g, c := Extend(mm, ram, swp, size), |mm.fifo| - k;
    Exchanged(FramesOf(mm.pgd, mm.fifo), c, Obtained(n, mm.pgd, mm.fifo, ram), Believed(mm, k), ram, Min(n, |ram|),
              FramesOf(g.pgd, g.fifo), g.ram, Lost(mm, k));
  }

  lemma Exchanged(all: seq<nat>, c: nat, obtained: seq<nat>, believed: seq<nat>, ram: seq<nat>, t: nat,
                  all': seq<nat>, ram': seq<nat>, lost: seq<nat>)
    requires c <= |all| && t <= |ram| && multiset(obtained) == multiset(ram[..t]) + multiset(believed)
    requires all' == obtained + all[..c] && ram' == ram[t..] && lost == all[c..]
    ensures multiset(all') + multiset(ram') + multiset(lost) == multiset(all) + multiset(ram) + multiset(believed)
  {
    MultisetConcat(obtained, all[..c]);
    MultisetSplit(all, c);
    MultisetSplit(ram, t);
    Settle(multiset(obtained), multiset(all[..c]), multiset(lost),
           multiset(ram[..t]), multiset(ram'), multiset(believed));
  }

  lemma MultisetConcat(a: seq<nat>, b: seq<nat>)
    ensures multiset(a + b) == multiset(a) + multiset(b)
  {}

  lemma Settle(obtained: multiset<nat>, front: multiset<nat>, lost: multiset<nat>,
               taken: multiset<nat>, left: multiset<nat>, believed: multiset<nat>)
    requires obtained == taken + believed
    ensures (obtained + front) + left + lost == (front + lost) + (taken + left) + believed
  {}

  lemma ObtainedParts(mm: Mm, ram: seq<nat>, n: nat)
    requires PagesOk(mm.fifo) && Shortfall(n, ram) <= |mm.fifo|
    ensures multiset(Obtained(n, mm.pgd, mm.fifo, ram))
            == multiset(ram[..Min(n, |ram|)]) + multiset(Believed(mm, Shortfall(n, ram)))
  {
    hide PagingFpn, FpnField;
  }

  /** ExtendFrames for __alloc. */
  lemma AllocFrames(mm: Mm, ram: seq<nat>, swp: seq<nat>, id: nat, size: nat)
    requires VmOk(mm) && DevicesOk(ram, swp) && CanAlloc(mm, id, size) && Take(mm.free, size) == None
    requires Serves(mm, ram, swp, size)
    ensures var o, k := Alloc(mm, ram, swp, id, size), Shortfall(PagesFor(size), ram);
            && k <= |mm.fifo| && PagesOk(o.mm.fifo)
            && multiset(FramesOf(o.mm.pgd, o.mm.fifo)) + multiset(o.ram) + multiset(Lost(mm, k))
               == multiset(FramesOf(mm.pgd, mm.fifo)) + multiset(ram) + multiset(Believed(mm, k))
  {
    ExtendFrames(mm, ram, swp, size);
    GrownPages(mm, id, size, Extend(mm, ram, swp, size));
  }

  /** All the numbers lie below `lim`. */
  predicate AllBelow(s: seq<nat>, lim: nat) {
    forall i :: 0 <= i < |s| ==> s[i] < lim
  }

  lemma ObtainedBelow(n: nat, pgd: Pgd, fifo: seq<nat>, ram: seq<nat>, lim: nat)
    requires PagesOk(fifo) && Shortfall(n, ram) <= |fifo| && AllBelow(ram, lim) && AllBelow(FramesOf(pgd, fifo), lim)
    ensures AllBelow(Obtained(n, pgd, fifo, ram), lim)
  {
    hide PagingFpn, FpnField;
    forall i | 0 <= i < n ensures Obtained(n, pgd, fifo, ram)[i] < lim {
      if i >= |ram| {
        var j := |fifo| - 1 - (i - |ram|);
        assert FramesOf(pgd, fifo)[j] < lim;
        PagingFpnExact(pgd[fifo[j]]);
      }
    }
  }

  /** Growing the area, with or without success, never records or frees a frame number that
      was not below `lim` before: what PAGING_FPN reads is never above what is stored. */
  lemma ExtendBelow(mm: Mm, ram: seq<nat>, swp: seq<nat>, size: nat, lim: nat)
    requires VmOk(mm) && DevicesOk(ram, swp) && mm.vmEnd + Aligned(size) <= BUS
    requires AllBelow(ram, lim) && AllBelow(FramesOf(mm.pgd, mm.fifo), lim)
    ensures var g := Extend(mm, ram, swp, size);
            PagesOk(g.fifo) && AllBelow(g.ram, lim) && AllBelow(FramesOf(g.pgd, g.fifo), lim)
  {
    hide Extend, MapPages, SwapOut, FpnField, SetSwap;
    if Serves(mm, ram, swp, size) {
      ExtendShape(mm, ram, swp, size);
      FramesAfter(PagesFor(size), mm.pgd, mm.fifo, ram, swp, Pages(mm));
      ObtainedBelow(PagesFor(size), mm.pgd, mm.fifo, ram, lim);
    } else {
      var m := Min(|mm.fifo|, |swp|);
      var c := if |mm.fifo| == m then 0 else |mm.fifo| - m - 1;
      FailShape(mm, ram, swp, size);
      SwapOutExact(mm.pgd, mm.fifo, swp, m, Pages(mm));
      VictimsDistinct(mm.fifo, m);
      assert forall i :: 0 <= i < c ==> mm.fifo[..|mm.fifo| - m][i] == mm.fifo[..c][i];
      FramesOfFrame(mm.pgd, SwapOut(mm.pgd, Victims(mm.fifo, m), swp[..m]), mm.fifo[..c]);
      FramesOfFront(mm.pgd, mm.fifo, c);
    }
  }

  /** Distinct frames are exchanged for themselves only if there is nothing to exchange or
      the single frame is frame 0, the one frame that PAGING_FPN reads correctly. */
  lemma ExchangeExact(lost: seq<nat>, believed: seq<nat>)
    requires |lost| == |believed| && NoDup(lost)
    requires forall i :: 0 <= i < |lost| ==> believed[i] == lost[|lost| - 1 - i] / 256 % 4
    ensures multiset(lost) == multiset(believed) <==> lost == [] || lost == [0]
  {
    if lost == [0] {
      assert believed == [0];
    } else if lost != [] && multiset(lost) == multiset(believed) {
      assert |lost| >= 2 ==> lost[0] != lost[1];
      assert |lost| == 1 ==> lost == [lost[0]];
      var i := Largest(lost);
      assert lost[i] in multiset(lost);
      assert lost[i] in believed;
      var j :| 0 <= j < |believed| && believed[j] == lost[i];
      SmallRead(lost[|lost| - 1 - j]);
    }
  }

  lemma {:induction false} Largest(s: seq<nat>) returns (i: nat)
    requires s != []
    ensures i < |s| && forall j :: 0 <= j < |s| ==> s[j] <= s[i]
  {
    if |s| == 1 {
      i := 0;
    } else {
      var k := Largest(s[..|s| - 1]);
      i := if s[k] < s[|s| - 1] then |s| - 1 else k;
      assert forall j :: 0 <= j < |s| - 1 ==> s[..|s| - 1][j] == s[j];
    }
  }
}
