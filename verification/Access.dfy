/**
 pg_getpage, pg_getval and pg_setval on values: reading and writing one byte of a process
 through its page table, and which bytes of the RAM that touches.
 */
module Access {
  import opened Prelude
  import opened Bits
  import opened Pte
  import opened Regions
  import opened Frames
  import opened Devices
  import opened Memory
  import opened Machine

  /** Page table and FIFO list of a process, free swap slots, and the bytes of both devices. */
  datatype Space = Space(pgd: Pgd, fifo: seq<nat>, slots: seq<nat>, ram: seq<Byte>, swp: seq<Byte>)

  /** Enough RAM for every frame number PAGING_FPN can yield. */
  const RAM_MIN: nat := 1024

  /** Entries are zero or present, pages on the FIFO list are present, slots exist. */
  ghost predicate SpaceOk(s: Space) {
    && |s.ram| >= RAM_MIN
    && (forall p :: 0 <= p < MAX_PGN ==> s.pgd[p] == 0 || Present(s.pgd[p]))
    && (forall i :: 0 <= i < |s.fifo| ==> s.fifo[i] < MAX_PGN && Present(s.pgd[s.fifo[i]]))
    && (forall i :: 0 <= i < |s.slots| ==> s.slots[i] < MAX_SWPOFF && Inside(s.slots[i], |s.swp|))
  }

  lemma FpnInside(pte: Word, len: nat)
    requires len >= RAM_MIN
    ensures Inside(PagingFpn(pte), len) && PagingFpn(pte) < MAX_FPN
  {
    PagingFpnExact(pte);
  }

  /** An entry that is not present was never written, and PAGING_SWP of it is slot 0. */
  lemma AbsentSlot(s: Space, pgn: nat)
    requires SpaceOk(s) && pgn < MAX_PGN && !Present(s.pgd[pgn]) && s.slots != []
    ensures PagingSwp(s.pgd[pgn]) == 0 && Inside(0, |s.swp|)
  {
    assert Inside(s.slots[0], |s.swp|);
  }

  /** Page v goes to the swap slot, page pgn to the frame. */
  function Remap(pgd: Pgd, v: nat, slot: nat, pgn: nat, fpn: nat): Pgd
    requires v < MAX_PGN && pgn < MAX_PGN && slot < MAX_SWPOFF && fpn < MAX_FPN
  {
    var pgd' := pgd[v := SetSwap(pgd[v], 0, slot)];
    pgd'[pgn := SetFpn(pgd'[pgn], fpn)]
  }

  /** The swap of pg_getpage: the oldest page goes to the first free slot, page `pgn` takes
      the frame that page was believed to occupy. */
  ghost function SwapIn(s: Space, pgn: nat): (t: Space)
    requires SpaceOk(s) && pgn < MAX_PGN && !Present(s.pgd[pgn]) && s.fifo != [] && s.slots != []
  {
    hide SetSwap, SetFpn, PagingFpn, PagingSwp, Present;
    var v, slot := s.fifo[|s.fifo| - 1], s.slots[0];
    var vicfpn := PagingFpn(s.pgd[v]);
    FpnInside(s.pgd[v], |s.ram|);
    AbsentSlot(s, pgn);
    var swp := CopyPage(s.swp, slot, s.ram, vicfpn);
    var ram := CopyPage(s.ram, vicfpn, swp, PagingSwp(s.pgd[pgn]));
    Space(Remap(s.pgd, v, slot, pgn, vicfpn), [pgn] + s.fifo[..|s.fifo| - 1], s.slots[1..], ram, swp)
  }

  /** pg_getpage: the return code and the state left behind. */
  ghost function GetPage(s: Space, pgn: nat): (int, Space)
    requires SpaceOk(s) && pgn < MAX_PGN
  {
    if Present(s.pgd[pgn]) then (0, s)
    else if s.fifo == [] then (-1, s)
    else if s.slots == [] then (-1, s.(fifo := s.fifo[..|s.fifo| - 1]))
    else (0, SwapIn(s, pgn))
  }

  /** The RAM byte behind an address, by what PAGING_FPN reads. */
  function Phys(pgd: Pgd, addr: Word): (a: nat)
    ensures a < RAM_MIN
  {
    AddressSplit(addr);
    PagingFpnExact(pgd[Pgn(addr)]);
    PagingFpn(pgd[Pgn(addr)]) * 256 + Offst(addr)
  }

  /** pg_getval: the byte read, or None for the return code -1. */
  ghost function Fetch(s: Space, addr: Word): (Option<Byte>, Space)
    requires SpaceOk(s)
  {
    AddressSplit(addr);
    SwapInOk(s, Pgn(addr));
    var (code, t) := GetPage(s, Pgn(addr));
    if code != 0 then (None, t) else (Some(t.ram[Phys(t.pgd, addr)]), t)
  }

  /** pg_setval. */
  ghost function Store(s: Space, addr: Word, value: Byte): (int, Space)
    requires SpaceOk(s)
  {
    AddressSplit(addr);
    SwapInOk(s, Pgn(addr));
    var (code, t) := GetPage(s, Pgn(addr));
    if code != 0 then (-1, t) else (0, t.(ram := t.ram[Phys(t.pgd, addr) := value]))
  }

  // ----------------------------------------------------------------- getting a page

  /** pg_getpage fails exactly if the page is absent and there is no victim or no slot.  On
      success the page is present, and nothing happened if it was present before. */
  lemma SwapInOk(s: Space, pgn: nat)
    requires SpaceOk(s) && pgn < MAX_PGN
    ensures var (code, t) := GetPage(s, pgn);
            && SpaceOk(t)
            && (code == 0 <==> Present(s.pgd[pgn]) || (s.fifo != [] && s.slots != []))
            && (code == 0 ==> Present(t.pgd[pgn]))
            && (Present(s.pgd[pgn]) ==> t == s)
  {
    hide SwapIn, Present;
    if !Present(s.pgd[pgn]) && s.fifo != [] && s.slots != [] {
      SwapInKeeps(s, pgn);
    }
  }

  /** A remapped table: both pages present, all others as they were. */
  lemma RemapAt(pgd: Pgd, v: nat, slot: nat, pgn: nat, fpn: nat, p: nat)
    requires v < MAX_PGN && pgn < MAX_PGN && slot < MAX_SWPOFF && fpn < MAX_FPN && p < MAX_PGN
    ensures p == v || p == pgn ==> Present(Remap(pgd, v, slot, pgn, fpn)[p])
    ensures p != v && p != pgn ==> Remap(pgd, v, slot, pgn, fpn)[p] == pgd[p]
  {
    hide SetSwap, SetFpn, Present;
    SetSwapFacts(pgd[v], slot);
    SetFpnFacts(if v == pgn then SetSwap(pgd[v], 0, slot) else pgd[pgn], fpn);
  }

  lemma SwapInKeeps(s: Space, pgn: nat)
    requires SpaceOk(s) && pgn < MAX_PGN && !Present(s.pgd[pgn]) && s.fifo != [] && s.slots != []
    ensures SpaceOk(SwapIn(s, pgn)) && Present(SwapIn(s, pgn).pgd[pgn])
  {
    hide Remap, PagingFpn, PagingSwp, Present, CopyPage;
    var v, t := s.fifo[|s.fifo| - 1], SwapIn(s, pgn);
    FpnInside(s.pgd[v], |s.ram|);
    AbsentSlot(s, pgn);
    forall p | 0 <= p < MAX_PGN
      ensures t.pgd[p] == 0 || Present(t.pgd[p])
      ensures p == pgn || Present(s.pgd[p]) ==> Present(t.pgd[p])
    {
      RemapAt(s.pgd, v, s.slots[0], pgn, PagingFpn(s.pgd[v]), p);
    }
  }

  /** Bytes outside frame f of a device. */
  predicate SameOutside(before: seq<Byte>, after: seq<Byte>, f: nat) {
    |after| == |before| && forall i :: 0 <= i < |before| && !(256 * f <= i < 256 * f + 256) ==> after[i] == before[i]
  }

  /** A swap-in takes the first free slot and the oldest page, the victim.  The victim's entry
      records the slot, which holds the bytes of the frame the victim was believed to occupy;
      that frame holds the bytes of swap frame 0, the page's entry records it, and the page is
      the newest of the FIFO list.  No other entry and no other byte changes.  But the frame
      then read through PAGING_FPN is always frame 0, so it is the page's frame exactly if that
      is frame 0. */
  lemma SwapInExact(s: Space, pgn: nat)
    requires SpaceOk(s) && pgn < MAX_PGN && !Present(s.pgd[pgn]) && s.fifo != [] && s.slots != []
    ensures var t, v, slot := SwapIn(s, pgn), s.fifo[|s.fifo| - 1], s.slots[0];
            var vicfpn := PagingFpn(s.pgd[v]);
            && t.slots == s.slots[1..] && t.fifo == [pgn] + s.fifo[..|s.fifo| - 1]
            && Swapped(t.pgd[v]) && SwpOff(t.pgd[v]) == slot
            && !Swapped(t.pgd[pgn]) && FpnField(t.pgd[pgn]) == vicfpn
            && (forall p :: 0 <= p < MAX_PGN && p != v && p != pgn ==> t.pgd[p] == s.pgd[p])
            && Inside(slot, |s.swp|) && Inside(vicfpn, |s.ram|)
            && SameOutside(s.swp, t.swp, slot) && SameOutside(s.ram, t.ram, vicfpn)
            && t.swp[256 * slot..256 * slot + 256] == s.ram[256 * vicfpn..256 * vicfpn + 256]
            && t.ram[256 * vicfpn..256 * vicfpn + 256] == t.swp[..256]
            && PagingFpn(t.pgd[pgn]) == 0
            && (PagingFpn(t.pgd[pgn]) == FpnField(t.pgd[pgn]) <==> vicfpn == 0)
  {
    hide SetSwap, SetFpn, PagingFpn, PagingSwp, Present, Swapped, SwpOff, FpnField, SameOutside, CopyPage, Remap;
    var v, slot := s.fifo[|s.fifo| - 1], s.slots[0];
    var vicfpn := PagingFpn(s.pgd[v]);
    assert Present(s.pgd[v]);
    FpnInside(s.pgd[v], |s.ram|);
    AbsentSlot(s, pgn);
    RemapExact(s.pgd, v, slot, pgn, vicfpn);
    PageCopied(s.swp, slot, s.ram, vicfpn);
    PageCopied(s.ram, vicfpn, SwapIn(s, pgn).swp, 0);
    PagingFpnExact(s.pgd[v]);
    PagingFpnExact(SwapIn(s, pgn).pgd[pgn]);
  }

  lemma PageCopied(dst: seq<Byte>, d: nat, src: seq<Byte>, f: nat)
    requires Inside(d, |dst|) && Inside(f, |src|)
    ensures SameOutside(dst, CopyPage(dst, d, src, f), d)
    ensures CopyPage(dst, d, src, f)[256 * d..256 * d + 256] == src[256 * f..256 * f + 256]
  {}

  lemma RemapExact(pgd: Pgd, v: nat, slot: nat, pgn: nat, fpn: nat)
    requires v < MAX_PGN && pgn < MAX_PGN && slot < MAX_SWPOFF && fpn < MAX_FPN && v != pgn
    ensures var r := Remap(pgd, v, slot, pgn, fpn);
            && Swapped(r[v]) && SwpOff(r[v]) == slot && !Swapped(r[pgn]) && FpnField(r[pgn]) == fpn
            && forall p :: 0 <= p < MAX_PGN && p != v && p != pgn ==> r[p] == pgd[p]
  {
    hide SetSwap, SetFpn, Present, Swapped, SwpOff, FpnField;
    SetSwapFacts(pgd[v], slot);
    SetFpnFacts(pgd[pgn], fpn);
  }

  /** The slots recorded in a remapped table: one more, if neither page had one. */
  lemma RemapSlots(pgd: Pgd, v: nat, slot: nat, pgn: nat, fpn: nat, n: nat)
    requires v < n <= MAX_PGN && pgn < n && slot < MAX_SWPOFF && fpn < MAX_FPN && v != pgn
    requires !Swapped(pgd[v]) && !Swapped(pgd[pgn])
    ensures SlotsIn(Remap(pgd, v, slot, pgn, fpn), n) == SlotsIn(pgd, n) + multiset{slot}
  {
    hide SetSwap, SetFpn, Present, Swapped, SwpOff, FpnField, SlotsIn;
    var w := SetSwap(pgd[v], 0, slot);
    SetSwapFacts(pgd[v], slot);
    SetFpnFacts(pgd[pgn], fpn);
    SlotsInUpdate(pgd, v, w, n);
    UnswappedUpdate(pgd[v := w], pgn, SetFpn(pgd[pgn], fpn), n);
  }

  lemma {:induction false} UnswappedUpdate(pgd: Pgd, p: nat, w: Word, n: nat)
    requires p < n <= MAX_PGN && !Swapped(pgd[p]) && !Swapped(w)
    ensures SlotsIn(pgd[p := w], n) == SlotsIn(pgd, n)
    decreases n
  {
    hide Swapped, SwpOff;
    if p == n - 1 {
      SlotsInFrame(pgd, pgd[p := w], n - 1);
    } else {
      UnswappedUpdate(pgd, p, w, n - 1);
    }
  }

  /** The pages on the FIFO list are distinct pages below n, none of them marked swapped. */
  ghost predicate Resident(s: Space, n: nat) {
    FifoOk(s.fifo, n) && forall i :: 0 <= i < |s.fifo| ==> !Swapped(s.pgd[s.fifo[i]])
  }

  /** Nothing is written beyond the first n pages, and slots move between device and table. */
  ghost predicate Conserves(s: Space, t: Space, n: nat)
    requires n <= MAX_PGN
  {
    && SlotsIn(t.pgd, n) + multiset(t.slots) == SlotsIn(s.pgd, n) + multiset(s.slots)
    && forall p :: n <= p < MAX_PGN ==> t.pgd[p] == s.pgd[p]
  }

  /** pg_getpage never loses a swap slot, whether or not it finds a victim and a slot, and
      keeps resident pages unswapped; pages on the FIFO list stay as many as they were, except
      that a victim is lost when only the slot is missing. */
  lemma GetPageConserves(s: Space, pgn: nat, n: nat)
    requires SpaceOk(s) && Resident(s, n) && pgn < n <= MAX_PGN
    ensures var (code, t) := GetPage(s, pgn);
            && Resident(t, n) && Conserves(s, t, n)
            && |t.fifo| == |s.fifo| - (if code != 0 && s.fifo != [] then 1 else 0)
  {
    hide SwapIn, Present, Swapped, SlotsIn;
    if !Present(s.pgd[pgn]) && s.fifo != [] && s.slots != [] {
      SwapInConserves(s, pgn, n);
    }
  }

  lemma SwapInConserves(s: Space, pgn: nat, n: nat)
    requires SpaceOk(s) && Resident(s, n) && pgn < n <= MAX_PGN && !Present(s.pgd[pgn]) && s.fifo != [] && s.slots != []
    ensures var t := SwapIn(s, pgn);
            && Resident(t, n) && |t.fifo| == |s.fifo| && Conserves(s, t, n)
  {
    hide SetSwap, SetFpn, PagingFpn, PagingSwp, Present, Swapped, SwpOff, FpnField, CopyPage, Remap, SlotsIn;
    var v, slot, t := s.fifo[|s.fifo| - 1], s.slots[0], SwapIn(s, pgn);
    FpnInside(s.pgd[v], |s.ram|);
    AbsentSlot(s, pgn);
    NotSwappedZero();
    assert pgn !in s.fifo;
    RemapExact(s.pgd, v, slot, pgn, PagingFpn(s.pgd[v]));
    RemapSlots(s.pgd, v, slot, pgn, PagingFpn(s.pgd[v]), n);
    assert s.slots == [slot] + s.slots[1..];
    forall i | 0 <= i < |t.fifo| ensures !Swapped(t.pgd[t.fifo[i]]) {
      if i > 0 { assert t.fifo[i] == s.fifo[i - 1]; }
    }
  }

  /** The same for reading and for writing a byte. */
  lemma AccessConserves(s: Space, addr: Word, value: Byte, n: nat)
    requires SpaceOk(s) && Resident(s, n) && Pgn(addr) < n <= MAX_PGN
    ensures var t, u := Fetch(s, addr).1, Store(s, addr, value).1;
            Resident(t, n) && Conserves(s, t, n) && Resident(u, n) && Conserves(s, u, n)
  {
    hide GetPage, Swapped, SlotsIn, Phys, Pgn, Offst;
    SwapInOk(s, Pgn(addr));
    GetPageConserves(s, Pgn(addr), n);
  }

  // ----------------------------------------------------------------- reading and writing

  /** Read your write: a byte stored is read back, whether or not the page had to be fetched
      first; reading it changes nothing any more. */
  lemma ReadYourWrite(s: Space, addr: Word, value: Byte)
    requires SpaceOk(s) && Store(s, addr, value).0 == 0
    ensures SpaceOk(Store(s, addr, value).1)
    ensures Fetch(Store(s, addr, value).1, addr) == (Some(value), Store(s, addr, value).1)
  {
    hide Present, SwapIn, Phys;
    AddressSplit(addr);
    SwapInOk(s, Pgn(addr));
    SwapInOk(Store(s, addr, value).1, Pgn(addr));
  }

  /** A store to a present page changes one byte of the RAM and nothing else; a present page
      then reads the new value at exactly the addresses that share that byte. */
  lemma StoreExact(s: Space, a: Word, b: Word, value: Byte)
    requires SpaceOk(s) && Present(s.pgd[Pgn(a)]) && Present(s.pgd[Pgn(b)])
    ensures var t := Store(s, a, value).1;
            && Store(s, a, value).0 == 0 && SpaceOk(t)
            && t == s.(ram := s.ram[Phys(s.pgd, a) := value])
            && Fetch(t, b).0 == if Phys(s.pgd, a) == Phys(s.pgd, b) then Some(value) else Fetch(s, b).0
  {
    hide Present, SwapIn, Phys;
  }

  /** Two addresses, of one process or of two, share a byte exactly if they have the same
      offset and the frame numbers stored for their pages agree in bits 8 and 9. */
  lemma AliasExact(pgd: Pgd, pgd': Pgd, a: Word, b: Word)
    ensures Phys(pgd, a) == Phys(pgd', b) <==>
              a % 256 == b % 256 && FpnField(pgd[Pgn(a)]) / 256 % 4 == FpnField(pgd'[Pgn(b)]) / 256 % 4
  {
    hide Pgn, Offst, PagingFpn, FpnField;
    AddressSplit(a);
    AddressSplit(b);
    PagingFpnExact(pgd[Pgn(a)]);
    PagingFpnExact(pgd'[Pgn(b)]);
  }

  /** An access reaches the frame stored by pte_set_fpn exactly if that is frame 0. */
  lemma PhysExact(pgd: Pgd, addr: Word)
    ensures Phys(pgd, addr) == FpnField(pgd[Pgn(addr)]) * 256 + addr % 256 <==> FpnField(pgd[Pgn(addr)]) == 0
  {
    hide Pgn, Offst, PagingFpn, FpnField;
    AddressSplit(addr);
    PagingFpnExact(pgd[Pgn(addr)]);
  }

  // ----------------------------------------------------------------- accesses in runs

  /** In a state where every page of the area is mapped, as in every run without a failed
      mapping, an access below the end of the area takes no swap-in: a read changes nothing,
      a write one byte of the RAM. */
  lemma AccessBelowEnd(mm: Mm, s: Space, addr: Word, value: Byte)
    requires MappedOk(mm) && SpaceOk(s) && s.pgd == mm.pgd && s.fifo == mm.fifo && addr < mm.vmEnd
    ensures Fetch(s, addr) == (Some(s.ram[Phys(s.pgd, addr)]), s)
    ensures Store(s, addr, value) == (0, s.(ram := s.ram[Phys(s.pgd, addr) := value]))
  {
    hide Pgn, Offst, Present, Phys, SwapIn;
    AddressSplit(addr);
    MappedAt(mm, Pgn(addr));
  }

  /** Every byte of every live region lies on a present page below the end of the area. */
  lemma LiveBytesPresent(mm: Mm, id: nat, addr: Word)
    requires MappedOk(mm) && Parted(mm) && id in mm.live && id < SYMTBL_SZ && Covers(mm.sym[id], addr) == 1
    ensures addr < mm.vmEnd && Pgn(addr) == addr / 256 < Pages(mm)
    ensures mm.pgd[Pgn(addr)] != 0 && Present(mm.pgd[Pgn(addr)])
  {
    hide Pgn, Offst, Present, Swapped;
    AddressSplit(addr);
    LiveAtLeast(mm.sym, mm.live, |mm.sym|, id, addr);
    assert FreeAt(mm.free, addr) + LiveAt(mm.sym, mm.live, |mm.sym|, addr) <= 1;
  }

  lemma {:induction false} LiveAtLeast(sym: seq<Region>, live: set<nat>, n: nat, id: nat, b: nat)
    requires n <= |sym| && id < n && id in live
    ensures LiveAt(sym, live, n, b) >= Covers(sym[id], b)
    decreases n
  {
    if id < n - 1 { LiveAtLeast(sym, live, n - 1, id, b); }
  }

  /** In every run on a RAM of at most 256 frames, evictions and failed mappings included,
      all resident pages of all processes are read and written in frame 0. */
  lemma SmallRamCollapses(tr: seq<State>, ops: seq<Op>, nram: nat, nswp: nat, k: nat, pid: nat, addr: Word)
    requires IsRun(tr, ops, nram, nswp) && nram <= 256 && k < |tr| && pid < |tr[k].mms|
    requires Pgn(addr) in tr[k].mms[pid].fifo
    ensures Phys(tr[k].mms[pid].pgd, addr) == addr % 256
  {
    hide Pgn, Offst, PagingFpn, FpnField, IsRun;
    FramesExist(tr, ops, nram, nswp, k);
    var mm := tr[k].mms[pid];
    var i :| 0 <= i < |mm.fifo| && mm.fifo[i] == Pgn(addr);
    assert AllBelow(FramesOf(mm.pgd, mm.fifo), nram) && FramesOf(mm.pgd, mm.fifo)[i] < 256;
    AddressSplit(addr);
    PagingFpnExact(mm.pgd[Pgn(addr)]);
  }

  /** The access to an evicted page is not trapped: it reaches the frame that bits 3 and 4 of
      its swap slot name, and the page's bytes are elsewhere. */
  lemma EvictedReaches(pgd: Pgd, addr: Word, slot: nat)
    requires slot < MAX_SWPOFF
    ensures var pgd' := pgd[Pgn(addr) := SetSwap(pgd[Pgn(addr)], 0, slot)];
            Present(pgd'[Pgn(addr)]) && Phys(pgd', addr) == slot / 8 % 4 * 256 + addr % 256
  {
    hide Pgn, Offst, PagingFpn, SetSwap, Present, Swapped, SwpOff;
    AddressSplit(addr);
    SetSwapFacts(pgd[Pgn(addr)], slot);
    PagingFpnOfSlot(SetSwap(pgd[Pgn(addr)], 0, slot));
  }

  /** Where any page of any area lies, in every run whose allocations can be mapped: a
      resident page in the frame that bits 8 and 9 of its frame number name, an evicted one in
      the frame that bits 3 and 4 of its slot name.  On at most 256 frames that is frame 0 for
      exactly the resident pages and the pages in such a slot. */
  lemma PageReached(tr: seq<State>, ops: seq<Op>, nram: nat, nswp: nat, k: nat, pid: nat, addr: Word)
    requires IsRun(tr, ops, nram, nswp) && k < |tr| && pid < |tr[k].mms|
    requires forall i :: 0 <= i < k ==> Maps(tr[i], ops[i])
    requires addr < tr[k].mms[pid].vmEnd
    ensures var mm, p := tr[k].mms[pid], Pgn(addr);
            && (p in mm.fifo <==> !Swapped(mm.pgd[p]))
            && Phys(mm.pgd, addr)
               == (if p in mm.fifo then FpnField(mm.pgd[p]) / 256 % 4 else SwpOff(mm.pgd[p]) / 8 % 4) * 256 + addr % 256
            && (nram <= 256 ==>
                  (Phys(mm.pgd, addr) == addr % 256 <==> p in mm.fifo || SwpOff(mm.pgd[p]) / 8 % 4 == 0))
  {
    hide Pgn, Offst, PagingFpn, FpnField, SwpOff, Present, Swapped, IsRun, Books;
    Agreement(tr, ops, nram, nswp, k);
    assert Agrees(tr[k], nram, nswp);
    var mm := tr[k].mms[pid];
    AddressSplit(addr);
    MappedAt(mm, Pgn(addr));
    PagingFpnExact(mm.pgd[Pgn(addr)]);
    PagingFpnOfSlot(mm.pgd[Pgn(addr)]);
    if nram <= 256 && Pgn(addr) in mm.fifo {
      SmallRamCollapses(tr, ops, nram, nswp, k, pid, addr);
    }
  }
}
