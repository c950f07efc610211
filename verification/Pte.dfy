/** Page table entries and addresses: the fields of mm.h, and pte_set_fpn / pte_set_swap. */
module Pte {
  import opened Bits

  const PAGESZ: nat := 256
  const MAX_PGN: nat := 0x4000
  const MAX_FPN: nat := 0x2000
  const MAX_SWPOFF: nat := 0x20_0000

  /** The positions that mm.h writes with NBITS are these numbers. */
  lemma Positions()
    ensures Nbits(PAGESZ) == 8 && Nbits(0x400) == 10 && Nbits(0x4000) == 14
    ensures DivRoundUp(0x40_0000, PAGESZ) == MAX_PGN
  {
    assert Pow2(8) == PAGESZ;
    assert Pow2(10) == 0x400;
    assert Pow2(14) == 0x4000;
    NbitsOfPower(PAGESZ, 8);
    NbitsOfPower(0x400, 10);
    NbitsOfPower(0x4000, 14);
  }

  // PAGING_PAGE_PRESENT, and the same test of PAGING_PTE_SWAPPED_MASK.
  predicate Present(pte: Word) { AndW(pte, BitMask(31)) != 0 }
  predicate Swapped(pte: Word) { AndW(pte, BitMask(30)) != 0 }

  // The stored fields: PAGING_PTE_FPN_MASK and PAGING_PTE_SWPOFF_MASK.
  function FpnField(pte: Word): Word { GetVal(pte, GenMask(12, 0), 0) }
  function SwpOff(pte: Word): Word { GetVal(pte, GenMask(25, 5), 5) }

  // What the code reads: PAGING_FPN and PAGING_SWP.
  function PagingFpn(pte: Word): Word { GetVal(pte, GenMask(9, 8), 8) }
  function PagingSwp(pte: Word): Word { ShrW(AndW(pte, GenMask(13, 8)), 5) }

  // PAGING_PGN and PAGING_OFFST.
  function Pgn(addr: Word): (p: Word)
    ensures p < MAX_PGN
  {
    PageField(addr);
    GetVal(addr, GenMask(21, 8), 8)
  }

  function Offst(addr: Word): Word { GetVal(addr, GenMask(7, 0), 0) }

  function SetFpn(pte: Word, fpn: Word): Word {
    SetVal(ClrBit(SetBit(pte, BitMask(31)), BitMask(30)), fpn, GenMask(12, 0), 0)
  }

  function SetSwap(pte: Word, swptyp: Word, swpoff: Word): Word {
    SetVal(SetVal(SetBit(SetBit(pte, BitMask(31)), BitMask(30)), swptyp, GenMask(4, 0), 0),
           swpoff, GenMask(25, 5), 5)
  }

  /** Testing one mask bit reads one digit. */
  lemma TestBit(v: Word, nr: nat)
    requires nr < 32
    ensures AndW(v, BitMask(nr)) != 0 <==> Bit(v, nr)
  {
    hide Bit, BitMask;
    var a := AndW(v, BitMask(nr));
    forall i: nat | i < 32 ensures Bit(a, i) <==> i == nr && Bit(v, nr) {
      BitAnd(v, BitMask(nr), i);
      BitBitMask(nr, i);
    }
    BitZero(nr);
    if !Bit(v, nr) {
      forall i: nat | i < 32 ensures Bit(a, i) <==> Bit(0, i) { BitZero(i); }
      WordsEqual(a, 0);
    }
  }

  lemma BitSetFpn(pte: Word, fpn: Word, i: nat)
    requires i < 32
    ensures Bit(SetFpn(pte, fpn), i) <==>
              if i <= 12 then Bit(fpn, i) else i == 31 || (i != 30 && Bit(pte, i))
  {
    hide SetBit, ClrBit, SetVal, GenMask, BitMask, Bit;
    var p1 := SetBit(pte, BitMask(31));
    var p2 := ClrBit(p1, BitMask(30));
    BitSetBit(pte, 31, i);
    BitClrBit(p1, 30, i);
    BitSetVal(p2, fpn, 12, 0, i);
  }

  lemma BitSetSwap(pte: Word, swptyp: Word, swpoff: Word, i: nat)
    requires i < 32
    ensures Bit(SetSwap(pte, swptyp, swpoff), i) <==>
              if i <= 4 then Bit(swptyp, i) else if i <= 25 then Bit(swpoff, i - 5)
              else i == 30 || i == 31 || Bit(pte, i)
  {
    hide SetBit, SetVal, GenMask, BitMask, Bit;
    var p1 := SetBit(pte, BitMask(31));
    var p2 := SetBit(p1, BitMask(30));
    var p3 := SetVal(p2, swptyp, GenMask(4, 0), 0);
    BitSetBit(pte, 31, i);
    BitSetBit(p1, 30, i);
    BitSetVal(p2, swptyp, 4, 0, i);
    BitSetVal(p3, swpoff, 25, 5, i);
  }

  /** An entry written by pte_set_fpn is present, not swapped, non-zero and holds the frame
      number, whatever it held before. */
  lemma SetFpnFacts(pte: Word, fpn: Word)
    requires fpn < MAX_FPN
    ensures Present(SetFpn(pte, fpn)) && !Swapped(SetFpn(pte, fpn)) && SetFpn(pte, fpn) != 0
    ensures FpnField(SetFpn(pte, fpn)) == fpn
  {
    var r := SetFpn(pte, fpn);
    TestBit(r, 31);
    TestBit(r, 30);
    BitSetFpn(pte, fpn, 31);
    BitSetFpn(pte, fpn, 30);
    BitZero(31);
    FieldRoundTrip(ClrBit(SetBit(pte, BitMask(31)), BitMask(30)), fpn, 12, 0);
    assert Pow2(8) == 256 && Pow2(13) == MAX_FPN;
    LowFits(fpn, 13);
  }

  lemma SwpOffRoundTrip(v: Word, swpoff: Word)
    requires swpoff < MAX_SWPOFF
    ensures GetVal(SetVal(v, swpoff, GenMask(25, 5), 5), GenMask(25, 5), 5) == swpoff
  {
    hide GetVal, SetVal, GenMask;
    FieldRoundTrip(v, swpoff, 25, 5);
    assert Pow2(10) == 0x400;
    assert Pow2(21) == MAX_SWPOFF;
    LowFits(swpoff, 21);
  }

  /** An entry written by pte_set_swap is marked swapped and holds the swap slot.  It is
      also marked present: the page will never be found missing. */
  lemma SetSwapFacts(pte: Word, swpoff: Word)
    requires swpoff < MAX_SWPOFF
    ensures Present(SetSwap(pte, 0, swpoff)) && Swapped(SetSwap(pte, 0, swpoff)) && SetSwap(pte, 0, swpoff) != 0
    ensures SwpOff(SetSwap(pte, 0, swpoff)) == swpoff
  {
    var r := SetSwap(pte, 0, swpoff);
    TestBit(r, 31);
    TestBit(r, 30);
    BitSetSwap(pte, 0, swpoff, 31);
    BitSetSwap(pte, 0, swpoff, 30);
    BitZero(31);
    SwpOffRoundTrip(SetVal(SetBit(SetBit(pte, BitMask(31)), BitMask(30)), 0, GenMask(4, 0), 0), swpoff);
  }

  lemma Byte(v: nat)
    ensures Shr(v, 8) == v / 256 && Low(v, 8) == v % 256
  {
    assert Pow2(4) == 16;
    assert Pow2(8) == 256;
    Split(v, 8);
  }

  lemma TwoBits(v: nat)
    ensures Low(v, 2) == v % 4
  {
    assert Pow2(2) == 4;
    Split(v, 2);
  }

  /** What PAGING_FPN reads is bits 8 and 9 of the stored frame number. */
  lemma PagingFpnReads(pte: Word)
    ensures PagingFpn(pte) == Low(Shr(FpnField(pte), 8), 2)
  {
    hide GetVal, GenMask, Bit;
    var f := FpnField(pte);
    var r := Low(Shr(f, 8), 2);
    LowBound(Shr(f, 8), 2);
    ShrBound(f, 8);
    forall i: nat | i < 32 ensures Bit(PagingFpn(pte), i) <==> Bit(r, i) {
      BitGetVal(pte, 9, 8, i);
      BitLow(Shr(f, 8), 2, i);
      BitShr(f, 8, i);
      BitGetVal(pte, 12, 0, i + 8);
    }
    WordsEqual(PagingFpn(pte), r);
  }

  /** PAGING_FPN gives back the frame number stored by pte_set_fpn exactly for frame 0.  For
      every other frame it names a different frame, below it and below 4. */
  lemma PagingFpnExact(pte: Word)
    ensures PagingFpn(pte) == FpnField(pte) <==> FpnField(pte) == 0
    ensures PagingFpn(pte) == FpnField(pte) / 256 % 4
    ensures PagingFpn(pte) <= FpnField(pte) && PagingFpn(pte) < 4
  {
    PagingFpnReads(pte);
    Byte(FpnField(pte));
    TwoBits(FpnField(pte) / 256);
    SmallRead(FpnField(pte));
  }

  lemma SmallRead(f: nat)
    ensures f / 256 % 4 == f <==> f == 0
    ensures f / 256 % 4 <= f
  {}

  lemma BitEightfold(x: nat, i: nat)
    ensures Bit(8 * x, i) <==> i >= 3 && Bit(x, i - 3)
  {
    BitDouble(4 * x, i);
    if i >= 1 { BitDouble(2 * x, i - 1); }
    if i >= 2 { BitDouble(x, i - 2); }
  }

  /** What PAGING_SWP reads is bits 3 to 8 of the stored swap slot, at their places. */
  lemma PagingSwpReads(pte: Word)
    ensures PagingSwp(pte) == 8 * Low(Shr(SwpOff(pte), 3), 6)
  {
    hide GetVal, GenMask, Bit, Shr, And;
    var x, m := Low(Shr(SwpOff(pte), 3), 6), AndW(pte, GenMask(13, 8));
    assert Pow2(6) == 64;
    forall i: nat | i < 32 ensures Bit(PagingSwp(pte), i) <==> Bit(8 * x, i) {
      BitShr(m, 5, i);
      BitAnd(pte, GenMask(13, 8), i + 5);
      if i + 5 < 32 { BitGenMask(13, 8, i + 5); } else { Word32(); BitHigh(m, 32, i + 5); }
      BitEightfold(x, i);
      if i >= 3 {
        BitLow(Shr(SwpOff(pte), 3), 6, i - 3);
        BitShr(SwpOff(pte), 3, i - 3);
        BitGetVal(pte, 25, 5, i);
      }
    }
    WordsEqual(PagingSwp(pte), 8 * x);
  }

  /** PAGING_SWP gives back the slot stored by pte_set_swap exactly for the multiples of 8
      below 512. */
  lemma PagingSwpExact(pte: Word)
    ensures PagingSwp(pte) == SwpOff(pte) <==> SwpOff(pte) % 8 == 0 && SwpOff(pte) < 512
  {
    hide PagingSwp, SwpOff, Shr, Low;
    PagingSwpReads(pte);
    SlotDigits(SwpOff(pte));
  }

  /** Of a swapped entry PAGING_FPN reads bits 3 and 4 of the slot. */
  lemma PagingFpnOfSlot(pte: Word)
    ensures PagingFpn(pte) == SwpOff(pte) / 8 % 4
  {
    hide GetVal, GenMask, Bit, Shr;
    var r := Low(Shr(SwpOff(pte), 3), 2);
    LowBound(Shr(SwpOff(pte), 3), 2);
    ShrBound(SwpOff(pte), 3);
    forall i: nat | i < 32 ensures Bit(PagingFpn(pte), i) <==> Bit(r, i) {
      BitGetVal(pte, 9, 8, i);
      BitLow(Shr(SwpOff(pte), 3), 2, i);
      BitShr(SwpOff(pte), 3, i);
      BitGetVal(pte, 25, 5, i + 3);
    }
    WordsEqual(PagingFpn(pte), r);
    Eighth(SwpOff(pte));
    TwoBits(SwpOff(pte) / 8);
  }

  lemma SlotDigits(v: nat)
    ensures Low(Shr(v, 3), 6) == v / 8 % 64
  {
    hide Low, Shr;
    Eighth(v);
    SixDigits(v / 8);
  }

  lemma Eighth(v: nat)
    ensures Shr(v, 3) == v / 8
  {
    hide Low, Shr;
    assert Pow2(3) == 8;
    Split(v, 3);
  }

  lemma SixDigits(v: nat)
    ensures Low(v, 6) == v % 64
  {
    hide Low, Shr;
    assert Pow2(3) == 8 && Pow2(6) == 64;
    Split(v, 6);
  }

  /** PAGING_PGN of any 32-bit word, as digits. */
  lemma PageField(addr: Word)
    ensures GetVal(addr, GenMask(21, 8), 8) == Low(Shr(addr, 8), 14) < MAX_PGN
  {
    hide GetVal, GenMask, Bit;
    ShrBound(addr, 8);
    LowBound(Shr(addr, 8), 14);
    forall i: nat | i < 32 ensures Bit(GetVal(addr, GenMask(21, 8), 8), i) <==> Bit(Low(Shr(addr, 8), 14), i) {
      BitGetVal(addr, 21, 8, i);
      BitShr(addr, 8, i);
      BitLow(Shr(addr, 8), 14, i);
    }
    WordsEqual(GetVal(addr, GenMask(21, 8), 8), Low(Shr(addr, 8), 14));
    PageDigits(Shr(addr, 8));
  }

  lemma OffsetField(addr: Word)
    ensures Offst(addr) == Low(addr, 8)
  {
    hide GetVal, GenMask, Bit;
    LowBound(addr, 8);
    forall i: nat | i < 32 ensures Bit(Offst(addr), i) <==> Bit(Low(addr, 8), i) {
      BitGetVal(addr, 7, 0, i);
      BitLow(addr, 8, i);
    }
    WordsEqual(Offst(addr), Low(addr, 8));
  }

  lemma PageDigits(v: nat)
    ensures Low(v, 14) == v % MAX_PGN
  {
    assert Pow2(7) == 128;
    assert Pow2(14) == MAX_PGN;
    Split(v, 14);
  }

  /** Page number and offset put together are the address, as far as the 22-bit bus goes:
      bits 22 and up of the word are ignored. */
  lemma AddressSplit(addr: Word)
    ensures Pgn(addr) * PAGESZ + Offst(addr) == addr % 0x40_0000
    ensures Pgn(addr) == addr / PAGESZ % MAX_PGN && Offst(addr) == addr % PAGESZ
  {
    hide Offst, Low, Shr, GetVal, GenMask;
    PageField(addr);
    OffsetField(addr);
    Byte(addr);
    PageDigits(addr / PAGESZ);
    BusSplit(addr);
  }

  lemma BusSplit(addr: nat)
    ensures addr / 256 % 0x4000 * 256 + addr % 256 == addr % 0x40_0000
  {}
}
