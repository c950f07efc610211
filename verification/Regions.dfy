/**
 The virtual-space side of mm-vm.c on values: the free-region list with first fit, the
 symbol table, and the partition of [0, vmEnd) they keep.
 */
module Regions {
  import opened Prelude

  datatype Region = Region(start: nat, end: nat) {
    predicate Empty() { start >= end }
    function Size(): nat { if start <= end then end - start else 0 }
  }

  const SYMTBL_SZ: nat := 30

  predicate Fits(r: Region, size: nat) {
    r.start + size <= r.end
  }

  /** The index of the first region with room for `size`, or |free|. */
  function FirstFit(free: seq<Region>, size: nat): (i: nat)
    ensures i <= |free|
    ensures forall j :: 0 <= j < i ==> !Fits(free[j], size)
    ensures i < |free| ==> Fits(free[i], size)
  {
    if free == [] || Fits(free[0], size) then 0 else 1 + FirstFit(free[1..], size)
  }

  /** The list after `size` bytes are cut from the front of region i: a used-up region is
      removed, except that the last one of the list stays as an empty region. */
  function CutAt(free: seq<Region>, i: nat, size: nat): seq<Region>
    requires i < |free| && Fits(free[i], size)
  {
    var r := free[i];
    if r.start + size < r.end then free[i := Region(r.start + size, r.end)]
    else if i + 1 < |free| then free[..i] + free[i + 1..]
    else free[i := Region(r.end, r.end)]
  }

  /** Which regions are left: a used-up region with a successor leaves the list one shorter,
      the others in order; otherwise the list keeps its length, and only the region cut from
      changes, to the rest of it. */
  lemma CutExact(free: seq<Region>, i: nat, size: nat)
    requires i < |free| && Fits(free[i], size)
    ensures var r, left := free[i], CutAt(free, i, size);
            if r.start + size == r.end && i < |free| - 1 then
              && |left| == |free| - 1
              && forall j :: 0 <= j < |left| ==> left[j] == free[if j < i then j else j + 1]
            else
              && |left| == |free| && left[i].end == r.end && left[i].Size() == r.Size() - size
              && forall j :: 0 <= j < |left| && j != i ==> left[j] == free[j]
  {
    var r, left := free[i], CutAt(free, i, size);
    if r.start + size == r.end && i < |free| - 1 {
      Without(free, i, left);
    }
  }

  lemma Without(free: seq<Region>, i: nat, left: seq<Region>)
    requires i < |free| && left == free[..i] + free[i + 1..]
    ensures |left| == |free| - 1
    ensures forall j :: 0 <= j < |left| ==> left[j] == free[if j < i then j else j + 1]
  {
    forall j | 0 <= j < |left| ensures left[j] == free[if j < i then j else j + 1] {
      if j >= i { assert left[j] == free[i + 1..][j - i]; }
    }
  }

  /** get_free_vmrg_area: the region handed out and the list left behind. */
  function Take(free: seq<Region>, size: nat): Option<(Region, seq<Region>)> {
    var i := FirstFit(free, size);
    if i == |free| then None
    else Some((Region(free[i].start, free[i].start + size), CutAt(free, i, size)))
  }

  /** enlist_vm_freerg_list: an empty region is refused. */
  function Enlist(free: seq<Region>, r: Region): seq<Region> {
    if r.Empty() then free else [r] + free
  }

  // ----------------------------------------------------------------- coverage

  function Covers(r: Region, b: nat): nat {
    if r.start <= b < r.end then 1 else 0
  }

  /** How many regions of the list contain byte b. */
  function FreeAt(free: seq<Region>, b: nat): nat {
    if free == [] then 0 else FreeAt(free[..|free| - 1], b) + Covers(free[|free| - 1], b)
  }

  /** How many live symbols below n contain byte b. */
  function LiveAt(sym: seq<Region>, live: set<nat>, n: nat, b: nat): nat
    requires n <= |sym|
  {
    if n == 0 then 0 else LiveAt(sym, live, n - 1, b) + (if n - 1 in live then Covers(sym[n - 1], b) else 0)
  }

  lemma {:induction false} FreeAtConcat(x: seq<Region>, y: seq<Region>, b: nat)
    ensures FreeAt(x + y, b) == FreeAt(x, b) + FreeAt(y, b)
  {
    if y == [] {
      assert x + y == x;
    } else {
      var n := |y| - 1;
      assert (x + y)[..|x + y| - 1] == x + y[..n];
      FreeAtConcat(x, y[..n], b);
    }
  }

  lemma FreeAtOne(r: Region, b: nat)
    ensures FreeAt([r], b) == Covers(r, b)
  {
    assert [r][..0] == [];
  }

  lemma FreeAtSplit(free: seq<Region>, i: nat, b: nat)
    requires i < |free|
    ensures FreeAt(free, b) == FreeAt(free[..i], b) + Covers(free[i], b) + FreeAt(free[i + 1..], b)
  {
    assert free == free[..i] + ([free[i]] + free[i + 1..]);
    FreeAtConcat(free[..i], [free[i]] + free[i + 1..], b);
    FreeAtConcat([free[i]], free[i + 1..], b);
    FreeAtOne(free[i], b);
  }

  lemma FreeAtUpdate(free: seq<Region>, i: nat, r: Region, b: nat)
    requires i < |free|
    ensures FreeAt(free[i := r], b) == FreeAt(free, b) - Covers(free[i], b) + Covers(r, b)
  {
    FreeAtSplit(free, i, b);
    FreeAtSplit(free[i := r], i, b);
    assert free[i := r][..i] == free[..i] && free[i := r][i + 1..] == free[i + 1..];
  }

  /** Cutting moves bytes from the list to the region handed out, and loses none. */
  lemma CutCovers(free: seq<Region>, i: nat, size: nat, b: nat)
    requires i < |free| && Fits(free[i], size)
    ensures FreeAt(CutAt(free, i, size), b) + Covers(Region(free[i].start, free[i].start + size), b) == FreeAt(free, b)
  {
    var r := free[i];
    if r.start + size < r.end {
      FreeAtUpdate(free, i, Region(r.start + size, r.end), b);
    } else if i + 1 < |free| {
      FreeAtSplit(free, i, b);
      FreeAtConcat(free[..i], free[i + 1..], b);
    } else {
      FreeAtUpdate(free, i, Region(r.end, r.end), b);
    }
  }

  lemma EnlistCovers(free: seq<Region>, r: Region, b: nat)
    ensures FreeAt(Enlist(free, r), b) == FreeAt(free, b) + Covers(r, b)
  {
    FreeAtConcat([r], free, b);
    FreeAtOne(r, b);
  }

  lemma {:induction false} LiveAtUpdate(sym: seq<Region>, live: set<nat>, n: nat, i: nat, r: Region, b: nat)
    requires n <= |sym| && i < n
    ensures LiveAt(sym[i := r], live + {i}, n, b)
            == LiveAt(sym, live, n, b) - (if i in live then Covers(sym[i], b) else 0) + Covers(r, b)
    decreases n
  {
    if i < n - 1 {
      LiveAtUpdate(sym, live, n - 1, i, r, b);
    } else {
      LiveAtFrame(sym, live, sym[i := r], live + {i}, n - 1, b);
    }
  }

  lemma {:induction false} LiveAtFrame(sym: seq<Region>, live: set<nat>, sym': seq<Region>, live': set<nat>,
                                       n: nat, b: nat)
    requires n <= |sym| == |sym'|
    requires forall j :: 0 <= j < n ==> sym[j] == sym'[j] && (j in live <==> j in live')
    ensures LiveAt(sym, live, n, b) == LiveAt(sym', live', n, b)
    decreases n
  {
    if n > 0 { LiveAtFrame(sym, live, sym', live', n - 1, b); }
  }

  lemma {:induction false} LiveAtRemove(sym: seq<Region>, live: set<nat>, n: nat, i: nat, b: nat)
    requires n <= |sym| && i < n
    ensures LiveAt(sym, live - {i}, n, b) == LiveAt(sym, live, n, b) - (if i in live then Covers(sym[i], b) else 0)
    decreases n
  {
    if i < n - 1 {
      LiveAtRemove(sym, live, n - 1, i, b);
    } else {
      LiveAtFrame(sym, live, sym, live - {i}, n - 1, b);
    }
  }

  lemma {:induction false} LiveAtTwo(sym: seq<Region>, live: set<nat>, n: nat, i: nat, j: nat, b: nat)
    requires n <= |sym| && i < n && j < n && i != j && i in live && j in live
    ensures LiveAt(sym, live, n, b) >= Covers(sym[i], b) + Covers(sym[j], b)
  {
    LiveAtRemove(sym, live, n, i, b);
    LiveAtRemove(sym, live - {i}, n, j, b);
  }

  // ----------------------------------------------------------------- byte counts

  /** Total size of a list of regions. */
  function TotalFree(free: seq<Region>): nat {
    if free == [] then 0 else TotalFree(free[..|free| - 1]) + free[|free| - 1].Size()
  }

  function TotalLive(sym: seq<Region>, live: set<nat>, n: nat): nat
    requires n <= |sym|
  {
    if n == 0 then 0 else TotalLive(sym, live, n - 1) + (if n - 1 in live then sym[n - 1].Size() else 0)
  }

  /** Number of (byte below lim, region containing it) pairs. */
  function FreeBelow(free: seq<Region>, lim: nat): nat {
    if lim == 0 then 0 else FreeBelow(free, lim - 1) + FreeAt(free, lim - 1)
  }

  function LiveBelow(sym: seq<Region>, live: set<nat>, n: nat, lim: nat): nat
    requires n <= |sym|
  {
    if lim == 0 then 0 else LiveBelow(sym, live, n, lim - 1) + LiveAt(sym, live, n, lim - 1)
  }

  function CoversBelow(r: Region, lim: nat): nat {
    if lim == 0 then 0 else CoversBelow(r, lim - 1) + Covers(r, lim - 1)
  }

  lemma {:induction false} CoversBelowIs(r: Region, lim: nat)
    ensures CoversBelow(r, lim) ==
              if r.start >= r.end || lim <= r.start then 0 else (if lim < r.end then lim else r.end) - r.start
  {
    if lim > 0 { CoversBelowIs(r, lim - 1); }
  }

  lemma {:induction false} FreeBelowAdds(free: seq<Region>, lim: nat)
    requires free != []
    ensures FreeBelow(free, lim) == FreeBelow(free[..|free| - 1], lim) + CoversBelow(free[|free| - 1], lim)
    decreases lim
  {
    if lim > 0 { FreeBelowAdds(free, lim - 1); }
  }

  lemma {:induction false} FreeBelowEmpty(lim: nat)
    ensures FreeBelow([], lim) == 0
  {
    if lim > 0 { FreeBelowEmpty(lim - 1); }
  }

  lemma {:induction false} FreeBelowTotal(free: seq<Region>, lim: nat)
    requires forall i :: 0 <= i < |free| ==> free[i].end <= lim
    ensures FreeBelow(free, lim) == TotalFree(free)
    decreases |free|
  {
    if free == [] {
      FreeBelowEmpty(lim);
    } else {
      FreeBelowAdds(free, lim);
      FreeBelowTotal(free[..|free| - 1], lim);
      CoversBelowIs(free[|free| - 1], lim);
    }
  }

  lemma {:induction false} LiveBelowAdds(sym: seq<Region>, live: set<nat>, n: nat, lim: nat)
    requires 0 < n <= |sym|
    ensures LiveBelow(sym, live, n, lim)
            == LiveBelow(sym, live, n - 1, lim) + (if n - 1 in live then CoversBelow(sym[n - 1], lim) else 0)
    decreases lim
  {
    if lim > 0 { LiveBelowAdds(sym, live, n, lim - 1); }
  }

  lemma {:induction false} LiveBelowZero(sym: seq<Region>, live: set<nat>, lim: nat)
    ensures LiveBelow(sym, live, 0, lim) == 0
  {
    if lim > 0 { LiveBelowZero(sym, live, lim - 1); }
  }

  lemma {:induction false} LiveBelowTotal(sym: seq<Region>, live: set<nat>, n: nat, lim: nat)
    requires n <= |sym| && forall i :: 0 <= i < n && i in live ==> sym[i].end <= lim
    ensures LiveBelow(sym, live, n, lim) == TotalLive(sym, live, n)
    decreases n
  {
    if n == 0 {
      LiveBelowZero(sym, live, lim);
    } else {
      LiveBelowAdds(sym, live, n, lim);
      LiveBelowTotal(sym, live, n - 1, lim);
      CoversBelowIs(sym[n - 1], lim);
    }
  }

  // ----------------------------------------------------------------- the partition

  /** Every byte below vmEnd lies in exactly one region, free or live; none beyond does. */
  ghost predicate Partition(free: seq<Region>, sym: seq<Region>, live: set<nat>, vmEnd: nat) {
    forall b: nat :: FreeAt(free, b) + LiveAt(sym, live, |sym|, b) == if b < vmEnd then 1 else 0
  }

  /** The lists and the table stay inside the area. */
  predicate Bounded(free: seq<Region>, sym: seq<Region>, live: set<nat>, vmEnd: nat) {
    && free != []
    && (forall i :: 0 <= i < |free| ==> free[i].start <= free[i].end <= vmEnd)
    && (forall i :: 0 <= i < |sym| ==> sym[i].start <= sym[i].end <= vmEnd)
    && (forall i :: i in live ==> i < |sym|)
  }

  /** Two live regions never share a byte. */
  lemma LiveDisjoint(free: seq<Region>, sym: seq<Region>, live: set<nat>, vmEnd: nat, i: nat, j: nat, b: nat)
    requires Partition(free, sym, live, vmEnd)
    requires i < |sym| && j < |sym| && i != j && i in live && j in live
    ensures Covers(sym[i], b) + Covers(sym[j], b) <= 1
  {
    LiveAtTwo(sym, live, |sym|, i, j, b);
    assert FreeAt(free, b) + LiveAt(sym, live, |sym|, b) <= 1;
  }

  /** Bytes are conserved: the sizes of all regions add up to the area. */
  lemma BytesConserved(free: seq<Region>, sym: seq<Region>, live: set<nat>, vmEnd: nat)
    requires Partition(free, sym, live, vmEnd) && Bounded(free, sym, live, vmEnd)
    ensures TotalFree(free) + TotalLive(sym, live, |sym|) == vmEnd
  {
    PairsBelow(free, sym, live, vmEnd, vmEnd);
    FreeBelowTotal(free, vmEnd);
    LiveBelowTotal(sym, live, |sym|, vmEnd);
  }

  lemma {:induction false} PairsBelow(free: seq<Region>, sym: seq<Region>, live: set<nat>, vmEnd: nat, lim: nat)
    requires Partition(free, sym, live, vmEnd) && lim <= vmEnd
    ensures FreeBelow(free, lim) + LiveBelow(sym, live, |sym|, lim) == lim
    decreases lim
  {
    if lim > 0 {
      PairsBelow(free, sym, live, vmEnd, lim - 1);
      assert FreeAt(free, lim - 1) + LiveAt(sym, live, |sym|, lim - 1) == 1;
    }
  }

  /** An allocation from the free list keeps the partition exactly when it does not
      overwrite the table entry of a live, non-empty region. */
  lemma TakeKeepsPartition(free: seq<Region>, sym: seq<Region>, live: set<nat>, vmEnd: nat, id: nat, size: nat)
    requires Partition(free, sym, live, vmEnd) && Bounded(free, sym, live, vmEnd)
    requires id < |sym| && Take(free, size).Some?
    ensures var (r, free') := Take(free, size).value;
            && Bounded(free', sym[id := r], live + {id}, vmEnd)
            && (Partition(free', sym[id := r], live + {id}, vmEnd) <==> id !in live || sym[id].Empty())
  {
    var (r, free') := Take(free, size).value;
    var i := FirstFit(free, size);
    forall b: nat
      ensures FreeAt(free', b) + LiveAt(sym[id := r], live + {id}, |sym|, b)
              == (if b < vmEnd then 1 else 0) - (if id in live then Covers(sym[id], b) else 0)
    {
      CutCovers(free, i, size, b);
      LiveAtUpdate(sym, live, |sym|, id, r, b);
      assert FreeAt(free, b) + LiveAt(sym, live, |sym|, b) == if b < vmEnd then 1 else 0;
    }
    if id in live && !sym[id].Empty() {
      assert Covers(sym[id], sym[id].start) == 1;
    }
  }

  /** An allocation by extending the area from vmEnd to vmEnd' keeps the partition under the
      same condition. */
  lemma ExtendKeepsPartition(free: seq<Region>, sym: seq<Region>, live: set<nat>, vmEnd: nat, vmEnd': nat,
                             id: nat, size: nat)
    requires Partition(free, sym, live, vmEnd) && Bounded(free, sym, live, vmEnd)
    requires id < |sym| && vmEnd + size <= vmEnd'
    ensures var free' := Enlist(free, Region(vmEnd + size, vmEnd'));
            var sym' := sym[id := Region(vmEnd, vmEnd + size)];
            && Bounded(free', sym', live + {id}, vmEnd')
            && (Partition(free', sym', live + {id}, vmEnd') <==> id !in live || sym[id].Empty())
  {
    var rest := Region(vmEnd + size, vmEnd');
    var r := Region(vmEnd, vmEnd + size);
    forall b: nat
      ensures FreeAt(Enlist(free, rest), b) + LiveAt(sym[id := r], live + {id}, |sym|, b)
              == (if b < vmEnd' then 1 else 0) - (if id in live then Covers(sym[id], b) else 0)
    {
      EnlistCovers(free, rest, b);
      LiveAtUpdate(sym, live, |sym|, id, r, b);
      assert FreeAt(free, b) + LiveAt(sym, live, |sym|, b) == if b < vmEnd then 1 else 0;
    }
    if id in live && !sym[id].Empty() {
      assert Covers(sym[id], sym[id].start) == 1;
    }
  }

  /** Freeing keeps the partition exactly when the id is live or its region is empty: a
      second free of the same region puts its bytes on the list twice. */
  lemma FreeKeepsPartition(free: seq<Region>, sym: seq<Region>, live: set<nat>, vmEnd: nat, id: nat)
    requires Partition(free, sym, live, vmEnd) && Bounded(free, sym, live, vmEnd)
    requires id < |sym|
    ensures Bounded(Enlist(free, sym[id]), sym, live - {id}, vmEnd)
    ensures Partition(Enlist(free, sym[id]), sym, live - {id}, vmEnd) <==> id in live || sym[id].Empty()
  {
    forall b: nat
      ensures FreeAt(Enlist(free, sym[id]), b) + LiveAt(sym, live - {id}, |sym|, b)
              == (if b < vmEnd then 1 else 0) + (if id in live then 0 else Covers(sym[id], b))
    {
      EnlistCovers(free, sym[id], b);
      LiveAtRemove(sym, live, |sym|, id, b);
      assert FreeAt(free, b) + LiveAt(sym, live, |sym|, b) == if b < vmEnd then 1 else 0;
    }
    if id !in live && !sym[id].Empty() {
      assert Covers(sym[id], sym[id].start) == 1;
    }
  }
}
