/**
 The physical side of mm.c on values: alloc_pages_range in closed form, the mapping of the
 frames it yields, and what both do to page table, FIFO list and free lists.
 */
module Frames {
  import opened Prelude
  import opened Bits
  import opened Pte

  type Pgd = p: seq<Word> | |p| == MAX_PGN witness seq(MAX_PGN, _ => 0)

  /** The free list MEMPHY_format builds for n frames. */
  function Range(n: nat): (r: seq<nat>)
    ensures |r| == n && forall i :: 0 <= i < n ==> r[i] == i
  {
    seq(n, i requires 0 <= i < n => i)
  }

  /** The FIFO list, newest first: distinct page numbers below `pages`. */
  ghost predicate FifoOk(fifo: seq<nat>, pages: nat) {
    && pages <= MAX_PGN
    && NoDup(fifo)
    && forall i :: 0 <= i < |fifo| ==> fifo[i] < pages
  }

  /** The m oldest pages, oldest first, as find_victim_page returns them one by one. */
  function Victims(fifo: seq<nat>, m: nat): (v: seq<nat>)
    requires m <= |fifo|
    ensures |v| == m
  {
    seq(m, i requires 0 <= i < m => fifo[|fifo| - 1 - i])
  }

  /** The entries of the victims once marked swapped, one swap slot each. */
  function SwapEntries(pgd: Pgd, victims: seq<nat>, slots: seq<nat>): (r: seq<Word>)
    requires |victims| == |slots|
    requires forall i :: 0 <= i < |victims| ==> victims[i] < MAX_PGN && slots[i] < MAX_SWPOFF
    ensures |r| == |victims| && forall i :: 0 <= i < |r| ==> r[i] == SetSwap(pgd[victims[i]], 0, slots[i])
  {
    seq(|victims|, i requires 0 <= i < |victims| => SetSwap(pgd[victims[i]], 0, slots[i]))
  }

  /** The page table after the entries `what` were written at `at`, in order. */
  function WriteAll(pgd: Pgd, at: seq<nat>, what: seq<Word>): (r: Pgd)
    requires |at| == |what| && forall i :: 0 <= i < |at| ==> at[i] < MAX_PGN
  {
    if at == [] then pgd
    else WriteAll(pgd, at[..|at| - 1], what[..|at| - 1])[at[|at| - 1] := what[|at| - 1]]
  }

  /** Page table after the victims were marked swapped. */
  function SwapOut(pgd: Pgd, victims: seq<nat>, slots: seq<nat>): Pgd
    requires |victims| == |slots|
    requires forall i :: 0 <= i < |victims| ==> victims[i] < MAX_PGN && slots[i] < MAX_SWPOFF
  {
    WriteAll(pgd, victims, SwapEntries(pgd, victims, slots))
  }

  /** The frames the victims are believed to occupy: PAGING_FPN of their entries. */
  function VictimFrames(pgd: Pgd, victims: seq<nat>): (r: seq<nat>)
    requires forall i :: 0 <= i < |victims| ==> victims[i] < MAX_PGN
    ensures |r| == |victims| && forall i :: 0 <= i < |r| ==> r[i] == PagingFpn(pgd[victims[i]])
  {
    seq(|victims|, i requires 0 <= i < |victims| => PagingFpn(pgd[victims[i]]))
  }

  function Min(a: nat, b: nat): nat { if a < b then a else b }

  /** How many of n requests the free list cannot serve. */
  function Shortfall(n: nat, ram: seq<nat>): nat {
    if n > |ram| then n - |ram| else 0
  }

  /** The first n frames obtained: free frames first, then victims' frames. */
  function Obtained(n: nat, pgd: Pgd, fifo: seq<nat>, ram: seq<nat>): (r: seq<nat>)
    requires Shortfall(n, ram) <= |fifo| && forall i :: 0 <= i < |fifo| ==> fifo[i] < MAX_PGN
    ensures |r| == n
  {
    ram[..Min(n, |ram|)] + VictimFrames(pgd, Victims(fifo, Shortfall(n, ram)))
  }

  function Reverse(s: seq<nat>): (r: seq<nat>)
    ensures |r| == |s| && forall i :: 0 <= i < |s| ==> r[i] == s[|s| - 1 - i]
  {
    seq(|s|, i requires 0 <= i < |s| => s[|s| - 1 - i])
  }

  datatype Grab = Grab(code: int, frames: seq<nat>, pgd: Pgd, fifo: seq<nat>, ram: seq<nat>, swp: seq<nat>)

  predicate SlotsOk(swp: seq<nat>) {
    forall i :: 0 <= i < |swp| ==> swp[i] < MAX_SWPOFF
  }

  predicate PagesOk(fifo: seq<nat>) {
    forall i :: 0 <= i < |fifo| ==> fifo[i] < MAX_PGN
  }

  /** State after n frames were obtained, m of them by eviction. */
  function Partial(n: nat, pgd: Pgd, fifo: seq<nat>, ram: seq<nat>, swp: seq<nat>): (g: Grab)
    requires PagesOk(fifo) && SlotsOk(swp)
    requires Shortfall(n, ram) <= |fifo| && Shortfall(n, ram) <= |swp|
  {
    var m := Shortfall(n, ram);
    Grab(0, Reverse(Obtained(n, pgd, fifo, ram)), SwapOut(pgd, Victims(fifo, m), swp[..m]),
         fifo[..|fifo| - m], ram[Min(n, |ram|)..], swp[m..])
  }

  /** alloc_pages_range with an empty frame list: code 0 and all frames, or an error code and
      the damage done before the failing eviction.  The failing eviction itself has already
      taken its victim off the FIFO list when only the swap slot is missing. */
  function AllocPages(req: nat, pgd: Pgd, fifo: seq<nat>, ram: seq<nat>, swp: seq<nat>): (g: Grab)
    requires PagesOk(fifo) && SlotsOk(swp)
  {
    var k := Shortfall(req, ram);
    var m := Min(|fifo|, |swp|);
    if k <= m then Partial(req, pgd, fifo, ram, swp)
    else
      var p := Partial(|ram| + m, pgd, fifo, ram, swp);
      p.(code := if |ram| + m == 0 then -1 else -3000, frames := [],
         fifo := if p.fifo == [] then [] else p.fifo[..|p.fifo| - 1])
  }

  /** Exact success condition of alloc_pages_range.  With k frames missing from the free
      list it succeeds if and only if k pages can be evicted and k swap slots are free; then
      it yields exactly `req` frames and evicts exactly the k oldest resident pages. */
  lemma AllocPagesExact(req: nat, pgd: Pgd, fifo: seq<nat>, ram: seq<nat>, swp: seq<nat>, pages: nat)
    requires FifoOk(fifo, pages) && SlotsOk(swp)
    ensures var g, k := AllocPages(req, pgd, fifo, ram, swp), Shortfall(req, ram);
            && (g.code == 0 <==> k <= |fifo| && k <= |swp|)
            && (g.code == 0 ==>
                  && |g.frames| == req
                  && g.fifo + Reverse(Victims(fifo, k)) == fifo
                  && ram[..req - k] + g.ram == ram && swp[..k] + g.swp == swp
                  && (forall p :: 0 <= p < MAX_PGN && p !in Victims(fifo, k) ==> g.pgd[p] == pgd[p])
                  && (forall i :: 0 <= i < k ==>
                        g.pgd[Victims(fifo, k)[i]] == SetSwap(pgd[Victims(fifo, k)[i]], 0, swp[i])))
  {
    hide SetSwap, PagingFpn, SwapOut, Obtained;
    var k := Shortfall(req, ram);
    if k <= |fifo| && k <= |swp| {
      VictimsAreTheRest(fifo, k);
      SwapOutExact(pgd, fifo, swp, k, pages);
    }
  }

  lemma SwapOutExact(pgd: Pgd, fifo: seq<nat>, swp: seq<nat>, k: nat, pages: nat)
    requires FifoOk(fifo, pages) && SlotsOk(swp) && k <= |fifo| && k <= |swp|
    ensures var v, r := Victims(fifo, k), SwapOut(pgd, Victims(fifo, k), swp[..k]);
            && (forall p :: 0 <= p < MAX_PGN && p !in v ==> r[p] == pgd[p])
            && (forall i :: 0 <= i < k ==> r[v[i]] == SetSwap(pgd[v[i]], 0, swp[i]))
  {
    hide SetSwap;
    VictimsDistinct(fifo, k);
    WritePoint(pgd, Victims(fifo, k), SwapEntries(pgd, Victims(fifo, k), swp[..k]));
  }

  lemma VictimsAreTheRest(fifo: seq<nat>, m: nat)
    requires m <= |fifo|
    ensures fifo[..|fifo| - m] + Reverse(Victims(fifo, m)) == fifo
  {}

  lemma VictimsDistinct(fifo: seq<nat>, m: nat)
    requires NoDup(fifo) && m <= |fifo|
    ensures NoDup(Victims(fifo, m))
    ensures forall p :: p in fifo <==> p in fifo[..|fifo| - m] || p in Victims(fifo, m)
    ensures forall p :: p in Victims(fifo, m) ==> p !in fifo[..|fifo| - m]
  {
    var v := Victims(fifo, m);
    forall p ensures p in fifo <==> p in fifo[..|fifo| - m] || p in v {
      if p in fifo {
        var i :| 0 <= i < |fifo| && fifo[i] == p;
        if i < |fifo| - m {
          assert fifo[..|fifo| - m][i] == p;
        } else {
          assert v[|fifo| - 1 - i] == p;
        }
      }
    }
  }

  /** WriteAll entry by entry, for distinct positions. */
  lemma {:induction false} WritePoint(pgd: Pgd, at: seq<nat>, what: seq<Word>)
    requires |at| == |what| && NoDup(at) && forall i :: 0 <= i < |at| ==> at[i] < MAX_PGN
    ensures forall p :: 0 <= p < MAX_PGN && p !in at ==> WriteAll(pgd, at, what)[p] == pgd[p]
    ensures forall i :: 0 <= i < |at| ==> WriteAll(pgd, at, what)[at[i]] == what[i]
    decreases |at|
  {
    if at != [] {
      var n := |at| - 1;
      WritePoint(pgd, at[..n], what[..n]);
      forall i | 0 <= i < n ensures WriteAll(pgd, at, what)[at[i]] == what[i] {
        assert at[..n][i] == at[i] && what[..n][i] == what[i];
      }
      forall p | 0 <= p < MAX_PGN && p !in at ensures WriteAll(pgd, at, what)[p] == pgd[p] {
        assert p !in at[..n];
      }
    }
  }

  /** One turn of the allocation loop while the free list lasts. */
  lemma PartialFree(n: nat, pgd: Pgd, fifo: seq<nat>, ram: seq<nat>, swp: seq<nat>)
    requires PagesOk(fifo) && SlotsOk(swp) && n < |ram|
    ensures var a, b := Partial(n, pgd, fifo, ram, swp), Partial(n + 1, pgd, fifo, ram, swp);
            && a.ram != [] && b.frames == [a.ram[0]] + a.frames && b.ram == a.ram[1..]
            && b.pgd == a.pgd == pgd && b.fifo == a.fifo == fifo && b.swp == a.swp == swp
  {
    assert Obtained(n + 1, pgd, fifo, ram) == Obtained(n, pgd, fifo, ram) + [ram[n]];
    ReverseSnoc(Obtained(n, pgd, fifo, ram), ram[n]);
  }

  lemma PartialStart(pgd: Pgd, fifo: seq<nat>, ram: seq<nat>, swp: seq<nat>)
    requires PagesOk(fifo) && SlotsOk(swp)
    ensures Partial(0, pgd, fifo, ram, swp) == Grab(0, [], pgd, fifo, ram, swp)
  {
    assert Obtained(0, pgd, fifo, ram) == [];
  }

  lemma ReverseSnoc(s: seq<nat>, x: nat)
    ensures Reverse(s + [x]) == [x] + Reverse(s)
  {}

  /** One turn of the allocation loop with an eviction. */
  lemma PartialEvict(n: nat, pgd: Pgd, fifo: seq<nat>, ram: seq<nat>, swp: seq<nat>, pages: nat)
    requires FifoOk(fifo, pages) && SlotsOk(swp) && |ram| <= n
    requires n - |ram| < |fifo| && n - |ram| < |swp|
    ensures var a, b := Partial(n, pgd, fifo, ram, swp), Partial(n + 1, pgd, fifo, ram, swp);
            && a.fifo != [] && a.swp != [] && a.ram == [] && b.ram == []
            && var v := a.fifo[|a.fifo| - 1];
               && v < MAX_PGN && a.swp[0] < MAX_SWPOFF && a.pgd[v] == pgd[v]
               && b.frames == [PagingFpn(a.pgd[v])] + a.frames
               && b.pgd == a.pgd[v := SetSwap(a.pgd[v], 0, a.swp[0])]
               && b.fifo == a.fifo[..|a.fifo| - 1] && b.swp == a.swp[1..]
  {
    hide SetSwap, PagingFpn;
    var m := n - |ram|;
    var v := fifo[|fifo| - 1 - m];
    EvictEntries(pgd, fifo, swp, m, pages);
    ObtainedEvict(n, pgd, fifo, ram);
    ReverseSnoc(Obtained(n, pgd, fifo, ram), PagingFpn(pgd[v]));
  }

  lemma ObtainedEvict(n: nat, pgd: Pgd, fifo: seq<nat>, ram: seq<nat>)
    requires PagesOk(fifo) && |ram| <= n && n - |ram| < |fifo|
    ensures Obtained(n + 1, pgd, fifo, ram)
            == Obtained(n, pgd, fifo, ram) + [PagingFpn(pgd[fifo[|fifo| - 1 - (n - |ram|)]])]
  {
    hide PagingFpn;
    var m := n - |ram|;
    var a, b := Victims(fifo, m), Victims(fifo, m + 1);
    assert b == a + [fifo[|fifo| - 1 - m]];
    VictimFramesSnoc(pgd, a, fifo[|fifo| - 1 - m]);
  }

  lemma VictimFramesSnoc(pgd: Pgd, v: seq<nat>, p: nat)
    requires p < MAX_PGN && forall i :: 0 <= i < |v| ==> v[i] < MAX_PGN
    ensures VictimFrames(pgd, v + [p]) == VictimFrames(pgd, v) + [PagingFpn(pgd[p])]
  {}

  lemma EvictEntries(pgd: Pgd, fifo: seq<nat>, swp: seq<nat>, m: nat, pages: nat)
    requires FifoOk(fifo, pages) && SlotsOk(swp) && m < |fifo| && m < |swp|
    ensures var a, v := SwapOut(pgd, Victims(fifo, m), swp[..m]), fifo[|fifo| - 1 - m];
            && a[v] == pgd[v]
            && SwapOut(pgd, Victims(fifo, m + 1), swp[..m + 1]) == a[v := SetSwap(a[v], 0, swp[m])]
  {
    VictimsDistinct(fifo, m);
    var at, v := Victims(fifo, m), fifo[|fifo| - 1 - m];
    WritePoint(pgd, at, SwapEntries(pgd, at, swp[..m]));
    assert v in fifo[..|fifo| - m] by { assert fifo[..|fifo| - m][|fifo| - 1 - m] == v; }
    var at' := Victims(fifo, m + 1);
    assert at'[..m] == at && at'[m] == v;
    assert SwapEntries(pgd, at', swp[..m + 1])[..m] == SwapEntries(pgd, at, swp[..m]);
  }

  /** One turn of the loop of alloc_pages_range, on the state so far; a code other than 0
      ends the loop. */
  function Turn(g: Grab): Grab
    requires PagesOk(g.fifo) && SlotsOk(g.swp)
  {
    if g.ram != [] then g.(frames := [g.ram[0]] + g.frames, ram := g.ram[1..])
    else if g.fifo == [] || g.swp == [] then
      g.(code := if g.frames == [] then -1 else -3000, frames := [],
         fifo := if g.fifo == [] then [] else g.fifo[..|g.fifo| - 1])
    else
      var v := g.fifo[|g.fifo| - 1];
      g.(frames := [PagingFpn(g.pgd[v])] + g.frames, pgd := g.pgd[v := SetSwap(g.pgd[v], 0, g.swp[0])],
         fifo := g.fifo[..|g.fifo| - 1], swp := g.swp[1..])
  }

  /** At most n turns. */
  function Turns(n: nat, g: Grab): Grab
    requires PagesOk(g.fifo) && SlotsOk(g.swp)
  {
    if n == 0 then g
    else
      var h := Turn(g);
      if h.code != 0 then h else Turns(n - 1, h)
  }

  lemma TurnAt(n: nat, pgd: Pgd, fifo: seq<nat>, ram: seq<nat>, swp: seq<nat>)
    requires FifoOk(fifo, MAX_PGN) && SlotsOk(swp)
    requires Shortfall(n + 1, ram) <= |fifo| && Shortfall(n + 1, ram) <= |swp|
    ensures Turn(Partial(n, pgd, fifo, ram, swp)) == Partial(n + 1, pgd, fifo, ram, swp)
  {
    if n < |ram| {
      PartialFree(n, pgd, fifo, ram, swp);
    } else {
      PartialEvict(n, pgd, fifo, ram, swp, MAX_PGN);
    }
  }

  lemma TurnFails(req: nat, n: nat, pgd: Pgd, fifo: seq<nat>, ram: seq<nat>, swp: seq<nat>)
    requires PagesOk(fifo) && SlotsOk(swp) && |ram| <= n < req && n - |ram| == Min(|fifo|, |swp|)
    ensures var g := Turn(Partial(n, pgd, fifo, ram, swp));
            g.code != 0 && g == AllocPages(req, pgd, fifo, ram, swp)
  {
    hide SetSwap, PagingFpn;
  }

  lemma TurnsStep(left: nat, g: Grab, h: Grab)
    requires PagesOk(g.fifo) && SlotsOk(g.swp) && left > 0 && h == Turn(g)
    ensures PagesOk(h.fifo) && SlotsOk(h.swp) && Turns(left, g) == if h.code != 0 then h else Turns(left - 1, h)
  {}

  /** n frames can be obtained, m of them by eviction. */
  ghost predicate Affords(n: nat, fifo: seq<nat>, ram: seq<nat>, swp: seq<nat>) {
    FifoOk(fifo, MAX_PGN) && SlotsOk(swp) && Shortfall(n, ram) <= |fifo| && Shortfall(n, ram) <= |swp|
  }

  lemma PartialShape(n: nat, pgd: Pgd, fifo: seq<nat>, ram: seq<nat>, swp: seq<nat>)
    requires Affords(n, fifo, ram, swp)
    ensures var g := Partial(n, pgd, fifo, ram, swp);
            g.code == 0 && PagesOk(g.fifo) && SlotsOk(g.swp)
            && g == AllocPages(n, pgd, fifo, ram, swp)
  {}

  lemma NextTurn(req: nat, n: nat, pgd: Pgd, fifo: seq<nat>, ram: seq<nat>, swp: seq<nat>)
    requires Affords(n, fifo, ram, swp) && n < req
    ensures var h := AllocPages(n, pgd, fifo, ram, swp);
            && PagesOk(h.fifo) && SlotsOk(h.swp)
            && if Affords(n + 1, fifo, ram, swp)
               then Turn(h).code == 0 && Turn(h) == AllocPages(n + 1, pgd, fifo, ram, swp)
               else Turn(h).code != 0 && Turn(h) == AllocPages(req, pgd, fifo, ram, swp)
  {
    PartialShape(n, pgd, fifo, ram, swp);
    if Affords(n + 1, fifo, ram, swp) {
      TurnAt(n, pgd, fifo, ram, swp);
      PartialShape(n + 1, pgd, fifo, ram, swp);
    } else {
      TurnFails(req, n, pgd, fifo, ram, swp);
    }
  }

  /** The loop of alloc_pages_range and the closed form, from n frames on. */
  lemma {:induction false} TurnsFrom(req: nat, n: nat, g: Grab, pgd: Pgd, fifo: seq<nat>, ram: seq<nat>, swp: seq<nat>)
    requires Affords(n, fifo, ram, swp) && n <= req && PagesOk(g.fifo) && SlotsOk(g.swp)
    requires g == AllocPages(n, pgd, fifo, ram, swp)
    ensures Turns(req - n, g) == AllocPages(req, pgd, fifo, ram, swp)
    decreases req - n
  {
    hide AllocPages, Turn, Affords;
    if n < req {
      var h := Turn(g);
      NextTurn(req, n, pgd, fifo, ram, swp);
      TurnsStep(req - n, g, h);
      if Affords(n + 1, fifo, ram, swp) {
        TurnsFrom(req, n + 1, h, pgd, fifo, ram, swp);
      }
    }
  }

  lemma TurnsClosed(req: nat, pgd: Pgd, fifo: seq<nat>, ram: seq<nat>, swp: seq<nat>)
    requires FifoOk(fifo, MAX_PGN) && SlotsOk(swp)
    ensures Turns(req, Grab(0, [], pgd, fifo, ram, swp)) == AllocPages(req, pgd, fifo, ram, swp)
  {
    hide SetSwap, PagingFpn, AllocPages, Turn;
    PartialStart(pgd, fifo, ram, swp);
    PartialShape(0, pgd, fifo, ram, swp);
    TurnsFrom(req, 0, Grab(0, [], pgd, fifo, ram, swp), pgd, fifo, ram, swp);
  }

  // ----------------------------------------------------------------- mapping

  /** Page table after vmap_page_range at page `first`. */
  function MapPages(pgd: Pgd, first: nat, frames: seq<nat>): (r: Pgd)
    requires first + |frames| <= MAX_PGN && forall i :: 0 <= i < |frames| ==> frames[i] < MAX_FPN
  {
    hide SetFpn;
    var s := seq(MAX_PGN, p requires 0 <= p < MAX_PGN =>
      if first <= p < first + |frames| then SetFpn(pgd[p], frames[p - first]) else pgd[p]);
    assert |s| == MAX_PGN;
    s
  }

  lemma MapPagesAt(pgd: Pgd, first: nat, frames: seq<nat>, p: nat)
    requires first + |frames| <= MAX_PGN && forall i :: 0 <= i < |frames| ==> frames[i] < MAX_FPN
    requires p < MAX_PGN
    ensures first <= p < first + |frames| ==> MapPages(pgd, first, frames)[p] == SetFpn(pgd[p], frames[p - first])
    ensures !(first <= p < first + |frames|) ==> MapPages(pgd, first, frames)[p] == pgd[p]
  {
    hide SetFpn;
  }

  /** FIFO list after the pages first .. first + n - 1 were enlisted in that order. */
  function Enlisted(fifo: seq<nat>, first: nat, n: nat): seq<nat> {
    seq(n, i requires 0 <= i < n => first + n - 1 - i) + fifo
  }

  lemma EnlistedOk(fifo: seq<nat>, pages: nat, n: nat)
    requires FifoOk(fifo, pages) && pages + n <= MAX_PGN
    ensures FifoOk(Enlisted(fifo, pages, n), pages + n)
    ensures forall p :: 0 <= p < pages ==> (p in Enlisted(fifo, pages, n) <==> p in fifo)
    ensures forall p :: pages <= p < pages + n ==> p in Enlisted(fifo, pages, n)
  {
    var e := Enlisted(fifo, pages, n);
    forall p | 0 <= p < pages ensures p in e <==> p in fifo {
      if p in fifo {
        var i :| 0 <= i < |fifo| && fifo[i] == p;
        assert e[n + i] == p;
      }
    }
    forall p | pages <= p < pages + n ensures p in e {
      assert e[pages + n - 1 - p] == p;
    }
  }

  lemma FrontOk(fifo: seq<nat>, pages: nat, m: nat)
    requires FifoOk(fifo, pages) && m <= |fifo|
    ensures FifoOk(fifo[..m], pages)
  {}

  // ----------------------------------------------------------------- swap slots

  /** The slots recorded in the swapped entries among the first n pages. */
  function SlotsIn(pgd: Pgd, n: nat): multiset<nat>
    requires n <= MAX_PGN
  {
    if n == 0 then multiset{}
    else SlotsIn(pgd, n - 1) + (if Swapped(pgd[n - 1]) then multiset{SwpOff(pgd[n - 1])} else multiset{})
  }

  lemma {:induction false} SlotsInFrame(pgd: Pgd, pgd': Pgd, n: nat)
    requires n <= MAX_PGN && forall p :: 0 <= p < n ==> pgd[p] == pgd'[p]
    ensures SlotsIn(pgd, n) == SlotsIn(pgd', n)
  {
    hide Swapped, SwpOff;
    if n > 0 { SlotsInFrame(pgd, pgd', n - 1); }
  }

  lemma {:induction false} SlotsInUpdate(pgd: Pgd, p: nat, w: Word, n: nat)
    requires p < n <= MAX_PGN && !Swapped(pgd[p]) && Swapped(w)
    ensures SlotsIn(pgd[p := w], n) == SlotsIn(pgd, n) + multiset{SwpOff(w)}
    decreases n
  {
    hide Swapped, SwpOff;
    if p == n - 1 {
      SlotsInFrame(pgd, pgd[p := w], n - 1);
    } else {
      SlotsInUpdate(pgd, p, w, n - 1);
    }
  }

  function Offsets(what: seq<Word>): multiset<nat> {
    if what == [] then multiset{} else Offsets(what[..|what| - 1]) + multiset{SwpOff(what[|what| - 1])}
  }

  /** Overwriting unswapped entries by swapped ones records exactly the new slots. */
  lemma {:induction false} SlotsWrite(pgd: Pgd, at: seq<nat>, what: seq<Word>, n: nat)
    requires |at| == |what| && NoDup(at) && n <= MAX_PGN
    requires forall i :: 0 <= i < |at| ==> at[i] < n && Swapped(what[i]) && !Swapped(pgd[at[i]])
    ensures SlotsIn(WriteAll(pgd, at, what), n) == SlotsIn(pgd, n) + Offsets(what)
    decreases |at|
  {
    if at != [] {
      var m := |at| - 1;
      SlotsWrite(pgd, at[..m], what[..m], n);
      WritePoint(pgd, at[..m], what[..m]);
      assert at[m] !in at[..m];
      SlotsInUpdate(WriteAll(pgd, at[..m], what[..m]), at[m], what[m], n);
    }
  }

  lemma MultisetLast(s: seq<nat>)
    requires s != []
    ensures multiset(s) == multiset(s[..|s| - 1]) + multiset{s[|s| - 1]}
  {
    assert s == s[..|s| - 1] + [s[|s| - 1]];
  }

  lemma {:induction false} OffsetsAre(what: seq<Word>, slots: seq<nat>)
    requires |what| == |slots| && forall i :: 0 <= i < |what| ==> SwpOff(what[i]) == slots[i]
    ensures Offsets(what) == multiset(slots)
    decreases |what|
  {
    if what != [] {
      var m := |what| - 1;
      OffsetsAre(what[..m], slots[..m]);
      MultisetLast(slots);
    }
  }

  /** Evicting unswapped pages records exactly their slots. */
  lemma SlotsSwapOut(pgd: Pgd, victims: seq<nat>, slots: seq<nat>, n: nat)
    requires |victims| == |slots| && NoDup(victims) && n <= MAX_PGN
    requires forall i :: 0 <= i < |victims| ==> victims[i] < n && slots[i] < MAX_SWPOFF && !Swapped(pgd[victims[i]])
    ensures SlotsIn(SwapOut(pgd, victims, slots), n) == SlotsIn(pgd, n) + multiset(slots)
  {
    var what := SwapEntries(pgd, victims, slots);
    forall i | 0 <= i < |what| ensures Swapped(what[i]) && SwpOff(what[i]) == slots[i] {
      SetSwapFacts(pgd[victims[i]], slots[i]);
    }
    SlotsWrite(pgd, victims, what, n);
    OffsetsAre(what, slots);
  }

  /** Pages mapped to frames add no slot. */
  lemma {:induction false} SlotsInExtend(pgd: Pgd, n: nat, n': nat)
    requires n <= n' <= MAX_PGN && forall p :: n <= p < n' ==> !Swapped(pgd[p])
    ensures SlotsIn(pgd, n') == SlotsIn(pgd, n)
    decreases n'
  {
    hide Swapped, SwpOff;
    if n < n' { SlotsInExtend(pgd, n, n' - 1); }
  }

  // ----------------------------------------------------------------- frames in use

  /** The frame numbers stored in the entries of the resident pages, in FIFO order. */
  function FramesOf(pgd: Pgd, fifo: seq<nat>): (r: seq<nat>)
    requires PagesOk(fifo)
    ensures |r| == |fifo| && forall i :: 0 <= i < |r| ==> r[i] == FpnField(pgd[fifo[i]])
  {
    seq(|fifo|, i requires 0 <= i < |fifo| => FpnField(pgd[fifo[i]]))
  }

  lemma ObtainedOk(n: nat, pgd: Pgd, fifo: seq<nat>, ram: seq<nat>)
    requires PagesOk(fifo) && Shortfall(n, ram) <= |fifo|
    requires forall i :: 0 <= i < |ram| ==> ram[i] < MAX_FPN
    ensures forall i :: 0 <= i < n ==> Obtained(n, pgd, fifo, ram)[i] < MAX_FPN
  {
    forall i | 0 <= i < n ensures Obtained(n, pgd, fifo, ram)[i] < MAX_FPN {
      if i >= |ram| {
        PagingFpnExact(pgd[Victims(fifo, Shortfall(n, ram))[i - |ram|]]);
      }
    }
  }

  /** The frame numbers stored for newly mapped pages, in FIFO order, are the frames in the
      order in which they were obtained: list and mapping reverse each other. */
  lemma FramesMapped(pgd: Pgd, rest: seq<nat>, first: nat, obtained: seq<nat>)
    requires PagesOk(rest) && first + |obtained| <= MAX_PGN
    requires forall i :: 0 <= i < |rest| ==> rest[i] < first
    requires forall i :: 0 <= i < |obtained| ==> obtained[i] < MAX_FPN
    ensures PagesOk(Enlisted(rest, first, |obtained|))
    ensures FramesOf(MapPages(pgd, first, Reverse(obtained)), Enlisted(rest, first, |obtained|))
            == obtained + FramesOf(pgd, rest)
  {
    forall i | 0 <= i < |obtained| + |rest|
      ensures Enlisted(rest, first, |obtained|)[i] < MAX_PGN
      ensures FpnField(MapPages(pgd, first, Reverse(obtained))[Enlisted(rest, first, |obtained|)[i]])
              == (obtained + FramesOf(pgd, rest))[i]
    {
      FrameMappedAt(pgd, rest, first, obtained, i);
    }
  }

  lemma EnlistedAt(rest: seq<nat>, first: nat, n: nat, i: nat)
    requires i < n + |rest|
    ensures Enlisted(rest, first, n)[i] == if i < n then first + n - 1 - i else rest[i - n]
  {}

  /** The entry behind position i of the new FIFO list. */
  lemma EntryAt(pgd: Pgd, rest: seq<nat>, first: nat, obtained: seq<nat>, i: nat, frames: seq<nat>)
    requires PagesOk(rest) && first + |obtained| <= MAX_PGN && i < |obtained| + |rest|
    requires forall j :: 0 <= j < |rest| ==> rest[j] < first
    requires |frames| == |obtained| && forall j :: 0 <= j < |frames| ==> frames[j] == obtained[|obtained| - 1 - j]
    requires forall j :: 0 <= j < |frames| ==> frames[j] < MAX_FPN
    ensures var p, w := Enlisted(rest, first, |obtained|)[i], MapPages(pgd, first, frames);
            && p < MAX_PGN
            && (i < |obtained| ==> obtained[i] < MAX_FPN && w[p] == SetFpn(pgd[p], obtained[i]))
            && (i >= |obtained| ==> w[p] == pgd[rest[i - |obtained|]])
  {
    hide SetFpn, MapPages;
    EnlistedAt(rest, first, |obtained|, i);
    var p := Enlisted(rest, first, |obtained|)[i];
    if i < |obtained| {
      assert frames[|obtained| - 1 - i] == obtained[i];
    }
    MapPagesAt(pgd, first, frames, p);
  }

  lemma FrameMappedAt(pgd: Pgd, rest: seq<nat>, first: nat, obtained: seq<nat>, i: nat)
    requires PagesOk(rest) && first + |obtained| <= MAX_PGN && i < |obtained| + |rest|
    requires forall j :: 0 <= j < |rest| ==> rest[j] < first
    requires forall j :: 0 <= j < |obtained| ==> obtained[j] < MAX_FPN
    ensures Enlisted(rest, first, |obtained|)[i] < MAX_PGN
    ensures FpnField(MapPages(pgd, first, Reverse(obtained))[Enlisted(rest, first, |obtained|)[i]])
            == (obtained + FramesOf(pgd, rest))[i]
  {
    EntryAt(pgd, rest, first, obtained, i, Reverse(obtained));
    if i < |obtained| {
      SetFpnFacts(pgd[Enlisted(rest, first, |obtained|)[i]], obtained[i]);
    } else {
      assert FramesOf(pgd, rest)[i - |obtained|] == FpnField(pgd[rest[i - |obtained|]]);
    }
  }

  lemma FramesOfFrame(pgd: Pgd, pgd': Pgd, fifo: seq<nat>)
    requires PagesOk(fifo) && forall i :: 0 <= i < |fifo| ==> pgd'[fifo[i]] == pgd[fifo[i]]
    ensures FramesOf(pgd', fifo) == FramesOf(pgd, fifo)
  {}

  lemma FramesOfFront(pgd: Pgd, fifo: seq<nat>, m: nat)
    requires PagesOk(fifo) && m <= |fifo|
    ensures FramesOf(pgd, fifo[..m]) == FramesOf(pgd, fifo)[..m]
  {}

  /** A successful allocation and mapping replaces, among the frames in use, the frames of
      the victims by the frames obtained. */
  lemma FramesAfter(req: nat, pgd: Pgd, fifo: seq<nat>, ram: seq<nat>, swp: seq<nat>, pages: nat)
    requires FifoOk(fifo, pages) && SlotsOk(swp) && pages + req <= MAX_PGN
    requires forall i :: 0 <= i < |ram| ==> ram[i] < MAX_FPN
    requires Shortfall(req, ram) <= |fifo| && Shortfall(req, ram) <= |swp|
    ensures var k, f := Shortfall(req, ram), Reverse(Obtained(req, pgd, fifo, ram));
            && (forall i :: 0 <= i < req ==> f[i] < MAX_FPN)
            && PagesOk(Enlisted(fifo[..|fifo| - k], pages, req))
            && FramesOf(MapPages(SwapOut(pgd, Victims(fifo, k), swp[..k]), pages, f),
                        Enlisted(fifo[..|fifo| - k], pages, req))
               == Obtained(req, pgd, fifo, ram) + FramesOf(pgd, fifo)[..|fifo| - k]
  {
    hide SetSwap, SetFpn, PagingFpn, FpnField, SwapOut, MapPages, Enlisted;
    var k := Shortfall(req, ram);
    var rest, pgd' := fifo[..|fifo| - k], SwapOut(pgd, Victims(fifo, k), swp[..k]);
    ObtainedOk(req, pgd, fifo, ram);
    VictimsDistinct(fifo, k);
    SwapOutExact(pgd, fifo, swp, k, pages);
    FramesMapped(pgd', rest, pages, Obtained(req, pgd, fifo, ram));
    FramesOfFrame(pgd, pgd', rest);
    FramesOfFront(pgd, fifo, |fifo| - k);
  }
}
