/**
 The linked lists of mm-vm.c on the heap: the free-region list and the FIFO list of pages.
 Each is proved to implement the sequence functions the other modules reason about.
 */
module Lists {
  import opened Prelude
  import opened Regions

  /** struct vm_rg_struct */
  class RgNode {
    var start: nat
    var end: nat
    var next: RgNode?

    constructor (start: nat, end: nat)
      ensures this.start == start && this.end == end && next == null
    {
      this.start, this.end, next := start, end, null;
    }
  }

  ghost function RgAfter(nodes: seq<RgNode>, i: nat): RgNode? {
    if i + 1 < |nodes| then nodes[i + 1] else null
  }

  /** `nodes` are distinct and linked in order, the last one to null: the list has no cycle. */
  ghost predicate RgLinked(nodes: seq<RgNode>)
    reads set n | n in nodes
  {
    && NoDup(nodes)
    && forall i :: 0 <= i < |nodes| ==> nodes[i].next == RgAfter(nodes, i)
  }

  ghost function RgValues(nodes: seq<RgNode>): (r: seq<Region>)
    reads set n | n in nodes
    ensures |r| == |nodes| && forall i :: 0 <= i < |r| ==> r[i] == Region(nodes[i].start, nodes[i].end)
  {
    seq(|nodes|, i requires 0 <= i < |nodes| reads set n | n in nodes => Region(nodes[i].start, nodes[i].end))
  }

  lemma ValuesAre(nodes: seq<RgNode>, regions: seq<Region>)
    ensures regions == RgValues(nodes) <==>
              && |regions| == |nodes|
              && forall i :: 0 <= i < |nodes| ==> regions[i] == Region(nodes[i].start, nodes[i].end)
  {}

  /** The list at vm_freerg_list, with its nodes and the regions they hold. */
  class RegionList {
    var head: RgNode?
    ghost var nodes: seq<RgNode>
    ghost var regions: seq<Region>

    ghost predicate Valid()
      reads this, set n | n in nodes
    {
      && RgLinked(nodes) && head == (if nodes == [] then null else nodes[0])
      && regions == RgValues(nodes)
    }

    // init_vm_rg and enlist_vm_rg_node, as init_mm calls them; the head that init_mm leaves
    // unset is taken to be NULL.
    constructor (start: nat, end: nat)
      ensures Valid() && fresh(nodes) && regions == [Region(start, end)]
    {
      var rg := new RgNode(start, end);
      head := rg;
      nodes, regions := [rg], [Region(start, end)];
    }

    // enlist_vm_freerg_list.  On an empty list rg_next stays as the caller left it, so that
    // it must be NULL there.
    method Enlist(rg: RgNode) returns (code: int)
      requires Valid() && rg !in nodes && (nodes == [] ==> rg.next == null)
      modifies this, rg
      ensures Valid() && (nodes == old(nodes) || nodes == [rg] + old(nodes))
      ensures regions == Regions.Enlist(old(regions), Region(old(rg.start), old(rg.end)))
      ensures code == if old(rg.start) >= old(rg.end) then -1 else 0
    {
      hide RgValues, RgAfter;
      ValuesAre(nodes, regions);
      if rg.start >= rg.end {
        return -1;
      }
      if head != null {
        rg.next := head;
      }
      ghost var was, values := nodes, regions;
      head := rg;
      nodes, regions := [rg] + was, [Region(rg.start, rg.end)] + values;
      forall i: nat | i < |nodes| ensures nodes[i].next == RgAfter(nodes, i) {
        AfterFront(was, rg, i);
        if i > 0 { assert nodes[i] == was[i - 1]; }
      }
      forall i | 0 <= i < |nodes| ensures regions[i] == Region(nodes[i].start, nodes[i].end) {
        if i > 0 { assert nodes[i] == was[i - 1] && regions[i] == values[i - 1]; }
      }
      ValuesAre(nodes, regions);
      code := 0;
    }

    lemma NextOf(i: nat)
      requires Valid() && i < |nodes|
      ensures nodes[i].next == RgAfter(nodes, i)
    {}

    lemma ValueAt(i: nat)
      requires Valid() && i < |nodes|
      ensures |regions| == |nodes| && regions[i] == Region(nodes[i].start, nodes[i].end)
    {}

    // A used-up region with a successor takes over its contents; the successor is unlinked.
    method Absorb(rgit: RgNode, ghost i: nat)
      requires Valid() && i + 1 < |nodes| && rgit == nodes[i]
      modifies this`nodes, this`regions, rgit
      ensures Valid() && nodes == old(nodes)[..i + 1] + old(nodes)[i + 2..]
      ensures regions == old(regions)[..i] + old(regions)[i + 1..]
    {
      hide RgValues, RgAfter;
      ghost var was, values := nodes, regions;
      ghost var left, rest := nodes[..i + 1] + nodes[i + 2..], regions[..i] + regions[i + 1..];
      ValuesAre(nodes, regions);
      NextOf(i);
      NextIs(nodes, i);
      NextOf(i + 1);
      Unlinked(was, left, i);
      var nextrg := rgit.next;
      rgit.start := nextrg.start;
      rgit.end := nextrg.end;
      rgit.next := nextrg.next;
      nodes, regions := left, rest;
      LinkedLeft(was, left, i);
      forall j | 0 <= j < |left| ensures rest[j] == Region(left[j].start, left[j].end) {
        assert rest[j] == values[if j < i then j else j + 1];
        assert left[j] == was[if j <= i then j else j + 1];
      }
      ValuesAre(left, rest);
    }

    // A region is cut from the front; `last` also ends the list behind it.
    method Shorten(rgit: RgNode, ghost i: nat, start: nat, last: bool)
      requires Valid() && i < |nodes| && rgit == nodes[i] && (last ==> i + 1 == |nodes|)
      modifies this`regions, rgit
      ensures Valid() && nodes == old(nodes) && regions == old(regions)[i := Region(start, old(rgit.end))]
    {
      hide RgValues, RgAfter;
      ValuesAre(nodes, regions);
      LastIs(nodes, i);
      rgit.start := start;
      if last {
        rgit.next := null;
      }
      regions := regions[i := Region(start, rgit.end)];
      forall j | 0 <= j < |nodes| ensures Region(nodes[j].start, nodes[j].end) == regions[j] {
        if j != i { assert nodes[j] != rgit; }
      }
      ValuesAre(nodes, regions);
    }

    // The update of the chosen region in get_free_vmrg_area.  A used-up region is removed,
    // except that the last one of the list stays behind empty.
    method Cut(rgit: RgNode, ghost i: nat, size: nat)
      requires Valid() && i < |nodes| && rgit == nodes[i] && i < |regions| && Fits(regions[i], size)
      modifies this`nodes, this`regions, rgit
      ensures Valid() && |nodes| > 0 && forall n :: n in nodes ==> n in old(nodes)
      ensures regions == CutAt(old(regions), i, size)
    {
      hide RgValues, RegionList.Valid;
      ValueAt(i);
      if rgit.start + size < rgit.end {
        Shorten(rgit, i, rgit.start + size, false);
      } else {
        NextOf(i);
        if rgit.next != null {
          Absorb(rgit, i);
        } else {
          Shorten(rgit, i, rgit.end, true);
        }
      }
    }

    // get_free_vmrg_area: walks to the first region long enough.
    method GetFreeArea(size: nat) returns (newrg: Option<Region>)
      requires Valid()
      modifies this`nodes, this`regions, set n | n in nodes
      ensures Valid() && (|old(nodes)| > 0 ==> |nodes| > 0) && forall n :: n in nodes ==> n in old(nodes)
      ensures match Regions.Take(old(regions), size)
              case Some((r, free)) => newrg == Some(r) && regions == free
              case None => newrg == None && regions == old(regions)
    {
      hide CutAt, RgValues, FirstFit, RgLinked;
      var rgit := head;
      ghost var i := 0;
      while rgit != null && rgit.start + size > rgit.end
        invariant 0 <= i <= |nodes| && rgit == (if i < |nodes| then nodes[i] else null)
        invariant |regions| == |nodes| && forall j :: 0 <= j < i ==> !Fits(regions[j], size)
        decreases |nodes| - i
        modifies {}
      {
        NextOf(i);
        ValueAt(i);
        rgit := rgit.next;
        i := i + 1;
      }
      if rgit == null {
        return None;
      }
      ValueAt(i);
      assert Regions.FirstFit(regions, size) == i;
      newrg := Some(Region(rgit.start, rgit.start + size));
      Cut(rgit, i, size);
    }
  }

  /** Leaving out node i + 1. */
  lemma Unlinked(nodes: seq<RgNode>, s: seq<RgNode>, i: nat)
    requires NoDup(nodes) && i + 1 < |nodes| && s == nodes[..i + 1] + nodes[i + 2..]
    ensures NoDup(s) && |s| == |nodes| - 1
    ensures forall j :: 0 <= j < |s| ==> s[j] == nodes[if j <= i then j else j + 1]
    ensures forall j: nat :: j < |s| ==> RgAfter(s, j) == RgAfter(nodes, if j < i then j else j + 1)
  {
    forall j: nat | j < |s| ensures RgAfter(s, j) == RgAfter(nodes, if j < i then j else j + 1) {
      if j + 1 < |s| { assert s[j + 1] == nodes[if j + 1 <= i then j + 1 else j + 2]; }
    }
  }

  lemma NextIs(nodes: seq<RgNode>, i: nat)
    requires i + 1 < |nodes|
    ensures RgAfter(nodes, i) == nodes[i + 1]
  {}

  lemma AfterFront(nodes: seq<RgNode>, rg: RgNode, i: nat)
    requires i <= |nodes|
    ensures RgAfter([rg] + nodes, i)
            == if i > 0 then RgAfter(nodes, i - 1) else if nodes == [] then null else nodes[0]
  {}

  lemma LastIs(nodes: seq<RgNode>, i: nat)
    requires i < |nodes|
    ensures i + 1 == |nodes| ==> RgAfter(nodes, i) == null
  {}

  /** Once node i points past its successor, what is left is linked. */
  lemma LinkedLeft(nodes: seq<RgNode>, s: seq<RgNode>, i: nat)
    requires NoDup(nodes) && i + 1 < |nodes| && s == nodes[..i + 1] + nodes[i + 2..]
    requires nodes[i].next == RgAfter(nodes, i + 1)
    requires forall j :: 0 <= j < |nodes| && j != i ==> nodes[j].next == RgAfter(nodes, j)
    ensures RgLinked(s)
  {
    hide RgAfter;
    Unlinked(nodes, s, i);
    forall j: nat | j < |s| ensures s[j].next == RgAfter(s, j) {
      assert s[j] == nodes[if j <= i then j else j + 1];
    }
  }

  /** struct pgn_t */
  class PgnNode {
    const pgn: nat
    var next: PgnNode?

    constructor (pgn: nat, next: PgnNode?)
      ensures this.pgn == pgn && this.next == next
    {
      this.pgn, this.next := pgn, next;
    }
  }

  ghost function PgnAfter(nodes: seq<PgnNode>, i: nat): PgnNode? {
    if i + 1 < |nodes| then nodes[i + 1] else null
  }

  /** The list at fifo_pgn, newest page first, with its nodes and the pages they hold. */
  class PageList {
    var head: PgnNode?
    ghost var nodes: seq<PgnNode>
    ghost var pages: seq<nat>

    ghost predicate Valid()
      reads this, set n | n in nodes
    {
      && NoDup(nodes) && |pages| == |nodes|
      && (forall i :: 0 <= i < |nodes| ==> nodes[i].next == PgnAfter(nodes, i))
      && (forall i :: 0 <= i < |nodes| ==> pages[i] == nodes[i].pgn)
      && head == if nodes == [] then null else nodes[0]
    }

    constructor ()
      ensures Valid() && nodes == [] && pages == []
    {
      head, nodes, pages := null, [], [];
    }

    // enlist_pgn_node
    method EnlistPgn(pgn: nat)
      requires Valid()
      modifies this
      ensures Valid() && pages == [pgn] + old(pages)
      ensures |nodes| > 0 && fresh(nodes[0]) && nodes == [nodes[0]] + old(nodes)
    {
      ghost var was := nodes;
      var pnode := new PgnNode(pgn, head);
      head := pnode;
      nodes, pages := [pnode] + was, [pgn] + pages;
      forall i | 0 <= i < |nodes| ensures nodes[i].next == PgnAfter(nodes, i) {
        if i > 0 { assert nodes[i] == was[i - 1] && PgnAfter(nodes, i) == PgnAfter(was, i - 1); }
      }
    }

    // find_victim_page: walks to the last node and unlinks it.
    method FindVictim() returns (pgn: Option<nat>)
      requires Valid()
      modifies this, set n | n in nodes
      ensures Valid() && forall n :: n in nodes ==> n in old(nodes)
      ensures old(pages) == [] ==> pgn == None && pages == []
      ensures old(pages) != [] ==>
                pgn == Some(old(pages)[|old(pages)| - 1]) && pages == old(pages)[..|old(pages)| - 1]
    {
      var pg := head;
      if pg == null {
        return None;
      }
      if pg.next == null {
        head := null;
        nodes, pages := [], [];
      } else {
        var prev := pg;
        ghost var i := 0;
        while pg.next != null
          invariant 0 <= i < |nodes| && pg == nodes[i] && prev == nodes[if i == 0 then 0 else i - 1]
          decreases |nodes| - i
          modifies {}
        {
          prev := pg;
          pg := pg.next;
          i := i + 1;
        }
        prev.next := null;
        nodes, pages := nodes[..i], pages[..i];
      }
      pgn := Some(pg.pgn);
    }
  }
}
