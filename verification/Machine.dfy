/**
 Many processes sharing one RAM and one swap device: what every run of __alloc and __free
 keeps, and exactly which steps break it.
 */
module Machine {
  import opened Prelude
  import opened Pte
  import opened Regions
  import opened Frames
  import opened Memory

  /** The address spaces, and the free lists of the RAM and of the active swap device. */
  datatype State = State(mms: seq<Mm>, ram: seq<nat>, swp: seq<nat>)

  datatype Op = Spawn | AllocOp(pid: nat, id: nat, size: nat) | FreeOp(pid: nat, id: nat)

  /** Shape of the data, as far as the operations need it to be defined. */
  predicate Shape(m: State) {
    && DevicesOk(m.ram, m.swp)
    && forall i :: 0 <= i < |m.mms| ==> |m.mms[i].sym| == SYMTBL_SZ && PagesOk(m.mms[i].fifo)
  }

  /** The process and the region id exist, and the area stays on the bus. */
  predicate Legal(m: State, op: Op) {
    match op
    case Spawn => true
    case AllocOp(pid, id, size) => pid < |m.mms| && CanAlloc(m.mms[pid], id, size)
    case FreeOp(pid, id) => pid < |m.mms| && id < SYMTBL_SZ
  }

  function AllocAt(m: State, pid: nat, id: nat, size: nat): Outcome
    requires Shape(m) && pid < |m.mms| && CanAlloc(m.mms[pid], id, size)
  {
    Alloc(m.mms[pid], m.ram, m.swp, id, size)
  }

  function Step(m: State, op: Op): State
    requires Shape(m) && Legal(m, op)
  {
    match op
    case Spawn => m.(mms := m.mms + [InitMm()])
    case AllocOp(pid, id, size) =>
      var o := AllocAt(m, pid, id, size);
      State(m.mms[pid := o.mm], o.ram, o.swp)
    case FreeOp(pid, id) => m.(mms := m.mms[pid := Free(m.mms[pid], id)])
  }

  // ----------------------------------------------------------------- the virtual spaces

  ghost predicate Spaces(m: State) {
    && DevicesOk(m.ram, m.swp)
    && forall i :: 0 <= i < |m.mms| ==> VmOk(m.mms[i])
  }

  ghost predicate AllParted(m: State) {
    forall i :: 0 <= i < |m.mms| ==> Parted(m.mms[i])
  }

  /** Allocations go to ids that are not live, frees to ids that are; or the region of the
      id is empty, in which case it does not matter. */
  predicate Harmless(m: State, op: Op)
    requires Shape(m) && Legal(m, op)
  {
    match op
    case Spawn => true
    case AllocOp(pid, id, _) => id !in m.mms[pid].live || m.mms[pid].sym[id].Empty()
    case FreeOp(pid, id) => id in m.mms[pid].live || m.mms[pid].sym[id].Empty()
  }

  lemma SpacesShape(m: State)
    requires Spaces(m)
    ensures Shape(m)
  {
    forall i | 0 <= i < |m.mms| ensures |m.mms[i].sym| == SYMTBL_SZ && PagesOk(m.mms[i].fifo) {
      assert VmOk(m.mms[i]);
    }
  }

  /** Every legal step keeps the shape of all address spaces. */
  lemma SpacesStep(m: State, op: Op)
    requires Spaces(m) && Shape(m) && Legal(m, op)
    ensures Spaces(Step(m, op)) && Shape(Step(m, op))
  {
    match op
    case Spawn => InitOk();
    case AllocOp(pid, id, size) =>
      assert VmOk(m.mms[pid]);
      AllocKeeps(m.mms[pid], m.ram, m.swp, id, size);
    case FreeOp(pid, id) =>
      assert VmOk(m.mms[pid]);
      FreeKeeps(m.mms[pid], id);
    SpacesShape(Step(m, op));
  }

  /** One step keeps every address space partitioned exactly if it is harmless. */
  lemma PartitionStep(m: State, op: Op)
    requires Spaces(m) && AllParted(m) && Shape(m) && Legal(m, op)
    ensures AllParted(Step(m, op)) <==> Harmless(m, op)
  {
    var t := Step(m, op);
    match op
    case Spawn => InitOk();
    case AllocOp(pid, id, size) =>
      AllocVirtual(m.mms[pid], m.ram, m.swp, id, size);
      OneParted(m, t, pid);
    case FreeOp(pid, id) =>
      var mm := m.mms[pid];
      FreeKeepsPartition(mm.free, mm.sym, mm.live, mm.vmEnd, id);
      OneParted(m, t, pid);
  }

  lemma OneParted(m: State, t: State, pid: nat)
    requires AllParted(m) && pid < |m.mms| == |t.mms|
    requires forall i :: 0 <= i < |m.mms| && i != pid ==> t.mms[i] == m.mms[i]
    ensures AllParted(t) <==> Parted(t.mms[pid])
  {}

  /** `tr` lists the states visited by the operations `ops` from the start. */
  ghost predicate IsRun(tr: seq<State>, ops: seq<Op>, nram: nat, nswp: nat) {
    && nram <= MAX_FPN && nswp <= MAX_SWPOFF
    && |tr| == |ops| + 1 && tr[0] == State([], Range(nram), Range(nswp))
    && forall k :: 0 <= k < |ops| ==> Shape(tr[k]) && Legal(tr[k], ops[k]) && tr[k + 1] == Step(tr[k], ops[k])
  }

  /** In every run, sbrk is vmEnd, a multiple of the page size, and lists and tables stay
      inside the area, whatever ids are used and whether or not memory runs out. */
  lemma {:induction false} RunSpaces(tr: seq<State>, ops: seq<Op>, nram: nat, nswp: nat, k: nat)
    requires IsRun(tr, ops, nram, nswp) && k < |tr|
    ensures Spaces(tr[k]) && Shape(tr[k])
  {
    hide Step, Legal, VmOk;
    if k == 0 {
      SpacesShape(tr[0]);
    } else {
      RunSpaces(tr, ops, nram, nswp, k - 1);
      SpacesStep(tr[k - 1], ops[k - 1]);
    }
  }

  /** Virtual space partition, over whole runs and whether or not memory runs out: live and
      free regions of every process cover [0, vmEnd) exactly once as long as the operations
      are harmless, and only so long. */
  lemma {:induction false} SpacePartition(tr: seq<State>, ops: seq<Op>, nram: nat, nswp: nat, k: nat)
    requires IsRun(tr, ops, nram, nswp) && k < |tr|
    ensures (forall j :: 0 <= j <= k ==> AllParted(tr[j])) <==> (forall j :: 0 <= j < k ==> Harmless(tr[j], ops[j]))
  {
    hide Step, Legal, VmOk, Harmless, AllParted;
    if k == 0 {
      NothingParted(tr[0]);
    } else {
      SpacePartition(tr, ops, nram, nswp, k - 1);
      RunSpaces(tr, ops, nram, nswp, k - 1);
      assert Legal(tr[k - 1], ops[k - 1]) && tr[k] == Step(tr[k - 1], ops[k - 1]);
      if AllParted(tr[k - 1]) {
        PartitionStep(tr[k - 1], ops[k - 1]);
      }
    }
  }

  lemma NothingParted(m: State)
    requires m.mms == []
    ensures AllParted(m)
  {}

  lemma SpaceFacts(tr: seq<State>, ops: seq<Op>, nram: nat, nswp: nat, k: nat, pid: nat, i: nat, j: nat, b: nat)
    requires IsRun(tr, ops, nram, nswp) && k < |tr| && pid < |tr[k].mms|
    requires forall n :: 0 <= n < k ==> Harmless(tr[n], ops[n])
    ensures var mm := tr[k].mms[pid];
            && |mm.sym| == SYMTBL_SZ && mm.sbrk == mm.vmEnd && mm.vmEnd % PAGESZ == 0
            && FreeAt(mm.free, b) + LiveAt(mm.sym, mm.live, |mm.sym|, b) == (if b < mm.vmEnd then 1 else 0)
            && TotalFree(mm.free) + TotalLive(mm.sym, mm.live, |mm.sym|) == mm.vmEnd
            && (i < SYMTBL_SZ && j < SYMTBL_SZ && i != j && i in mm.live && j in mm.live
                ==> Covers(mm.sym[i], b) + Covers(mm.sym[j], b) <= 1)
  {
    SpacePartition(tr, ops, nram, nswp, k);
    RunSpaces(tr, ops, nram, nswp, k);
    assert AllParted(tr[k]);
    var mm := tr[k].mms[pid];
    assert VmOk(mm) && Parted(mm);
    BytesConserved(mm.free, mm.sym, mm.live, mm.vmEnd);
    if i < SYMTBL_SZ && j < SYMTBL_SZ && i != j && i in mm.live && j in mm.live {
      LiveDisjoint(mm.free, mm.sym, mm.live, mm.vmEnd, i, j, b);
    }
  }

  /** A run that breaks the partition: a second free of the same id puts its bytes on the
      list twice. */
  lemma DoubleFreeBreaks() returns (tr: seq<State>, ops: seq<Op>)
    ensures IsRun(tr, ops, 1, 0) && |ops| == 4 && ops[2] == ops[3]
    ensures AllParted(tr[3]) && !AllParted(tr[4])
  {
    hide VmOk, Parted, Extend, Aligned, PagesFor;
    ops := [Spawn, AllocOp(0, 0, 256), FreeOp(0, 0), FreeOp(0, 0)];
    var s0 := State([], Range(1), Range(0));
    SpacesShape(s0);
    NothingParted(s0);
    PartitionStep(s0, ops[0]);
    SpacesStep(s0, ops[0]);
    var s1 := Step(s0, ops[0]);
    assert s1.mms == [InitMm()] && [Region(0, 0)][1..] == [];
    Sizes256();
    PartitionStep(s1, ops[1]);
    SpacesStep(s1, ops[1]);
    var s2 := Step(s1, ops[1]);
    PartitionStep(s2, ops[2]);
    SpacesStep(s2, ops[2]);
    var s3 := Step(s2, ops[2]);
    assert s3.mms[0].sym[0] == Region(0, 256) && 0 !in s3.mms[0].live;
    PartitionStep(s3, ops[3]);
    tr := [s0, s1, s2, s3, Step(s3, ops[3])];
  }

  lemma Sizes256()
    ensures PagesFor(256) == 1 && PagesFor(512) == 2 && Aligned(256) == 256 && Aligned(512) == 512
  {}

  // ----------------------------------------------------------------- sums over processes

  function Union(parts: seq<multiset<nat>>): multiset<nat> {
    if parts == [] then multiset{} else Union(parts[..|parts| - 1]) + parts[|parts| - 1]
  }

  lemma {:induction false} UnionUpdate(parts: seq<multiset<nat>>, i: nat, x: multiset<nat>)
    requires i < |parts|
    ensures Union(parts[i := x]) + parts[i] == Union(parts) + x
  {
    var n := |parts| - 1;
    if i == n {
      assert parts[i := x][..n] == parts[..n];
    } else {
      assert parts[i := x][..n] == parts[..n][i := x];
      UnionUpdate(parts[..n], i, x);
      Regroup(Union(parts[i := x][..n]), Union(parts[..n]), parts[i], x, parts[n]);
    }
  }

  lemma Regroup(u': multiset<nat>, u: multiset<nat>, a: multiset<nat>, x: multiset<nat>, last: multiset<nat>)
    requires u' + a == u + x
    ensures (u' + last) + a == (u + last) + x
  {
    forall e ensures ((u' + last) + a)[e] == ((u + last) + x)[e] {
      assert (u' + a)[e] == (u + x)[e];
    }
  }

  lemma UnionSnoc(parts: seq<multiset<nat>>, x: multiset<nat>)
    ensures Union(parts + [x]) == Union(parts) + x
  {
    assert (parts + [x])[..|parts|] == parts;
  }

  lemma {:induction false} UnionWithin(parts: seq<multiset<nat>>, i: nat)
    requires i < |parts|
    ensures parts[i] <= Union(parts)
  {
    if i < |parts| - 1 { UnionWithin(parts[..|parts| - 1], i); }
  }

  /** The swap slots recorded in each page table. */
  function SlotParts(mms: seq<Mm>): (r: seq<multiset<nat>>)
    requires forall i :: 0 <= i < |mms| ==> Pages(mms[i]) <= MAX_PGN
    ensures |r| == |mms| && forall i :: 0 <= i < |r| ==> r[i] == SlotsIn(mms[i].pgd, Pages(mms[i]))
  {
    seq(|mms|, i requires 0 <= i < |mms| => SlotsIn(mms[i].pgd, Pages(mms[i])))
  }

  /** The frames recorded for the resident pages of each process. */
  function FrameParts(mms: seq<Mm>): (r: seq<multiset<nat>>)
    requires forall i :: 0 <= i < |mms| ==> PagesOk(mms[i].fifo)
    ensures |r| == |mms| && forall i :: 0 <= i < |r| ==> r[i] == multiset(FramesOf(mms[i].pgd, mms[i].fifo))
  {
    seq(|mms|, i requires 0 <= i < |mms| => multiset(FramesOf(mms[i].pgd, mms[i].fifo)))
  }

  function AllSlots(mms: seq<Mm>): multiset<nat>
    requires forall i :: 0 <= i < |mms| ==> Pages(mms[i]) <= MAX_PGN
  {
    Union(SlotParts(mms))
  }

  function AllFrames(mms: seq<Mm>): multiset<nat>
    requires forall i :: 0 <= i < |mms| ==> PagesOk(mms[i].fifo)
  {
    Union(FrameParts(mms))
  }

  /** The number of resident pages. */
  function Residents(mms: seq<Mm>): nat {
    if mms == [] then 0 else Residents(mms[..|mms| - 1]) + |mms[|mms| - 1].fifo|
  }

  lemma SlotsUpdate(mms: seq<Mm>, i: nat, mm: Mm)
    requires i < |mms| && Pages(mm) <= MAX_PGN && forall j :: 0 <= j < |mms| ==> Pages(mms[j]) <= MAX_PGN
    ensures AllSlots(mms[i := mm]) + SlotsIn(mms[i].pgd, Pages(mms[i])) == AllSlots(mms) + SlotsIn(mm.pgd, Pages(mm))
  {
    assert SlotParts(mms[i := mm]) == SlotParts(mms)[i := SlotsIn(mm.pgd, Pages(mm))];
    UnionUpdate(SlotParts(mms), i, SlotsIn(mm.pgd, Pages(mm)));
  }

  lemma FramesUpdate(mms: seq<Mm>, i: nat, mm: Mm)
    requires i < |mms| && PagesOk(mm.fifo) && forall j :: 0 <= j < |mms| ==> PagesOk(mms[j].fifo)
    ensures AllFrames(mms[i := mm]) + multiset(FramesOf(mms[i].pgd, mms[i].fifo))
            == AllFrames(mms) + multiset(FramesOf(mm.pgd, mm.fifo))
  {
    assert FrameParts(mms[i := mm]) == FrameParts(mms)[i := multiset(FramesOf(mm.pgd, mm.fifo))];
    UnionUpdate(FrameParts(mms), i, multiset(FramesOf(mm.pgd, mm.fifo)));
  }

  lemma {:induction false} ResidentsUpdate(mms: seq<Mm>, i: nat, mm: Mm)
    requires i < |mms|
    ensures Residents(mms[i := mm]) + |mms[i].fifo| == Residents(mms) + |mm.fifo|
  {
    var n := |mms| - 1;
    if i == n {
      assert mms[i := mm][..n] == mms[..n];
    } else {
      assert mms[i := mm][..n] == mms[..n][i := mm];
      ResidentsUpdate(mms[..n], i, mm);
    }
  }

  // ----------------------------------------------------------------- resident and swapped

  ghost predicate AllMapped(m: State) {
    forall i :: 0 <= i < |m.mms| ==> MappedOk(m.mms[i])
  }

  ghost predicate AllTabled(m: State) {
    forall i :: 0 <= i < |m.mms| ==> Tabled(m.mms[i])
  }

  /** Slots recorded in page tables and free slots: each slot of the device exactly once. */
  ghost predicate SlotsOwned(m: State, nswp: nat) {
    && (forall i :: 0 <= i < |m.mms| ==> Pages(m.mms[i]) <= MAX_PGN)
    && AllSlots(m.mms) + multiset(m.swp) == multiset(Range(nswp))
  }

  /** The books of the two devices. */
  ghost predicate Books(m: State, nram: nat, nswp: nat) {
    SlotsOwned(m, nswp) && Residents(m.mms) + |m.ram| == nram
  }

  /** Agreement of page tables, FIFO lists and devices; see Agreement below. */
  ghost predicate Agrees(m: State, nram: nat, nswp: nat) {
    AllMapped(m) && Books(m, nram, nswp)
  }

  /** The operation needs no new page, or the pages it needs can be mapped. */
  predicate Maps(m: State, op: Op)
    requires Legal(m, op)
  {
    op.AllocOp? ==> CanMap(m.mms[op.pid], m.ram, m.swp, op.size)
  }

  /** Replacing one address space and the devices, with no slot lost between them. */
  lemma SlotsReplace(m: State, pid: nat, mm: Mm, ram: seq<nat>, swp: seq<nat>, nswp: nat)
    requires SlotsOwned(m, nswp) && pid < |m.mms| && Pages(mm) <= MAX_PGN
    requires SlotsIn(mm.pgd, Pages(mm)) + multiset(swp)
             == SlotsIn(m.mms[pid].pgd, Pages(m.mms[pid])) + multiset(m.swp)
    ensures SlotsOwned(State(m.mms[pid := mm], ram, swp), nswp)
  {
    SlotsUpdate(m.mms, pid, mm);
    Rebalance(AllSlots(m.mms), SlotsIn(m.mms[pid].pgd, Pages(m.mms[pid])), multiset(m.swp),
              AllSlots(m.mms[pid := mm]), SlotsIn(mm.pgd, Pages(mm)), multiset(swp));
  }

  lemma SlotPartsSnoc(mms: seq<Mm>)
    requires forall i :: 0 <= i < |mms| ==> Pages(mms[i]) <= MAX_PGN
    ensures SlotParts(mms + [InitMm()]) == SlotParts(mms) + [multiset{}]
  {
    var mms' := mms + [InitMm()];
    forall i | 0 <= i <= |mms|
      ensures Pages(mms'[i]) <= MAX_PGN && SlotParts(mms')[i] == (SlotParts(mms) + [multiset{}])[i]
    {
      if i == |mms| {
        assert SlotsIn(InitMm().pgd, 0) == multiset{};
      }
    }
  }

  lemma FramePartsSnoc(mms: seq<Mm>)
    requires forall i :: 0 <= i < |mms| ==> PagesOk(mms[i].fifo)
    ensures FrameParts(mms + [InitMm()]) == FrameParts(mms) + [multiset{}]
  {
    var mms' := mms + [InitMm()];
    forall i | 0 <= i <= |mms|
      ensures PagesOk(mms'[i].fifo) && FrameParts(mms')[i] == (FrameParts(mms) + [multiset{}])[i]
    {
      if i == |mms| {
        assert FramesOf(InitMm().pgd, []) == [];
      }
    }
  }

  lemma SlotsSpawn(m: State, nswp: nat)
    requires SlotsOwned(m, nswp)
    ensures SlotsOwned(m.(mms := m.mms + [InitMm()]), nswp)
  {
    SlotPartsSnoc(m.mms);
    UnionSnoc(SlotParts(m.mms), multiset{});
  }

  lemma ResidentsSpawn(mms: seq<Mm>)
    ensures Residents(mms + [InitMm()]) == Residents(mms)
  {
    assert (mms + [InitMm()])[..|mms|] == mms;
  }

  lemma InitMapped()
    ensures MappedOk(InitMm())
  {
    InitOk();
  }

  lemma FreeMapped(mm: Mm, id: nat)
    requires id < SYMTBL_SZ
    ensures MappedOk(mm) ==> MappedOk(Free(mm, id))
    ensures Tabled(mm) ==> Tabled(Free(mm, id))
  {
    if VmOk(mm) { FreeKeeps(mm, id); }
  }

  /** Every legal step conserves the swap slots, failed mappings included. */
  lemma SlotsStep(m: State, op: Op, nswp: nat)
    requires AllTabled(m) && SlotsOwned(m, nswp) && Shape(m) && Legal(m, op)
    ensures AllTabled(Step(m, op)) && SlotsOwned(Step(m, op), nswp)
  {
    hide SlotsOwned, Tabled, Alloc;
    match op
    case Spawn =>
      SlotsSpawn(m, nswp);
      InitMapped();
      MappedTabled(InitMm());
    case AllocOp(pid, id, size) =>
      assert Tabled(m.mms[pid]);
      AllocConserves(m.mms[pid], m.ram, m.swp, id, size);
      var o := AllocAt(m, pid, id, size);
      SlotsReplace(m, pid, o.mm, o.ram, o.swp, nswp);
    case FreeOp(pid, id) =>
      assert Tabled(m.mms[pid]);
      FreeMapped(m.mms[pid], id);
      FreeSlots(m, pid, id, nswp);
  }

  lemma FreeSlots(m: State, pid: nat, id: nat, nswp: nat)
    requires SlotsOwned(m, nswp) && pid < |m.mms| && id < |m.mms[pid].sym|
    ensures SlotsOwned(m.(mms := m.mms[pid := Free(m.mms[pid], id)]), nswp)
  {
    SlotsReplace(m, pid, Free(m.mms[pid], id), m.ram, m.swp, nswp);
  }

  /** Slot ownership over every legal run, failed mappings and misused ids included: the slots
      recorded in the page tables of all processes and the free slots are the slots of the
      device, each exactly once; resident pages are not marked swapped. */
  lemma {:induction false} SlotOwnership(tr: seq<State>, ops: seq<Op>, nram: nat, nswp: nat, k: nat)
    requires IsRun(tr, ops, nram, nswp) && k < |tr|
    ensures AllTabled(tr[k]) && SlotsOwned(tr[k], nswp)
  {
    hide SlotsOwned, Step, Legal, Tabled, VmOk;
    if k == 0 {
      SlotsStart(tr[0], nswp);
    } else {
      SlotOwnership(tr, ops, nram, nswp, k - 1);
      SlotsStep(tr[k - 1], ops[k - 1], nswp);
    }
  }

  lemma SlotsStart(m: State, nswp: nat)
    requires m.mms == [] && m.swp == Range(nswp)
    ensures SlotsOwned(m, nswp)
  {
    assert SlotParts([]) == [];
  }

  /** The map half of agreement. */
  lemma MappedStep(m: State, op: Op)
    requires AllMapped(m) && Shape(m) && Legal(m, op)
    ensures AllMapped(Step(m, op)) <==> Maps(m, op)
  {
    hide MappedOk, Alloc, CanMap;
    match op
    case Spawn => InitMapped();
    case AllocOp(pid, id, size) =>
      assert MappedOk(m.mms[pid]);
      AllocMapped(m.mms[pid], m.ram, m.swp, id, size);
      assert Step(m, op).mms[pid] == AllocAt(m, pid, id, size).mm;
    case FreeOp(pid, id) =>
      assert MappedOk(m.mms[pid]);
      FreeMapped(m.mms[pid], id);
  }

  /** The count half: a step that can be mapped loses neither page nor frame. */
  lemma ResidentsStep(m: State, op: Op, nram: nat)
    requires AllMapped(m) && Shape(m) && Legal(m, op) && Maps(m, op) && Residents(m.mms) + |m.ram| == nram
    ensures Residents(Step(m, op).mms) + |Step(m, op).ram| == nram
  {
    hide MappedOk, Tabled, Alloc, CanMap;
    match op
    case Spawn => ResidentsSpawn(m.mms);
    case AllocOp(pid, id, size) =>
      assert MappedOk(m.mms[pid]);
      MappedTabled(m.mms[pid]);
      AllocConserves(m.mms[pid], m.ram, m.swp, id, size);
      ResidentsUpdate(m.mms, pid, AllocAt(m, pid, id, size).mm);
    case FreeOp(pid, id) => ResidentsUpdate(m.mms, pid, Free(m.mms[pid], id));
  }

  /** From a state in agreement, every legal step keeps agreement exactly if it needs no new
      page or the pages it needs can be mapped. */
  lemma AgreesStep(m: State, op: Op, nram: nat, nswp: nat)
    requires Agrees(m, nram, nswp) && Shape(m) && Legal(m, op)
    ensures Agrees(Step(m, op), nram, nswp) <==> Maps(m, op)
  {
    hide MappedOk, Tabled, SlotsOwned;
    MappedStep(m, op);
    if Maps(m, op) {
      forall i | 0 <= i < |m.mms| ensures Tabled(m.mms[i]) {
        MappedTabled(m.mms[i]);
      }
      SlotsStep(m, op, nswp);
      ResidentsStep(m, op, nram);
    }
  }

  lemma Rebalance(all: multiset<nat>, one: multiset<nat>, dev: multiset<nat>,
                  all': multiset<nat>, one': multiset<nat>, dev': multiset<nat>)
    requires all' + one == all + one' && one' + dev' == one + dev
    ensures all' + dev' == all + dev
  {
    forall x ensures (all' + dev')[x] == (all + dev)[x] {
      assert (all' + one)[x] == (all + one')[x] && (one' + dev')[x] == (one + dev)[x];
    }
  }

  /** Agreement over whole runs, ids misused or not: every page of every area is either on its
      FIFO list (once) and not marked swapped, or off the list and marked swapped; recorded
      and free slots are each slot of the device exactly once; resident pages and free frames
      together number the frames of the RAM.  This holds all along a run exactly if every
      allocation of the run can be mapped. */
  lemma {:induction false} Agreement(tr: seq<State>, ops: seq<Op>, nram: nat, nswp: nat, k: nat)
    requires IsRun(tr, ops, nram, nswp) && k < |tr|
    ensures (forall j :: 0 <= j <= k ==> Agrees(tr[j], nram, nswp))
            <==> (forall j :: 0 <= j < k ==> Maps(tr[j], ops[j]))
  {
    hide Agrees, Step, Shape, Legal, Maps;
    if k == 0 {
      AgreesStart(tr[0], nram, nswp);
    } else {
      Agreement(tr, ops, nram, nswp, k - 1);
      assert Shape(tr[k - 1]) && Legal(tr[k - 1], ops[k - 1]) && tr[k] == Step(tr[k - 1], ops[k - 1]);
      if Agrees(tr[k - 1], nram, nswp) {
        AgreesStep(tr[k - 1], ops[k - 1], nram, nswp);
      }
    }
  }

  lemma AgreesStart(m: State, nram: nat, nswp: nat)
    requires m == State([], Range(nram), Range(nswp))
    ensures Agrees(m, nram, nswp)
  {
    SlotsStart(m, nswp);
  }

  // ----------------------------------------------------------------- frame ownership

  /** Frames of resident pages and free frames: each frame of the RAM exactly once. */
  ghost predicate Owned(m: State, nram: nat)
    requires Shape(m)
  {
    AllFrames(m.mms) + multiset(m.ram) == multiset(Range(nram))
  }

  /** The allocation must grow the area of process `pid`. */
  predicate Grows(m: State, op: Op)
    requires Shape(m) && Legal(m, op)
  {
    op.AllocOp? && Take(m.mms[op.pid].free, op.size) == None
  }

  /** Before the call: the operation evicts no page and loses no free frame, or it evicts a
      single page, stored in frame 0. */
  predicate Spares(m: State, op: Op)
    requires Shape(m) && Legal(m, op)
  {
    Grows(m, op) ==>
      var mm := m.mms[op.pid];
      if Serves(mm, m.ram, m.swp, op.size) then
        var lost := Lost(mm, Shortfall(PagesFor(op.size), m.ram));
        lost == [] || lost == [0]
      else m.ram == [] && mm.fifo == []
  }

  lemma MultisetCount(s: seq<nat>, i: nat, j: nat)
    requires i < j < |s| && s[i] == s[j]
    ensures multiset(s)[s[i]] >= 2
  {
    assert s == s[..j] + s[j..];
    assert s[i] in s[..j] && s[j] in s[j..];
  }

  lemma {:induction false} RangeCount(n: nat, x: nat)
    ensures multiset(Range(n))[x] == if x < n then 1 else 0
  {
    if n > 0 {
      RangeCount(n - 1, x);
      assert Range(n) == Range(n - 1) + [n - 1];
    } else {
      assert Range(0) == [];
    }
  }

  /** In an owned state the frames of one process are distinct. */
  lemma OwnFramesDistinct(m: State, nram: nat, pid: nat)
    requires Shape(m) && Owned(m, nram) && pid < |m.mms|
    ensures NoDup(FramesOf(m.mms[pid].pgd, m.mms[pid].fifo))
  {
    var s := FramesOf(m.mms[pid].pgd, m.mms[pid].fifo);
    UnionWithin(FrameParts(m.mms), pid);
    forall i, j | 0 <= i < j < |s| ensures s[i] != s[j] {
      RangeCount(nram, s[i]);
      assert multiset(s)[s[i]] <= (AllFrames(m.mms) + multiset(m.ram))[s[i]];
      if s[i] == s[j] { MultisetCount(s, i, j); }
    }
  }

  lemma Exchange(all: multiset<nat>, one: multiset<nat>, dev: multiset<nat>, lost: multiset<nat>,
                 all': multiset<nat>, one': multiset<nat>, dev': multiset<nat>, got: multiset<nat>)
    requires all' + one == all + one' && one' + dev' + lost == one + dev + got
    ensures all' + dev' == all + dev <==> lost == got
  {
    forall x ensures (all' + dev')[x] + lost[x] == (all + dev)[x] + got[x] {
      assert (all' + one)[x] == (all + one')[x];
      assert (one' + dev' + lost)[x] == (one + dev + got)[x];
    }
    if all' + dev' == all + dev {
      assert forall x :: lost[x] == got[x];
    }
    if lost == got {
      assert forall x :: (all' + dev')[x] == (all + dev)[x];
    }
  }

  /** Replacing one address space and the RAM, with `lost` exchanged for `got`. */
  lemma OwnedReplace(m: State, pid: nat, mm: Mm, ram: seq<nat>, swp: seq<nat>, nram: nat, lost: seq<nat>, got: seq<nat>)
    requires Shape(m) && Owned(m, nram) && pid < |m.mms| && PagesOk(mm.fifo)
    requires multiset(FramesOf(mm.pgd, mm.fifo)) + multiset(ram) + multiset(lost)
             == multiset(FramesOf(m.mms[pid].pgd, m.mms[pid].fifo)) + multiset(m.ram) + multiset(got)
    requires Shape(State(m.mms[pid := mm], ram, swp))
    ensures Owned(State(m.mms[pid := mm], ram, swp), nram) <==> multiset(lost) == multiset(got)
  {
    FramesUpdate(m.mms, pid, mm);
    Exchange(AllFrames(m.mms), multiset(FramesOf(m.mms[pid].pgd, m.mms[pid].fifo)), multiset(m.ram), multiset(lost),
             AllFrames(m.mms[pid := mm]), multiset(FramesOf(mm.pgd, mm.fifo)), multiset(ram), multiset(got));
  }

  /** The k oldest pages of process `pid` evicted, with the frames they are believed to hold. */
  lemma OwnedEvict(m: State, pid: nat, mm: Mm, ram: seq<nat>, swp: seq<nat>, nram: nat, k: nat)
    requires Shape(m) && Owned(m, nram) && pid < |m.mms| && PagesOk(mm.fifo) && k <= |m.mms[pid].fifo|
    requires multiset(FramesOf(mm.pgd, mm.fifo)) + multiset(ram) + multiset(Lost(m.mms[pid], k))
             == multiset(FramesOf(m.mms[pid].pgd, m.mms[pid].fifo)) + multiset(m.ram)
                + multiset(Believed(m.mms[pid], k))
    requires Shape(State(m.mms[pid := mm], ram, swp))
    ensures Owned(State(m.mms[pid := mm], ram, swp), nram) <==> Lost(m.mms[pid], k) == [] || Lost(m.mms[pid], k) == [0]
  {
    OwnedReplace(m, pid, mm, ram, swp, nram, Lost(m.mms[pid], k), Believed(m.mms[pid], k));
    OwnFramesDistinct(m, nram, pid);
    ExchangeExact(Lost(m.mms[pid], k), Believed(m.mms[pid], k));
  }

  /** A growing allocation that can be mapped. */
  lemma OwnedAlloc(m: State, pid: nat, id: nat, size: nat, nram: nat)
    requires Spaces(m) && Shape(m) && Owned(m, nram) && Legal(m, AllocOp(pid, id, size))
    requires Take(m.mms[pid].free, size) == None && Serves(m.mms[pid], m.ram, m.swp, size)
    requires Shape(Step(m, AllocOp(pid, id, size)))
    ensures var lost := Lost(m.mms[pid], Shortfall(PagesFor(size), m.ram));
            Owned(Step(m, AllocOp(pid, id, size)), nram) <==> lost == [] || lost == [0]
  {
    var o := AllocAt(m, pid, id, size);
    assert VmOk(m.mms[pid]);
    AllocFrames(m.mms[pid], m.ram, m.swp, id, size);
    OwnedEvict(m, pid, o.mm, o.ram, o.swp, nram, Shortfall(PagesFor(size), m.ram));
  }

  /** A growing allocation that cannot be mapped leaves fewer frames on record than before,
      unless there was neither a free frame nor a page to evict. */
  lemma OwnedFail(m: State, pid: nat, id: nat, size: nat, nram: nat)
    requires Spaces(m) && Shape(m) && Owned(m, nram) && Legal(m, AllocOp(pid, id, size))
    requires Take(m.mms[pid].free, size) == None && !Serves(m.mms[pid], m.ram, m.swp, size)
    requires Shape(Step(m, AllocOp(pid, id, size)))
    ensures Owned(Step(m, AllocOp(pid, id, size)), nram) <==> m.ram == [] && m.mms[pid].fifo == []
  {
    hide SwapOut, FpnField, Owned;
    var mm, o := m.mms[pid], AllocAt(m, pid, id, size);
    assert VmOk(mm);
    FailShape(mm, m.ram, m.swp, size);
    GrownPages(mm, id, size, Extend(mm, m.ram, m.swp, size));
    if m.ram == [] && mm.fifo == [] {
      OwnedReplace(m, pid, o.mm, o.ram, o.swp, nram, [], []);
    } else {
      FramesUpdate(m.mms, pid, o.mm);
      assert |o.mm.fifo| < |mm.fifo| || (m.ram != [] && |o.mm.fifo| == |mm.fifo|);
      FewerFrames(m, pid, o.mm, o.ram, o.swp, nram);
    }
  }

  lemma FewerFrames(m: State, pid: nat, mm: Mm, ram: seq<nat>, swp: seq<nat>, nram: nat)
    requires Shape(m) && Owned(m, nram) && pid < |m.mms| && PagesOk(mm.fifo)
    requires Shape(State(m.mms[pid := mm], ram, swp)) && |mm.fifo| + |ram| < |m.mms[pid].fifo| + |m.ram|
    ensures !Owned(State(m.mms[pid := mm], ram, swp), nram)
  {
    FramesUpdate(m.mms, pid, mm);
    Sizes(AllFrames(m.mms[pid := mm]), FramesOf(m.mms[pid].pgd, m.mms[pid].fifo),
          AllFrames(m.mms), FramesOf(mm.pgd, mm.fifo));
    OwnedSize(m, nram);
    TooFew(State(m.mms[pid := mm], ram, swp), nram);
  }

  lemma OwnedSize(m: State, nram: nat)
    requires Shape(m) && Owned(m, nram)
    ensures |AllFrames(m.mms)| + |m.ram| == nram
  {
    assert |AllFrames(m.mms) + multiset(m.ram)| == |multiset(Range(nram))|;
  }

  lemma TooFew(m: State, nram: nat)
    requires Shape(m) && |AllFrames(m.mms)| + |m.ram| < nram
    ensures !Owned(m, nram)
  {
    assert |AllFrames(m.mms) + multiset(m.ram)| < |multiset(Range(nram))|;
  }

  lemma Sizes(all': multiset<nat>, one: seq<nat>, all: multiset<nat>, one': seq<nat>)
    requires all' + multiset(one) == all + multiset(one')
    ensures |all'| + |one| == |all| + |one'|
  {
    assert |all' + multiset(one)| == |all + multiset(one')|;
  }

  lemma OwnedSpawn(m: State, nram: nat)
    requires Shape(m) && Owned(m, nram)
    ensures Shape(m.(mms := m.mms + [InitMm()])) && Owned(m.(mms := m.mms + [InitMm()]), nram)
  {
    hide FramesOf, Range;
    FramePartsSnoc(m.mms);
    UnionSnoc(FrameParts(m.mms), multiset{});
  }

  /** Frame ownership survives a step, of whatever kind, exactly under a condition on the
      state before: a mapping that succeeds evicts no page, or one page stored in frame 0;
      and one that fails finds no free frame and no page to take.  alloc_pages_range means to
      reuse the victim's frame, but PAGING_FPN reads another one for every frame but 0; and
      what a failed call has taken is lost. */
  lemma OwnershipStep(m: State, op: Op, nram: nat)
    requires Spaces(m) && Shape(m) && Owned(m, nram) && Legal(m, op)
    ensures Shape(Step(m, op))
    ensures Owned(Step(m, op), nram) <==> Spares(m, op)
  {
    hide Owned, VmOk, FramesOf;
    SpacesStep(m, op);
    match op
    case Spawn => OwnedSpawn(m, nram);
    case AllocOp(pid, id, size) =>
      if Take(m.mms[pid].free, size) != None {
        var o := AllocAt(m, pid, id, size);
        OwnedReplace(m, pid, o.mm, o.ram, o.swp, nram, [], []);
      } else if Serves(m.mms[pid], m.ram, m.swp, size) {
        OwnedAlloc(m, pid, id, size, nram);
      } else {
        OwnedFail(m, pid, id, size, nram);
      }
    case FreeOp(pid, id) =>
      OwnedReplace(m, pid, Free(m.mms[pid], id), m.ram, m.swp, nram, [], []);
  }

  /** Frame ownership over whole runs: the frames of all resident pages of all processes and
      the free frames are the frames of the RAM, each exactly once, as long as every
      operation spares them, and only so long. */
  lemma {:induction false} FrameOwnership(tr: seq<State>, ops: seq<Op>, nram: nat, nswp: nat, k: nat)
    requires IsRun(tr, ops, nram, nswp) && k < |tr|
    ensures forall j :: 0 <= j <= k ==> Shape(tr[j])
    ensures (forall j :: 0 <= j <= k ==> Owned(tr[j], nram)) <==> (forall j :: 0 <= j < k ==> Spares(tr[j], ops[j]))
  {
    hide Step, Legal, VmOk, Owned, Spares;
    RunSpaces(tr, ops, nram, nswp, k);
    if k == 0 {
      AllFree(tr[0], nram);
    } else {
      FrameOwnership(tr, ops, nram, nswp, k - 1);
      RunSpaces(tr, ops, nram, nswp, k - 1);
      if Owned(tr[k - 1], nram) {
        OwnershipStep(tr[k - 1], ops[k - 1], nram);
      }
    }
  }

  lemma AllFree(m: State, nram: nat)
    requires Shape(m) && m.mms == [] && m.ram == Range(nram)
    ensures Owned(m, nram)
  {
    assert FrameParts([]) == [];
  }

  /** One fresh process that has allocated `size` bytes as region 0, on `nram` free frames. */
  lemma FirstAlloc(nram: nat, nswp: nat, size: nat)
    requires 0 < size && size % 256 == 0 && Aligned(size) <= BUS
    requires PagesFor(size) <= nram <= MAX_FPN && nswp <= MAX_SWPOFF
    ensures Take(InitMm().free, size) == None && Serves(InitMm(), Range(nram), Range(nswp), size)
    ensures DevicesOk(Range(nram), Range(nswp))
    ensures var o := Alloc(InitMm(), Range(nram), Range(nswp), 0, size);
            && PagesOk(o.mm.fifo) && FramesOf(o.mm.pgd, o.mm.fifo) == Range(PagesFor(size))
            && o.mm.free == [Region(0, 0)] && o.mm.vmEnd == size && o.mm.live == {0}
            && o.ram == Range(nram)[PagesFor(size)..] && o.swp == Range(nswp)
  {
    hide FpnField, MapPages, SwapOut, Extend;
    var mm, ram, swp, n := InitMm(), Range(nram), Range(nswp), PagesFor(size);
    InitOk();
    assert [Region(0, 0)][1..] == [];
    ExtendShape(mm, ram, swp, size);
    FramesAfter(n, mm.pgd, [], ram, swp, 0);
    assert Obtained(n, mm.pgd, [], ram) == Range(n);
    assert swp[0..] == swp;
  }

  /** A run that loses a frame by eviction: two frames, both given to one region of 512 bytes;
      one page more evicts the page in frame 1, and that frame is neither mapped nor free. */
  lemma EvictionLoses() returns (tr: seq<State>, ops: seq<Op>)
    ensures IsRun(tr, ops, 2, 1) && |ops| == 3 && forall j :: 0 <= j < 3 ==> Harmless(tr[j], ops[j])
    ensures Shape(tr[2]) && Owned(tr[2], 2) && Shape(tr[3]) && !Owned(tr[3], 2)
  {
    hide Owned, Alloc, VmOk, FramesOf, Extend, PagesFor, Aligned;
    Sizes256();
    FirstAlloc(2, 1, 512);
    ops := [Spawn, AllocOp(0, 0, 512), AllocOp(0, 1, 256)];
    var s0 := State([], Range(2), Range(1));
    SpacesShape(s0);
    AllFree(s0, 2);
    OwnershipStep(s0, ops[0], 2);
    SpacesStep(s0, ops[0]);
    var s1 := Step(s0, ops[0]);
    assert s1.mms == [InitMm()];
    NoneLost(s1, ops[1]);
    OwnershipStep(s1, ops[1], 2);
    SpacesStep(s1, ops[1]);
    var s2 := Step(s1, ops[1]);
    var mm := s2.mms[0];
    assert [Region(0, 0)][1..] == [] && s2.ram == [];
    assert |mm.fifo| == 2 && Lost(mm, 1) == [1];
    assert !Spares(s2, ops[2]);
    OwnershipStep(s2, ops[2], 2);
    tr := [s0, s1, s2, Step(s2, ops[2])];
  }

  lemma NoneLost(m: State, op: Op)
    requires Shape(m) && Legal(m, op) && Grows(m, op) && Shortfall(PagesFor(op.size), m.ram) == 0
    ensures Spares(m, op)
  {}

  /** A run that loses a frame without any eviction: the call takes the only frame, finds
      nothing to evict for the second page, and gives up. */
  lemma FailureLoses() returns (tr: seq<State>, ops: seq<Op>)
    ensures IsRun(tr, ops, 1, 0) && |ops| == 2 && forall j :: 0 <= j < 2 ==> Harmless(tr[j], ops[j])
    ensures Shape(tr[1]) && Owned(tr[1], 1) && tr[1].mms[0].fifo == []
    ensures Shape(tr[2]) && !Owned(tr[2], 1)
  {
    hide Owned, Alloc, VmOk, FramesOf, Extend, PagesFor, Aligned;
    Sizes256();
    ops := [Spawn, AllocOp(0, 0, 512)];
    var s0 := State([], Range(1), Range(0));
    SpacesShape(s0);
    AllFree(s0, 1);
    OwnershipStep(s0, ops[0], 1);
    SpacesStep(s0, ops[0]);
    var s1 := Step(s0, ops[0]);
    assert s1.mms == [InitMm()] && [Region(0, 0)][1..] == [];
    assert !Spares(s1, ops[1]);
    OwnershipStep(s1, ops[1], 1);
    tr := [s0, s1, Step(s1, ops[1])];
  }

  /** Stored frame numbers and free frames lie below `lim`. */
  ghost predicate Below(m: State, lim: nat)
    requires Shape(m)
  {
    AllBelow(m.ram, lim) && forall i :: 0 <= i < |m.mms| ==> AllBelow(FramesOf(m.mms[i].pgd, m.mms[i].fifo), lim)
  }

  lemma BelowStep(m: State, op: Op, lim: nat)
    requires Spaces(m) && Shape(m) && Legal(m, op) && Below(m, lim)
    ensures Shape(Step(m, op)) && Below(Step(m, op), lim)
  {
    hide VmOk, FpnField, Extend, AllBelow;
    SpacesStep(m, op);
    match op
    case Spawn => NoFrames(lim);
    case AllocOp(pid, id, size) =>
      var mm := m.mms[pid];
      if Take(mm.free, size) == None {
        ExtendBelow(mm, m.ram, m.swp, size, lim);
        GrownPages(mm, id, size, Extend(mm, m.ram, m.swp, size));
      }
    case FreeOp(pid, id) =>
  }

  lemma NoFrames(lim: nat)
    ensures FramesOf(InitMm().pgd, []) == [] && AllBelow([], lim)
  {}

  /** In every run, evictions and failed mappings included, no entry of a resident page ever
      stores a frame number that the RAM does not have. */
  lemma {:induction false} FramesExist(tr: seq<State>, ops: seq<Op>, nram: nat, nswp: nat, k: nat)
    requires IsRun(tr, ops, nram, nswp) && k < |tr|
    ensures Shape(tr[k]) && Below(tr[k], nram)
  {
    hide Step, Legal, VmOk, Below;
    RunSpaces(tr, ops, nram, nswp, k);
    if k == 0 {
      BelowStart(tr[0], nram);
    } else {
      FramesExist(tr, ops, nram, nswp, k - 1);
      RunSpaces(tr, ops, nram, nswp, k - 1);
      BelowStep(tr[k - 1], ops[k - 1], nram);
    }
  }

  lemma BelowStart(m: State, nram: nat)
    requires Shape(m) && m.mms == [] && m.ram == Range(nram)
    ensures Below(m, nram)
  {}
}
