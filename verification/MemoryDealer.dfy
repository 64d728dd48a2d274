/** Live allocations over the best-fit allocator: who owns which bytes, over whole runs. */
module MemoryDealer {
  import opened ChunkList
  import opened Blocks
  import opened BestFit

  datatype Allocation = Allocation(offset: nat, size: nat)

  /** The allocator's chunks and the allocations clients still hold. */
  datatype Heap = Heap(chunks: seq<Block>, live: map<nat, Allocation>)

  datatype Op = Allocate(id: nat, size: nat, aligned: bool) | Destroy(id: nat)

  /** The chunk that stands for an allocation of at least one byte. */
  function BlockOf(a: Allocation): Block { Block(a.offset / MEMORY_ALIGN, Units(a.size), false) }

  /** The request does not wrap when it is rounded up. */
  predicate Sane(size: nat) { size + MEMORY_ALIGN - 1 < SIZE_T }

  ghost predicate Allocates(h: Heap, id: nat, size: nat, perPage: nat, aligned: bool, h': Heap)
    requires perPage > 0
  {
    if size == 0 then h' == h.(live := h.live[id := Allocation(0, 0)])
    else if NoneFits(h.chunks, Units(size), perPage, aligned) then h' == h
    else exists k: nat ::
      IsBest(h.chunks, k, Units(size), perPage, aligned) && h' == Allocated(h, id, size, perPage, aligned, k)
  }

  function Allocated(h: Heap, id: nat, size: nat, perPage: nat, aligned: bool, k: nat): Heap
    requires perPage > 0 && k < |h.chunks| && Fits(h.chunks[k], Units(size), perPage, aligned)
  {
    var b := h.chunks[k];
    var extra := Extra(b.start, perPage, aligned);
    Heap(Take(h.chunks, k, Units(size), extra), h.live[id := Allocation((b.start + extra) * MEMORY_ALIGN, size)])
  }

  /** An allocation of size zero has no chunk and is not given back. */
  ghost predicate Destroys(h: Heap, id: nat, h': Heap)
    requires id in h.live
  {
    var a := h.live[id];
    && h'.live == h.live - {id}
    && if a.size == 0 || (forall j :: 0 <= j < |h.chunks| ==> h.chunks[j].start != a.offset / MEMORY_ALIGN)
       then h'.chunks == h.chunks
       else exists k: nat :: IsFirstAt(h.chunks, k, a.offset / MEMORY_ALIGN) && h'.chunks == Release(h.chunks, k)
  }

  ghost predicate Step(h: Heap, op: Op, perPage: nat, h': Heap)
    requires perPage > 0
  {
    match op
    case Allocate(id, size, aligned) => id !in h.live && size < SIZE_T && Allocates(h, id, size, perPage, aligned, h')
    case Destroy(id) => id in h.live && Destroys(h, id, h')
  }

  // ----- the invariant -----

  ghost predicate Holds(h: Heap, id: nat) { id in h.live && h.live[id].size > 0 }

  ghost predicate Recorded(h: Heap) {
    forall id :: Holds(h, id) ==>
      Sane(h.live[id].size) && h.live[id].offset % MEMORY_ALIGN == 0 && BlockOf(h.live[id]) in h.chunks
  }

  ghost predicate Apart(h: Heap) {
    forall id, id' :: Holds(h, id) && Holds(h, id') && id != id' ==> BlockOf(h.live[id]) != BlockOf(h.live[id'])
  }

  ghost predicate Owned(h: Heap) {
    forall b: Block :: b in h.chunks && !b.free ==> exists id :: Holds(h, id) && BlockOf(h.live[id]) == b
  }

  /** The used chunks and the allocations held correspond one to one. */
  ghost predicate Inv(h: Heap, units: nat) {
    Tiles(h.chunks, units) && Recorded(h) && Apart(h) && Owned(h)
  }

  lemma Start(units: nat)
    requires 0 < units < SIZE_LIMIT
    ensures Inv(Heap([Block(0, units, true)], map[]), units)
  {
  }

  lemma UnitsCover(size: nat)
    requires size < SIZE_T
    ensures Sane(size) ==> size <= Units(size) * MEMORY_ALIGN < size + MEMORY_ALIGN
    ensures Units(size) == 0 <==> size == 0 || !Sane(size)
  {
    if Sane(size) {
      assert (size + MEMORY_ALIGN - 1) % SIZE_T == size + MEMORY_ALIGN - 1;
    } else {
      assert (size + MEMORY_ALIGN - 1) % SIZE_T == size + MEMORY_ALIGN - 1 - SIZE_T;
    }
  }

  /** The chunk taken is new, and the other used chunks stay. */
  lemma TakeOwned(bs: seq<Block>, units: nat, k: nat, n: nat, extra: nat, mine: Block)
    requires Tiles(bs, units) && k < |bs| && bs[k].free && 0 < n && n + extra <= bs[k].size
    requires mine == Block(bs[k].start + extra, n, false)
    ensures Tiles(Take(bs, k, n, extra), units) && mine !in bs
    ensures forall b: Block :: !b.free ==> (b in Take(bs, k, n, extra) <==> b in bs || b == mine)
  {
    TakeKeeps(bs, units, k, n, extra);
    forall b: Block | !b.free ensures b in Take(bs, k, n, extra) <==> b in bs || b == mine {
      TakeUsed(bs, k, n, extra, b);
    }
    if mine in bs {
      var i :| 0 <= i < |bs| && bs[i] == mine;
      SameTile(bs, units, i, k, mine.start);
      assert false;
    }
  }

  lemma AllocatedKeeps(h: Heap, units: nat, id: nat, size: nat, perPage: nat, aligned: bool, k: nat)
    requires Inv(h, units) && perPage > 0 && id !in h.live && 0 < size < SIZE_T && Sane(size)
    requires k < |h.chunks| && Fits(h.chunks[k], Units(size), perPage, aligned)
    ensures Inv(Allocated(h, id, size, perPage, aligned, k), units)
  {
    UnitsCover(size);
    var h' := Allocated(h, id, size, perPage, aligned, k);
    var extra := Extra(h.chunks[k].start, perPage, aligned);
    var mine := BlockOf(h'.live[id]);
    TakeOwned(h.chunks, units, k, Units(size), extra, mine);
    forall i | Holds(h', i) && i != id
      ensures Holds(h, i) && h'.live[i] == h.live[i] && BlockOf(h.live[i]) in h.chunks
    {
    }
    forall b: Block | b in h'.chunks && !b.free ensures exists i :: Holds(h', i) && BlockOf(h'.live[i]) == b {
      if b == mine {
        assert Holds(h', id);
      } else {
        var i :| Holds(h, i) && BlockOf(h.live[i]) == b;
        assert Holds(h', i);
      }
    }
  }

  /** A chunk of no units ends the tiling for good. */
  lemma EmptyTake(h: Heap, units: nat, id: nat, size: nat, perPage: nat, aligned: bool, k: nat)
    requires perPage > 0 && k < |h.chunks| && Fits(h.chunks[k], Units(size), perPage, aligned) && Units(size) == 0
    ensures !Inv(Allocated(h, id, size, perPage, aligned, k), units)
  {
    var h', extra := Allocated(h, id, size, perPage, aligned, k), Extra(h.chunks[k].start, perPage, aligned);
    TakeUsed(h.chunks, k, 0, extra, Block(h.chunks[k].start + extra, 0, false));
  }

  /** The chunk of a live allocation is the one `dealloc` finds. */
  lemma FindsOwn(h: Heap, units: nat, id: nat, k: nat)
    requires Inv(h, units) && Holds(h, id)
    ensures exists j: nat :: IsFirstAt(h.chunks, j, h.live[id].offset / MEMORY_ALIGN)
    ensures IsFirstAt(h.chunks, k, h.live[id].offset / MEMORY_ALIGN) ==> h.chunks[k] == BlockOf(h.live[id])
  {
    var b := BlockOf(h.live[id]);
    var i: nat :| i < |h.chunks| && h.chunks[i] == b;
    forall j | 0 <= j < |h.chunks| && h.chunks[j].start == b.start ensures i == j {
      SameTile(h.chunks, units, i, j, b.start);
    }
    assert IsFirstAt(h.chunks, i, b.start);
  }

  lemma ReleasedKeeps(h: Heap, units: nat, id: nat, k: nat, h': Heap)
    requires Inv(h, units) && Holds(h, id) && k < |h.chunks| && h.chunks[k] == BlockOf(h.live[id])
    requires h' == Heap(Release(h.chunks, k), h.live - {id})
    ensures Inv(h', units)
  {
    ReleaseKeeps(h.chunks, units, k);
    forall i | Holds(h', i)
      ensures Holds(h, i) && h'.live[i] == h.live[i] && BlockOf(h.live[i]) in h'.chunks
    {
      assert BlockOf(h.live[i]) != h.chunks[k];
    }
    forall b: Block | b in h'.chunks && !b.free ensures exists i :: Holds(h', i) && BlockOf(h'.live[i]) == b {
      var i :| Holds(h, i) && BlockOf(h.live[i]) == b;
      assert Holds(h', i);
    }
  }

  /** The one request that breaks the heap: rounding it up wraps to nothing, and a free chunk takes it. */
  ghost predicate Breaks(h: Heap, op: Op, perPage: nat)
    requires perPage > 0
  {
    op.Allocate? && op.size > 0 && !Sane(op.size) && !NoneFits(h.chunks, 0, perPage, op.aligned)
  }

  lemma AllocateKeeps(h: Heap, units: nat, op: Op, perPage: nat, h': Heap)
    requires op.Allocate? && Inv(h, units) && perPage > 0 && Step(h, op, perPage, h')
    ensures Inv(h', units) <==> !Breaks(h, op, perPage)
  {
    UnitsCover(op.size);
    if op.size == 0 {
      ZeroKeeps(h, units, op.id, h');
    } else if !NoneFits(h.chunks, Units(op.size), perPage, op.aligned) {
      var k: nat :| IsBest(h.chunks, k, Units(op.size), perPage, op.aligned)
        && h' == Allocated(h, op.id, op.size, perPage, op.aligned, k);
      if Sane(op.size) {
        AllocatedKeeps(h, units, op.id, op.size, perPage, op.aligned, k);
      } else {
        EmptyTake(h, units, op.id, op.size, perPage, op.aligned, k);
      }
    }
  }

  lemma ZeroKeeps(h: Heap, units: nat, id: nat, h': Heap)
    requires Inv(h, units) && h'.chunks == h.chunks
    requires forall i :: Holds(h', i) <==> Holds(h, i)
    requires forall i :: Holds(h, i) ==> i in h'.live && h'.live[i] == h.live[i]
    ensures Inv(h', units)
  {
    forall b: Block | b in h'.chunks && !b.free ensures exists i :: Holds(h', i) && BlockOf(h'.live[i]) == b {
      var i :| Holds(h, i) && BlockOf(h.live[i]) == b;
      assert Holds(h', i);
    }
  }

  lemma DestroyKeeps(h: Heap, units: nat, op: Op, perPage: nat, h': Heap)
    requires op.Destroy? && Inv(h, units) && perPage > 0 && Step(h, op, perPage, h')
    ensures Inv(h', units)
  {
    var id := op.id;
    if h.live[id].size == 0 {
      ZeroKeeps(h, units, id, h');
    } else {
      FindsOwn(h, units, id, 0);
      var k: nat :| IsFirstAt(h.chunks, k, h.live[id].offset / MEMORY_ALIGN) && h'.chunks == Release(h.chunks, k);
      FindsOwn(h, units, id, k);
      ReleasedKeeps(h, units, id, k, h');
    }
  }

  /** Every step keeps the invariant, except exactly the request that breaks it. */
  lemma StepKeeps(h: Heap, units: nat, op: Op, perPage: nat, h': Heap)
    requires Inv(h, units) && perPage > 0 && Step(h, op, perPage, h')
    ensures Inv(h', units) <==> !Breaks(h, op, perPage)
  {
    if op.Allocate? { AllocateKeeps(h, units, op, perPage, h'); } else { DestroyKeeps(h, units, op, perPage, h'); }
  }

  // ----- runs -----

  ghost predicate IsRun(hs: seq<Heap>, ops: seq<Op>, units: nat, perPage: nat)
    requires perPage > 0
  {
    && |hs| == |ops| + 1 && hs[0] == Heap([Block(0, units, true)], map[])
    && forall i {:trigger ops[i]} :: 0 <= i < |ops| ==> Step(hs[i], ops[i], perPage, hs[i + 1])
  }

  lemma {:induction false} RunKeeps(hs: seq<Heap>, ops: seq<Op>, units: nat, perPage: nat, n: nat)
    requires 0 < units < SIZE_LIMIT && perPage > 0 && IsRun(hs, ops, units, perPage) && n < |hs|
    requires forall i :: 0 <= i < n ==> ops[i].Allocate? ==> Sane(ops[i].size)
    ensures Inv(hs[n], units)
  {
    if n == 0 {
      Start(units);
    } else {
      RunKeeps(hs, ops, units, perPage, n - 1);
      assert Step(hs[n - 1], ops[n - 1], perPage, hs[n]);
      StepKeeps(hs[n - 1], units, ops[n - 1], perPage, hs[n]);
    }
  }

  // ----- what the invariant means for clients -----

  /** The bytes of two allocations never overlap, and they lie inside the heap. */
  lemma NoOverlap(h: Heap, units: nat, id: nat, id': nat)
    requires Inv(h, units) && Holds(h, id) && Holds(h, id') && id != id'
    ensures var a, b := h.live[id], h.live[id']; a.offset + a.size <= b.offset || b.offset + b.size <= a.offset
    ensures h.live[id].offset + h.live[id].size <= units * 32 && h.live[id].offset % 32 == 0
  {
    var a, b := h.live[id], h.live[id'];
    UnitsCover(a.size);
    UnitsCover(b.size);
    var i: nat :| i < |h.chunks| && h.chunks[i] == BlockOf(a);
    var j: nat :| j < |h.chunks| && h.chunks[j] == BlockOf(b);
    Within(h.chunks, units, i);
    if i < j { Ordered(h.chunks, units, i, j); }
    if j < i { Ordered(h.chunks, units, j, i); }
  }

  /** A unit is free exactly when no allocation covers it. */
  lemma FreeIff(h: Heap, units: nat, u: nat)
    requires Inv(h, units) && u < units
    ensures FreeUnit(h.chunks, u) <==> !exists id :: Holds(h, id) && BlockOf(h.live[id]).Covers(u)
  {
    var i := TileOf(h.chunks, units, u, |h.chunks|);
    if h.chunks[i].free {
      forall id | Holds(h, id) ensures !BlockOf(h.live[id]).Covers(u) {
        var j: nat :| j < |h.chunks| && h.chunks[j] == BlockOf(h.live[id]);
        if BlockOf(h.live[id]).Covers(u) { SameTile(h.chunks, units, i, j, u); }
      }
    } else {
      var id :| Holds(h, id) && BlockOf(h.live[id]) == h.chunks[i];
      if FreeUnit(h.chunks, u) {
        var j :| 0 <= j < |h.chunks| && h.chunks[j].free && h.chunks[j].Covers(u);
        SameTile(h.chunks, units, i, j, u);
        assert false;
      }
    }
  }

  /** Once everything is given back the heap is as it began, whatever the order. */
  lemma AllGivenBack(h: Heap, units: nat)
    requires Inv(h, units) && forall id :: !Holds(h, id)
    ensures h.chunks == [Block(0, units, true)]
  {
    forall u | 0 <= u < units ensures FreeUnit(h.chunks, u) {
      FreeIff(h, units, u);
    }
    AllFree(h.chunks, units);
  }

  /** A request of at least one byte is refused exactly when no long enough run of free units exists. */
  lemma RefusedIff(h: Heap, units: nat, op: Op, perPage: nat, h': Heap)
    requires Inv(h, units) && perPage > 0 && op.Allocate? && Step(h, op, perPage, h') && op.size > 0 && Sane(op.size)
    ensures op.id !in h'.live <==>
      !exists u: nat :: FreeRun(h.chunks, u, Units(op.size)) && (op.aligned ==> u % perPage == 0)
    ensures op.id in h'.live && op.aligned ==> (h'.live[op.id].offset / MEMORY_ALIGN) % perPage == 0
  {
    UnitsCover(op.size);
    NoneFitsIff(h.chunks, units, Units(op.size), perPage, op.aligned);
    if op.id in h'.live {
      var k: nat :| IsBest(h.chunks, k, Units(op.size), perPage, op.aligned)
        && h' == Allocated(h, op.id, op.size, perPage, op.aligned, k);
      ExtraAligns(h.chunks[k].start, perPage);
    }
  }

  /** A request that wraps succeeds with more bytes than the heap has, here one page of 4096 bytes. */
  lemma WrapHappens()
    ensures exists h' ::
      && Step(Heap([Block(0, 128, true)], map[]), Allocate(0, SIZE_T - 1, false), 128, h')
      && 0 in h'.live && h'.live[0].size > 128 * MEMORY_ALIGN && !Inv(h', 128)
  {
    var h, op := Heap([Block(0, 128, true)], map[]), Allocate(0, SIZE_T - 1, false);
    assert Units(op.size) == 0 by { UnitsCover(op.size); }
    assert IsBest(h.chunks, 0, 0, 128, false);
    var h' := Allocated(h, 0, op.size, 128, false, 0);
    EmptyTake(h, 128, 0, op.size, 128, false, 0);
    assert Step(h, op, 128, h');
  }

  // ----- the dealer -----

  /** The dealer with the allocations its clients hold; `live` only records them. */
  class Dealer {
    const allocator: SimpleBestFitAllocator
    ghost var live: map<nat, Allocation>

    ghost predicate Valid()
      reads this, allocator, allocator.list, allocator.list.repr
    {
      allocator.Valid()
    }

    ghost function State(): Heap
      reads this, allocator
    {
      Heap(allocator.chunks, live)
    }

    constructor (size: nat, pageSize: nat)
      requires size < SIZE_T && MEMORY_ALIGN <= pageSize <= SIZE_T
      ensures Valid() && State() == Heap([Block(0, Trunc(allocator.heapSize / MEMORY_ALIGN), true)], map[])
    {
      allocator := new SimpleBestFitAllocator(size, pageSize);
      live := map[];
    }

    /** `allocate`; the new allocation is known as `id` from here on. */
    method Allocate(ghost id: nat, size: nat) returns (memory: Offset)
      requires Valid() && id !in live && size < SIZE_T
      modifies this, allocator, allocator.list, allocator.list.repr
      ensures Valid() && Step(old(State()), Op.Allocate(id, size, false), allocator.PerPage(), State())
      ensures memory == if id in live then At(live[id].offset) else NoMemory
    {
      ghost var k;
      memory, k := allocator.Alloc(size, false);
      if memory != NoMemory {
        live := live[id := Allocation(memory.offset, size)];
      }
    }

    /** `~Allocation` of the allocation known as `id`, which gives it back. */
    method Destroy(ghost id: nat, memory: Allocation)
      requires Valid() && id in live && live[id] == memory
      modifies this, allocator, allocator.list, allocator.list.repr
      ensures Valid() && Step(old(State()), Op.Destroy(id), allocator.PerPage(), State())
    {
      if memory.size != 0 {
        var freed, k := allocator.Dealloc(memory.offset);
      }
      live := live - {id};
    }
  }

  // ----- giving whole pages back -----

  function PageDown(x: nat, page: nat): nat requires page > 0 { x - x % page }

  function PageUp(x: nat, page: nat): nat requires page > 0 { PageDown(x + page - 1, page) }

  /** The range `~Allocation` hands to the kernel, in the order it computes it. */
  function Trimmed(offset: nat, size: nat, page: nat): (nat, nat)
    requires page > 0
  {
    var start, end := PageDown(offset, page), PageUp(offset + size, page);
    var start', end' := if start < offset then offset else start, if end > offset + size then offset + size else end;
    (PageUp(start', page), PageDown(end', page))
  }

  /** Rounding down finds the last page boundary, */
  lemma DownIff(x: nat, page: nat, p: nat)
    requires page > 0
    ensures p * page <= PageDown(x, page) <==> p * page <= x
    ensures PageDown(x, page) <= x < PageDown(x, page) + page && PageDown(x, page) % page == 0
  {
    var q := x / page;
    assert PageDown(x, page) == q * page;
    if p <= q { MulMono(p, q, page); } else { MulMono(q + 1, p, page); }
    DivUnique(q * page, page, q, 0);
  }

  /** and rounding up the first. */
  lemma UpIff(x: nat, page: nat, p: nat)
    requires page > 0
    ensures PageUp(x, page) <= p * page <==> x <= p * page
    ensures x <= PageUp(x, page) && PageUp(x, page) % page == 0
  {
    DownIff(x + page - 1, page, p + 1);
    assert (p + 1) * page == p * page + page;
    var q := (x + page - 1) / page;
    assert PageUp(x, page) == q * page;
    if q <= p { MulMono(q, p, page); } else { MulMono(p + 1, q, page); }
  }

  /** A page is handed back exactly when all of it lies inside the allocation. */
  lemma TrimsWholePages(offset: nat, size: nat, page: nat, p: nat)
    requires page > 0
    ensures var (start, end) := Trimmed(offset, size, page);
      start <= p * page && (p + 1) * page <= end <==> offset <= p * page && (p + 1) * page <= offset + size
    ensures var (start, end) := Trimmed(offset, size, page); start % page == 0 && end % page == 0
  {
    DownIff(offset, page, p);
    UpIff(offset + size, page, p);
    assert Trimmed(offset, size, page) == (PageUp(offset, page), PageDown(offset + size, page));
    UpIff(offset, page, p);
    DownIff(offset + size, page, p + 1);
  }
}
