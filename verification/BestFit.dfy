/** The best-fit allocator on its linked list of chunks, proved against Blocks. */
module BestFit {
  import opened ChunkList
  import opened Blocks

  const MEMORY_ALIGN: nat := 32
  const SIZE_T: nat := 0x1_0000_0000_0000_0000

  /** The fields of the chunks are those of the blocks, one by one. */
  ghost predicate Mirrors(ns: seq<Chunk>, bs: seq<Block>)
    reads ns
  {
    && |ns| == |bs|
    && forall i :: 0 <= i < |ns| ==> ns[i].start == bs[i].start && ns[i].size == bs[i].size && ns[i].free == bs[i].free
  }

  /** Every size fits its field. */
  ghost predicate Small(bs: seq<Block>) { forall i :: 0 <= i < |bs| ==> bs[i].size < SIZE_LIMIT }

  function Inserted(bs: seq<Block>, k: nat, b: Block): seq<Block>
    requires k <= |bs|
  {
    bs[..k] + [b] + bs[k..]
  }

  lemma MirrorsInserted(ns: seq<Chunk>, bs: seq<Block>, k: nat, c: Chunk)
    requires Mirrors(ns, bs) && k <= |ns| && Small(bs) && c.size < SIZE_LIMIT
    ensures Mirrors(ns[..k] + [c] + ns[k..], Inserted(bs, k, Block(c.start, c.size, c.free)))
    ensures Small(Inserted(bs, k, Block(c.start, c.size, c.free)))
  {
    var ns', bs' := ns[..k] + [c] + ns[k..], Inserted(bs, k, Block(c.start, c.size, c.free));
    forall i | 0 <= i < |ns'|
      ensures ns'[i].start == bs'[i].start && ns'[i].size == bs'[i].size && ns'[i].free == bs'[i].free
    {
      if i < k {
        assert ns'[i] == ns[i] && bs'[i] == bs[i];
      } else if i > k {
        assert ns'[i] == ns[i - 1] && bs'[i] == bs[i - 1];
      }
    }
  }

  lemma InsertedInto(a: seq<Block>, c: seq<Block>, b: Block)
    ensures Inserted(a + c, |a|, b) == a + [b] + c
  {
    assert (a + c)[..|a|] == a && (a + c)[|a|..] == c;
  }

  /** The number of units a request of `size` bytes needs; the addition wraps like size_t. */
  function Units(size: nat): nat { (size + MEMORY_ALIGN - 1) % SIZE_T / MEMORY_ALIGN }

  /** The size of the heap: whole pages, computed in size_t. */
  function HeapSize(size: nat, page: nat): nat
    requires page > 0
  {
    var x := (size + page - 1) % SIZE_T;
    x - x % page
  }

  lemma WholePages(x: nat, page: nat)
    requires page > 0
    ensures (x - x % page) % page == 0
  {
    var q := x / page;
    assert x - x % page == q * page;
    DivUnique(q * page, page, q, 0);
  }

  lemma HeapSizeRounds(size: nat, page: nat)
    requires size < SIZE_T && 0 < page <= SIZE_T
    ensures var h := HeapSize(size, page);
      h % page == 0 && if size + page <= SIZE_T then size <= h < size + page else h == 0
  {
    var x := (size + page - 1) % SIZE_T;
    WholePages(x, page);
    if size + page <= SIZE_T {
      assert x == size + page - 1;
    } else {
      assert x == size + page - 1 - SIZE_T;
    }
  }

  /** The answer of `alloc`: a byte offset, or no memory. */
  datatype Offset = At(offset: nat) | NoMemory

  class SimpleBestFitAllocator {
    const list: LinkedList
    const heapSize: nat
    const pageSize: nat
    ghost var chunks: seq<Block>

    ghost predicate Valid()
      reads this, list, list.repr
    {
      && list.Valid() && Mirrors(list.nodes, chunks)
      && pageSize >= MEMORY_ALIGN
      && Small(chunks)
    }

    function PerPage(): nat
      requires pageSize >= MEMORY_ALIGN
    {
      pageSize / MEMORY_ALIGN
    }

    /**
     * The heap is rounded up to pages, in size_t: a size within a page of the largest comes out as no heap at all.
     * It starts as one free chunk, cut to what its field can hold.
     */
    constructor (size: nat, pageSize: nat)
      requires size < SIZE_T && MEMORY_ALIGN <= pageSize <= SIZE_T
      ensures Valid() && fresh(list) && fresh(list.repr)
      ensures this.pageSize == pageSize && heapSize % pageSize == 0
      ensures if size + pageSize <= SIZE_T then size <= heapSize < size + pageSize else heapSize == 0
      ensures chunks == [Block(0, Trunc(heapSize / MEMORY_ALIGN), true)]
      ensures chunks[0].size == heapSize / 32 % 0x1000_0000
    {
      this.pageSize := pageSize;
      heapSize := HeapSize(size, pageSize);
      list := new LinkedList();
      new;
      HeapSizeRounds(size, pageSize);
      var node := new Chunk(0, heapSize / MEMORY_ALIGN);
      list.InsertHead(node);
      chunks := [Block(0, Trunc(heapSize / MEMORY_ALIGN), true)];
    }

    /** The search of `alloc`: the smallest chunk that fits, stopping early at an exact fit. */
    method FindBest(n: nat, aligned: bool) returns (best: Chunk?, ghost k: nat)
      requires Valid()
      ensures best == null <==> NoneFits(chunks, n, PerPage(), aligned)
      ensures best != null ==> k < |list.nodes| && list.nodes[k] == best && IsBest(chunks, k, n, PerPage(), aligned)
    {
      ghost var bs, i := chunks, 0;
      var perPage := PerPage();
      best, k := null, 0;
      var cur := list.first;
      while cur != null
        invariant i <= |bs| && (cur == null <==> i == |bs|) && (cur != null ==> cur == list.nodes[i])
        invariant best == null ==> forall j :: 0 <= j < i ==> !Fits(bs[j], n, perPage, aligned)
        invariant best != null ==> k < i && best == list.nodes[k] && Fits(bs[k], n, perPage, aligned)
        invariant best != null ==> forall j :: 0 <= j < i && Fits(bs[j], n, perPage, aligned) ==>
          bs[k].size < bs[j].size || (bs[k].size == bs[j].size && k <= j)
        decreases |bs| - i
      {
        var extra := if aligned then (perPage - cur.start % perPage) % perPage else 0;
        if cur.free && cur.size >= n + extra {
          assert Fits(bs[i], n, perPage, aligned);
          if best == null || cur.size < best.size {
            best, k := cur, i;
          }
          if cur.size == n {
            return;
          }
        }
        assert list.nodes[i].next == null <==> i == |bs| - 1;
        cur := cur.next;
        i := i + 1;
      }
    }

    /** Rewrites the fields of chunk k. */
    method Rewrite(chunk: Chunk, start: nat, size: nat, free: bool, ghost k: nat)
      requires Valid() && k < |list.nodes| && list.nodes[k] == chunk && size < SIZE_LIMIT
      modifies `chunks, chunk`start, chunk`size, chunk`free
      ensures Valid() && chunks == old(chunks)[k := Block(start, size, free)]
      ensures chunk.start == start && chunk.size == size && chunk.free == free
    {
      chunk.start, chunk.size, chunk.free := start, Trunc(size), free;
      chunks := chunks[k := Block(start, size, free)];
    }

    /** Puts `extra` units from `start` on before chunk k as a free chunk of their own. */
    method SplitFront(chunk: Chunk, start: nat, extra: nat, ghost k: nat) returns (split: Chunk)
      requires Valid() && k < |list.nodes| && list.nodes[k] == chunk && extra < SIZE_LIMIT
      modifies `chunks, list, list.repr`next, list.repr`prev
      ensures Valid() && fresh(split) && list.repr == old(list.repr) + {split}
        && list.nodes == old(list.nodes[..k] + [split] + list.nodes[k..])
      ensures chunks == old(Inserted(chunks, k, Block(start, extra, true)))
    {
      ghost var ns, bs := list.nodes, chunks;
      split := new Chunk(start, extra);
      list.InsertBefore(chunk, split, k);
      chunks := Inserted(bs, k, Block(start, extra, true));
      assert list.nodes == ns[..k] + [split] + ns[k..];
      assert chunks == Inserted(bs, k, Block(split.start, split.size, split.free));
      MirrorsInserted(ns, bs, k, split);
    }

    /** Gives `tail` units behind chunk k to a free chunk of their own. */
    method SplitBack(chunk: Chunk, tail: nat, ghost k: nat) returns (split: Chunk)
      requires Valid() && k < |list.nodes| && list.nodes[k] == chunk && tail < SIZE_LIMIT
      modifies `chunks, list, list.repr`next, list.repr`prev
      ensures Valid() && fresh(split) && list.repr == old(list.repr) + {split}
        && list.nodes == old(list.nodes[..k + 1] + [split] + list.nodes[k + 1..])
      ensures chunks == old(Inserted(chunks, k + 1, Block(chunks[k].End(), tail, true)))
    {
      ghost var ns, bs, b := list.nodes, chunks, Block(chunks[k].End(), tail, true);
      split := new Chunk(chunk.start + chunk.size, tail);
      assert Block(split.start, split.size, split.free) == b;
      list.InsertAfter(chunk, split, k);
      chunks := Inserted(bs, k + 1, b);
      MirrorsInserted(ns, bs, k + 1, split);
    }

    /** Marks n units of the free chunk k as used, `extra` units from its start, and frees those before them. */
    method CarveFront(chunk: Chunk, n: nat, extra: nat, ghost k: nat) returns (ghost at: nat)
      requires Valid() && k < |list.nodes| && list.nodes[k] == chunk
      requires n + extra <= chunk.size
      modifies `chunks, list, list.repr
      ensures Valid() && at == (if extra > 0 then k + 1 else k) < |list.nodes| && list.nodes[at] == chunk
      ensures chunk.start == old(chunk.start) + extra && chunk.size == n
      ensures fresh(list.repr - old(list.repr))
      ensures chunks == CarvedFront(old(chunks), k, n, extra)
    {
      at := k;
      var start, freeSize := chunk.start, chunk.size;
      Rewrite(chunk, start + extra, n, false, k);
      if freeSize > n {
        if extra > 0 {
          var split := SplitFront(chunk, start, extra, k);
          at := k + 1;
        }
      }
    }

    /** Frees the units behind chunk k that the request leaves over. */
    method CarveBack(chunk: Chunk, tail: nat, ghost k: nat)
      requires Valid() && k < |list.nodes| && list.nodes[k] == chunk && tail < SIZE_LIMIT
      modifies `chunks, list, list.repr`next, list.repr`prev
      ensures Valid() && fresh(list.repr - old(list.repr))
      ensures chunks == CarvedBack(old(chunks), k, tail)
    {
      if tail > 0 {
        var split := SplitBack(chunk, tail, k);
      }
    }

    /** Takes n units out of the free chunk k, `extra` units from its start. */
    method CarveOut(chunk: Chunk, n: nat, extra: nat, ghost k: nat)
      requires Valid() && k < |list.nodes| && list.nodes[k] == chunk
      requires n + extra <= chunk.size
      modifies `chunks, list, list.repr
      ensures Valid() && chunk.start == old(chunk.start) + extra
      ensures fresh(list.repr - old(list.repr))
      ensures chunks == Take(old(chunks), k, n, extra)
    {
      CarvedIsTake(chunks, k, n, extra);
      var tail := chunk.size - (n + extra);
      ghost var at := CarveFront(chunk, n, extra, k);
      CarveBack(chunk, tail, at);
    }

    /** `alloc`: on success chunk k, the best fit, gave up n units; k is only there to say so. */
    method Alloc(size: nat, aligned: bool) returns (r: Offset, ghost k: nat)
      requires Valid() && size < SIZE_T
      modifies `chunks, list, list.repr
      ensures Valid() && fresh(list.repr - old(list.repr))
      ensures size == 0 ==> r == At(0) && chunks == old(chunks)
      ensures size > 0 && NoneFits(old(chunks), Units(size), PerPage(), aligned) ==>
        r == NoMemory && chunks == old(chunks)
      ensures size > 0 && !NoneFits(old(chunks), Units(size), PerPage(), aligned) ==>
        && IsBest(old(chunks), k, Units(size), PerPage(), aligned)
        && var b := old(chunks)[k];
           var extra := Extra(b.start, PerPage(), aligned);
           chunks == Take(old(chunks), k, Units(size), extra) && r == At((b.start + extra) * MEMORY_ALIGN)
    {
      k := 0;
      if size == 0 { return At(0), 0; }
      var n := (size + MEMORY_ALIGN - 1) % SIZE_T / MEMORY_ALIGN;
      var chunk;
      chunk, k := FindBest(n, aligned);
      if chunk == null { return NoMemory, 0; }
      var perPage := PerPage();
      var extra := if aligned then (perPage - chunk.start % perPage) % perPage else 0;
      CarveOut(chunk, n, extra, k);
      r := At(chunk.start * MEMORY_ALIGN);
    }

    /** Unlinks chunk k. */
    method Drop(chunk: Chunk, ghost k: nat)
      requires Valid() && k < |list.nodes| && list.nodes[k] == chunk
      modifies `chunks, list, list.repr`next, list.repr`prev
      ensures Valid() && list.repr == old(list.repr) && list.nodes == old(list.nodes[..k] + list.nodes[k + 1..])
      ensures chunks == old(chunks[..k] + chunks[k + 1..])
    {
      ghost var ns, bs := list.nodes, chunks;
      list.Remove(chunk, k);
      chunks := bs[..k] + bs[k + 1..];
      MirrorsDropped(ns, bs, k);
    }

    /** The chunk before k takes over chunk k. */
    method AbsorbInto(p: Chunk, cur: Chunk, ghost k: nat)
      requires Valid() && 0 < k < |list.nodes| && list.nodes[k] == cur && list.nodes[k - 1] == p
      modifies `chunks, list, list.repr
      ensures Valid() && list.repr == old(list.repr) && list.nodes == old(list.nodes[..k] + list.nodes[k + 1..])
      ensures chunks == Absorb(old(chunks), k) && p.free == old(p.free)
    {
      ghost var bs := chunks;
      Rewrite(p, p.start, Trunc(p.size + cur.size), p.free, k - 1);
      Drop(cur, k);
      AbsorbSteps(bs, k);
    }

    /** The search of `dealloc`: the first chunk that starts at unit `start`. */
    method FindStart(start: nat) returns (cur: Chunk?, ghost k: nat)
      requires Valid()
      ensures cur == null ==> forall j :: 0 <= j < |chunks| ==> chunks[j].start != start
      ensures cur != null ==> k < |list.nodes| && list.nodes[k] == cur && IsFirstAt(chunks, k, start)
    {
      k := 0;
      cur := list.first;
      while cur != null
        invariant k <= |chunks| && (cur == null <==> k == |chunks|) && (cur != null ==> cur == list.nodes[k])
        invariant forall j :: 0 <= j < k ==> chunks[j].start != start
        decreases |chunks| - k
      {
        if cur.start == start { return; }
        assert list.nodes[k].next == null <==> k == |chunks| - 1;
        cur := cur.next;
        k := k + 1;
      }
    }

    /** One round of the merging loop at chunk i: the chunk before takes it over, or nothing happens. */
    method MergeOne(cur: Chunk, was: Chunk, ghost i: nat) returns (next: Chunk?, freed: Chunk, ghost j: nat)
      requires Valid() && i < |list.nodes| && list.nodes[i] == cur
      modifies `chunks, list, list.repr
      ensures Valid() && list.repr == old(list.repr)
      ensures var joins := i > 0 && (old(chunks)[i - 1].free || old(chunks)[i].size == 0);
        && chunks == (if joins then Absorb(old(chunks), i) else old(chunks))
        && j == (if joins then i else i + 1) <= |list.nodes|
        && (joins ==> freed == list.nodes[i - 1] && freed.free == old(chunks)[i - 1].free)
        && (!joins ==> freed == was && list.nodes == old(list.nodes))
      ensures next == if j < |list.nodes| then list.nodes[j] else null
    {
      assert list.nodes[i].prev == null <==> i == 0;
      assert list.nodes[i].next == null <==> i == |list.nodes| - 1;
      assert i > 0 ==> list.nodes[i - 1].free == chunks[i - 1].free;
      var p := cur.prev;
      next, freed, j := cur.next, was, i + 1;
      if p != null && (p.free || cur.size == 0) {
        freed, j := p, i;
        AbsorbInto(p, cur, i);
      }
    }

    /** A round, and what it leaves to do: go on at chunk j, or nothing. */
    method MergeRound(cur: Chunk, was: Chunk, ghost i: nat)
      returns (next: Chunk?, freed: Chunk, more: bool, ghost j: nat)
      requires Valid() && i < |list.nodes| && list.nodes[i] == cur && cur.free && was in list.nodes
      modifies `chunks, list, list.repr
      ensures Valid() && list.repr == old(list.repr) && freed in list.nodes
      ensures more ==> j < |list.nodes| && next == list.nodes[j] && next.free
      ensures more ==> Merge(chunks, j) == Merge(old(chunks), i)
      ensures |chunks| - j < |old(chunks)| - i
      ensures !more ==> chunks == Merge(old(chunks), i)
      ensures old(Follows(list.nodes, chunks, was, i)) ==>
        freed.free && (more ==> Follows(list.nodes, chunks, freed, j))
    {
      next, freed, j := MergeOne(cur, was, i);
      more := next != null && next.free;
    }

    /** The merging loop of `dealloc`, entered at the free chunk i. */
    method MergeFrom(first: Chunk, ghost k: nat) returns (freed: Chunk)
      requires Valid() && k < |list.nodes| && list.nodes[k] == first && first.free
      modifies `chunks, list, list.repr
      ensures Valid() && list.repr == old(list.repr)
      ensures chunks == Merge(old(chunks), k)
      ensures freed in list.nodes && (old(first.size) > 0 ==> freed.free)
    {
      ghost var bs := chunks;
      ghost var i: nat := k;
      freed := first;
      var cur: Chunk? := first;
      var more := true;
      while more
        invariant Valid() && list.repr == old(list.repr) && freed in list.nodes
        invariant more ==> i < |list.nodes| && cur == list.nodes[i] && cur.free
        invariant more ==> Merge(chunks, i) == Merge(bs, k)
        invariant more && bs[k].size > 0 ==> Follows(list.nodes, chunks, freed, i)
        invariant !more ==> chunks == Merge(bs, k) && (bs[k].size > 0 ==> freed.free)
        decreases |chunks| - i
      {
        cur, freed, more, i := MergeRound(cur, freed, i);
      }
    }

    /** `dealloc`: releases the first chunk at the offset and merges it; the answer is the merged chunk. */
    method Dealloc(offset: nat) returns (freed: Chunk?, ghost k: nat)
      requires Valid()
      modifies `chunks, list, list.repr
      ensures Valid() && list.repr == old(list.repr)
      ensures freed == null ==> chunks == old(chunks)
      ensures freed == null ==> forall j :: 0 <= j < |chunks| ==> chunks[j].start != offset / MEMORY_ALIGN
      ensures freed != null ==> IsFirstAt(old(chunks), k, offset / MEMORY_ALIGN) && chunks == Release(old(chunks), k)
      ensures freed != null ==> freed in list.nodes && (old(chunks)[k].size > 0 ==> freed.free)
    {
      var cur;
      cur, k := FindStart(offset / MEMORY_ALIGN);
      if cur == null { return null, 0; }
      Rewrite(cur, cur.start, cur.size, true, k);
      freed := MergeFrom(cur, k);
    }
  }

  /** The chunk the merging loop answers with: the one it is at, or the free one just before. */
  ghost predicate Follows(ns: seq<Chunk>, bs: seq<Block>, freed: Chunk, i: nat)
    requires |ns| == |bs| && i < |ns|
  {
    (freed == ns[i] && bs[i].size > 0) || (i > 0 && freed == ns[i - 1] && bs[i - 1].free)
  }

  ghost predicate IsFirstAt(bs: seq<Block>, k: nat, start: nat) {
    k < |bs| && bs[k].start == start && forall j :: 0 <= j < k ==> bs[j].start != start
  }

  lemma MirrorsDropped(ns: seq<Chunk>, bs: seq<Block>, k: nat)
    requires Mirrors(ns, bs) && k < |ns| && Small(bs)
    ensures Mirrors(ns[..k] + ns[k + 1..], bs[..k] + bs[k + 1..]) && Small(bs[..k] + bs[k + 1..])
  {
    var ns', bs' := ns[..k] + ns[k + 1..], bs[..k] + bs[k + 1..];
    forall i | 0 <= i < |ns'|
      ensures ns'[i].start == bs'[i].start && ns'[i].size == bs'[i].size && ns'[i].free == bs'[i].free
    {
      var j := if i < k then i else i + 1;
      assert ns'[i] == ns[j] && bs'[i] == bs[j];
    }
  }

  /** Absorbing a block, done in the order in which `dealloc` does it. */
  lemma AbsorbSteps(bs: seq<Block>, k: nat)
    requires 0 < k < |bs|
    ensures var bs1 := bs[k - 1 := bs[k - 1].(size := Trunc(bs[k - 1].size + bs[k].size))];
      bs1[..k] + bs1[k + 1..] == Absorb(bs, k)
  {
  }

  /** The chunk rewritten and the units before it split off. */
  function CarvedFront(bs: seq<Block>, k: nat, n: nat, extra: nat): seq<Block>
    requires k < |bs|
  {
    var bs1 := bs[k := Block(bs[k].start + extra, n, false)];
    if extra > 0 then Inserted(bs1, k, Block(bs[k].start, extra, true)) else bs1
  }

  function CarvedBack(bs: seq<Block>, k: nat, tail: nat): seq<Block>
    requires k < |bs|
  {
    if tail > 0 then Inserted(bs, k + 1, Block(bs[k].End(), tail, true)) else bs
  }

  lemma SplitTwo(bs: seq<Block>, k: nat, u: Block, x: Block)
    requires k < |bs|
    ensures Inserted(bs[k := u], k, x) == Replace(bs, k, k + 1, [x, u])
    ensures Inserted(bs[k := u], k + 1, x) == Replace(bs, k, k + 1, [u, x])
    ensures bs[k := u] == Replace(bs, k, k + 1, [u])
  {
  }

  lemma SplitThree(bs: seq<Block>, k: nat, f: Block, u: Block, t: Block)
    requires k < |bs|
    ensures Inserted(Replace(bs, k, k + 1, [f, u]), k + 2, t) == Replace(bs, k, k + 1, [f, u, t])
  {
    var a, c := bs[..k] + [f, u], bs[k + 1..];
    InsertedInto(a, c, t);
    assert a + [t] == bs[..k] + [f, u, t];
  }

  lemma CarvedAfterFront(bs: seq<Block>, k: nat, n: nat, extra: nat)
    requires k < |bs| && 0 < extra && n + extra <= bs[k].size
    ensures k + 1 < |CarvedFront(bs, k, n, extra)|
    ensures CarvedBack(CarvedFront(bs, k, n, extra), k + 1, bs[k].size - (n + extra)) == Take(bs, k, n, extra)
  {
    var b := bs[k];
    var f, u := Block(b.start, extra, true), Block(b.start + extra, n, false);
    var t := Block(u.End(), b.size - (n + extra), true);
    SplitTwo(bs, k, u, f);
    assert CarvedFront(bs, k, n, extra)[k + 1] == u;
    assert Pieces(b, n, extra) == if b.size > n + extra then [f, u, t] else [f, u];
    SplitThree(bs, k, f, u, t);
  }

  lemma CarvedAtFront(bs: seq<Block>, k: nat, n: nat)
    requires k < |bs| && n <= bs[k].size
    ensures CarvedBack(CarvedFront(bs, k, n, 0), k, bs[k].size - n) == Take(bs, k, n, 0)
  {
    var b := bs[k];
    var u := Block(b.start, n, false);
    var t := Block(u.End(), b.size - n, true);
    SplitTwo(bs, k, u, t);
    assert Pieces(b, n, 0) == if b.size > n then [u, t] else [u];
  }

  /** Taking units out of a block, done in the order in which `alloc` does it. */
  lemma CarvedIsTake(bs: seq<Block>, k: nat, n: nat, extra: nat)
    requires k < |bs| && n + extra <= bs[k].size
    ensures var at := if extra > 0 then k + 1 else k;
      at < |CarvedFront(bs, k, n, extra)|
      && CarvedBack(CarvedFront(bs, k, n, extra), at, bs[k].size - (n + extra)) == Take(bs, k, n, extra)
  {
    if extra > 0 { CarvedAfterFront(bs, k, n, extra); } else { CarvedAtFront(bs, k, n); }
  }
}
