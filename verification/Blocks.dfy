/** The chunk list as a value: splitting, merging, and what they mean for the set of free units. */
module Blocks {
  import opened ChunkList

  datatype Block = Block(start: nat, size: nat, free: bool) {
    function End(): nat { start + size }
    predicate Covers(u: int) { start <= u < start + size }
  }

  /** The blocks tile the units in order, none is empty, and no two neighbours are free. */
  ghost predicate Tiles(bs: seq<Block>, units: nat)
  {
    && bs != [] && units < SIZE_LIMIT
    && bs[0].start == 0 && bs[|bs| - 1].End() == units
    && (forall i :: 0 <= i < |bs| ==> bs[i].size > 0)
    && (forall i :: 0 < i < |bs| ==> bs[i - 1].End() == bs[i].start)
    && (forall i :: 0 < i < |bs| ==> !(bs[i - 1].free && bs[i].free))
  }

  /** The abstract state of the heap: is unit u free? */
  ghost predicate FreeUnit(bs: seq<Block>, u: int) { exists i :: 0 <= i < |bs| && bs[i].free && bs[i].Covers(u) }

  /** n free units in a row from u on. */
  ghost predicate FreeRun(bs: seq<Block>, u: nat, n: nat) { forall v :: u <= v < u + n ==> FreeUnit(bs, v) }

  /** A free run that cannot be extended on either side. */
  ghost predicate MaximalRun(bs: seq<Block>, u: nat, n: nat)
  {
    n > 0 && FreeRun(bs, u, n) && !FreeUnit(bs, u - 1) && !FreeUnit(bs, u + n)
  }

  // ----- order of the tiles -----

  lemma {:induction false} Ordered(bs: seq<Block>, units: nat, i: nat, j: nat)
    requires Tiles(bs, units) && i < j < |bs|
    ensures bs[i].End() <= bs[j].start
  {
    if i + 1 < j {
      Ordered(bs, units, i, j - 1);
      assert bs[j - 1].End() == bs[j].start;
    }
  }

  lemma Within(bs: seq<Block>, units: nat, i: nat)
    requires Tiles(bs, units) && i < |bs|
    ensures bs[i].End() <= units
  {
    if i < |bs| - 1 { Ordered(bs, units, i, |bs| - 1); }
  }

  lemma SameTile(bs: seq<Block>, units: nat, i: nat, j: nat, u: int)
    requires Tiles(bs, units) && i < |bs| && j < |bs| && bs[i].Covers(u) && bs[j].Covers(u)
    ensures i == j
  {
    if i < j { Ordered(bs, units, i, j); }
    if j < i { Ordered(bs, units, j, i); }
  }

  lemma {:induction false} TileOf(bs: seq<Block>, units: nat, u: nat, n: nat) returns (i: nat)
    requires Tiles(bs, units) && 0 < n <= |bs| && u < bs[n - 1].End()
    ensures i < n && bs[i].Covers(u)
    decreases n
  {
    if bs[n - 1].start <= u {
      i := n - 1;
    } else {
      assert bs[n - 2].End() == bs[n - 1].start;
      i := TileOf(bs, units, u, n - 1);
    }
  }

  /** The unit after a free block is not free, nor is the one before. */
  lemma FreeEnds(bs: seq<Block>, units: nat, i: nat)
    requires Tiles(bs, units) && i < |bs| && bs[i].free
    ensures !FreeUnit(bs, bs[i].End()) && !FreeUnit(bs, bs[i].start - 1)
  {
    if FreeUnit(bs, bs[i].End()) {
      var j :| 0 <= j < |bs| && bs[j].free && bs[j].Covers(bs[i].End());
      if j < i { Ordered(bs, units, j, i); }
      if i + 1 < j { Ordered(bs, units, i + 1, j); }
      assert false;
    }
    if FreeUnit(bs, bs[i].start - 1) {
      var j :| 0 <= j < |bs| && bs[j].free && bs[j].Covers(bs[i].start - 1);
      if i < j { Ordered(bs, units, i, j); }
      if j + 1 < i { Ordered(bs, units, j, i - 1); }
      assert false;
    }
  }

  /** A free run lies inside one free block. */
  lemma RunInBlock(bs: seq<Block>, units: nat, u: nat, n: nat) returns (i: nat)
    requires Tiles(bs, units) && n > 0 && FreeRun(bs, u, n)
    ensures i < |bs| && bs[i].free && bs[i].start <= u && u + n <= bs[i].End()
  {
    assert FreeUnit(bs, u);
    i :| 0 <= i < |bs| && bs[i].free && bs[i].Covers(u);
    FreeEnds(bs, units, i);
    var e := bs[i].End();
    assert u <= e < u + n ==> FreeUnit(bs, e);
  }

  lemma BlockIsRun(bs: seq<Block>, units: nat, i: nat)
    requires Tiles(bs, units) && i < |bs| && bs[i].free
    ensures MaximalRun(bs, bs[i].start, bs[i].size)
  {
    FreeEnds(bs, units, i);
    assert FreeRun(bs, bs[i].start, bs[i].size);
  }

  /** The maximal free runs are exactly the free blocks. */
  lemma MaximalIff(bs: seq<Block>, units: nat, u: nat, n: nat)
    requires Tiles(bs, units)
    ensures MaximalRun(bs, u, n) <==> exists i :: 0 <= i < |bs| && bs[i] == Block(u, n, true)
  {
    if MaximalRun(bs, u, n) {
      var i := RunInBlock(bs, units, u, n);
      assert bs[i].start < u ==> FreeUnit(bs, u - 1);
      assert u + n < bs[i].End() ==> FreeUnit(bs, u + n);
      assert bs[i] == Block(u, n, true);
    }
    if i :| 0 <= i < |bs| && bs[i] == Block(u, n, true) {
      BlockIsRun(bs, units, i);
    }
  }

  // ----- choosing a block -----

  /** How far the start of a block is from the next page boundary, in units: `-start & (perPage - 1)`. */
  function Extra(start: nat, perPage: nat, aligned: bool): nat
    requires perPage > 0
  {
    if aligned then (perPage - start % perPage) % perPage else 0
  }

  predicate Fits(b: Block, n: nat, perPage: nat, aligned: bool)
    requires perPage > 0
  {
    b.free && b.size >= n + Extra(b.start, perPage, aligned)
  }

  ghost predicate NoneFits(bs: seq<Block>, n: nat, perPage: nat, aligned: bool)
    requires perPage > 0
  {
    forall i :: 0 <= i < |bs| ==> !Fits(bs[i], n, perPage, aligned)
  }

  /** The smallest block that fits, and the first of those. */
  ghost predicate IsBest(bs: seq<Block>, k: nat, n: nat, perPage: nat, aligned: bool)
    requires perPage > 0
  {
    && k < |bs| && Fits(bs[k], n, perPage, aligned)
    && forall i :: 0 <= i < |bs| && Fits(bs[i], n, perPage, aligned) ==>
         bs[k].size < bs[i].size || (bs[k].size == bs[i].size && k <= i)
  }

  lemma MulMono(a: int, b: int, d: int)
    requires a <= b && d >= 0
    ensures a * d <= b * d
  {
    assert (b - a) * d >= 0;
    assert (b - a) * d == b * d - a * d;
  }

  /** Euclidean division is unique. */
  lemma DivUnique(x: int, d: int, q: int, r: int)
    requires d > 0 && 0 <= r < d && x == q * d + r
    ensures x % d == r && x / d == q
  {
    var q' := x / d;
    assert x == q' * d + x % d;
    if q > q' { MulMono(q' + 1, q, d); }
    if q < q' { MulMono(q + 1, q', d); }
  }

  /** The extra units lead to a page boundary, */
  lemma ExtraAligns(start: nat, perPage: nat)
    requires perPage > 0
    ensures (start + Extra(start, perPage, true)) % perPage == 0
  {
    var q, r := start / perPage, start % perPage;
    assert start == q * perPage + r;
    if r == 0 {
      assert Extra(start, perPage, true) == 0 by { DivUnique(perPage, perPage, 1, 0); }
    } else {
      assert Extra(start, perPage, true) == perPage - r by { DivUnique(perPage - r, perPage, 0, perPage - r); }
      DivUnique(start + perPage - r, perPage, q + 1, 0);
    }
  }

  /** and there is none before it. */
  lemma ExtraIsFirst(start: nat, perPage: nat, u: nat)
    requires perPage > 0 && start <= u && u % perPage == 0
    ensures start + Extra(start, perPage, true) <= u
  {
    var q, r, m := start / perPage, start % perPage, u / perPage;
    assert start == q * perPage + r && u == m * perPage;
    if r == 0 {
      assert Extra(start, perPage, true) == 0 by { DivUnique(perPage, perPage, 1, 0); }
    } else {
      assert Extra(start, perPage, true) == perPage - r by { DivUnique(perPage - r, perPage, 0, perPage - r); }
      if m <= q { MulMono(m, q, perPage); }
      MulMono(q + 1, m, perPage);
    }
  }

  /** Completeness: no block fits exactly when no suitable run of free units exists. */
  lemma NoneFitsIff(bs: seq<Block>, units: nat, n: nat, perPage: nat, aligned: bool)
    requires Tiles(bs, units) && n > 0 && perPage > 0
    ensures NoneFits(bs, n, perPage, aligned) <==>
      !exists u: nat :: FreeRun(bs, u, n) && (aligned ==> u % perPage == 0)
  {
    if u: nat :| FreeRun(bs, u, n) && (aligned ==> u % perPage == 0) {
      var i := RunInBlock(bs, units, u, n);
      if aligned { ExtraIsFirst(bs[i].start, perPage, u); }
      assert Fits(bs[i], n, perPage, aligned);
    }
    if i :| 0 <= i < |bs| && Fits(bs[i], n, perPage, aligned) {
      ExtraAligns(bs[i].start, perPage);
      var u := bs[i].start + Extra(bs[i].start, perPage, aligned);
      assert FreeRun(bs, u, n);
    }
  }

  /** Best fit: without alignment the chosen block is the smallest maximal free run, lowest on ties. */
  lemma BestIsSmallestRun(bs: seq<Block>, units: nat, k: nat, n: nat, perPage: nat)
    requires Tiles(bs, units) && n > 0 && perPage > 0 && IsBest(bs, k, n, perPage, false)
    ensures MaximalRun(bs, bs[k].start, bs[k].size) && bs[k].size >= n
    ensures forall u: nat, m: nat :: MaximalRun(bs, u, m) && m >= n ==>
      bs[k].size < m || (bs[k].size == m && bs[k].start <= u)
  {
    BlockIsRun(bs, units, k);
    forall u: nat, m: nat | MaximalRun(bs, u, m) && m >= n
      ensures bs[k].size < m || (bs[k].size == m && bs[k].start <= u)
    {
      MaximalIff(bs, units, u, m);
      var i :| 0 <= i < |bs| && bs[i] == Block(u, m, true);
      assert Fits(bs[i], n, perPage, false);
      if k < i { Ordered(bs, units, k, i); }
    }
  }

  // ----- replacing blocks -----

  /** bs with the blocks from lo to before hi replaced by `mid`. */
  function Replace(bs: seq<Block>, lo: nat, hi: nat, mid: seq<Block>): seq<Block>
    requires lo <= hi <= |bs|
  {
    bs[..lo] + mid + bs[hi..]
  }

  lemma ReplaceAt(bs: seq<Block>, lo: nat, hi: nat, mid: seq<Block>)
    requires lo <= hi <= |bs|
    ensures var r := Replace(bs, lo, hi, mid);
      && |r| == |bs| - (hi - lo) + |mid|
      && forall i :: 0 <= i < |r| ==>
           r[i] == if i < lo then bs[i] else if i < lo + |mid| then mid[i - lo] else bs[i - lo - |mid| + hi]
  {
  }

  lemma ReplaceTiles(bs: seq<Block>, units: nat, lo: nat, hi: nat, mid: seq<Block>)
    requires Tiles(bs, units) && lo < hi <= |bs| && mid != []
    requires mid[0].start == bs[lo].start && mid[|mid| - 1].End() == bs[hi - 1].End()
    requires forall i :: 0 <= i < |mid| ==> mid[i].size > 0
    requires forall i :: 0 < i < |mid| ==> mid[i - 1].End() == mid[i].start
    requires forall i :: 0 < i < |mid| ==> !(mid[i - 1].free && mid[i].free)
    requires lo > 0 ==> !(bs[lo - 1].free && mid[0].free)
    requires hi < |bs| ==> !(mid[|mid| - 1].free && bs[hi].free)
    ensures Tiles(Replace(bs, lo, hi, mid), units)
  {
    ReplaceAt(bs, lo, hi, mid);
    var r := Replace(bs, lo, hi, mid);
    forall i | 0 < i < |r|
      ensures r[i - 1].End() == r[i].start && !(r[i - 1].free && r[i].free)
    {
      if i < lo { assert bs[i - 1].End() == bs[i].start; }
      else if i == lo { assert lo > 0 ==> bs[lo - 1].End() == bs[lo].start; }
      else if i < lo + |mid| { assert mid[i - lo - 1].End() == mid[i - lo].start; }
      else {
        var j := i - lo - |mid| + hi;
        assert bs[j - 1].End() == bs[j].start;
      }
    }
  }

  /** A unit is free afterwards if it was free in a block that stayed, or is free in the new ones. */
  lemma ReplaceFree(bs: seq<Block>, lo: nat, hi: nat, mid: seq<Block>, u: int)
    requires lo <= hi <= |bs|
    ensures FreeUnit(Replace(bs, lo, hi, mid), u) <==>
      FreeUnit(mid, u) || exists i :: 0 <= i < |bs| && !(lo <= i < hi) && bs[i].free && bs[i].Covers(u)
  {
    ReplaceAt(bs, lo, hi, mid);
    var r := Replace(bs, lo, hi, mid);
    if i :| 0 <= i < |r| && r[i].free && r[i].Covers(u) {
      if lo <= i < lo + |mid| { assert mid[i - lo].Covers(u); }
      else { var j := if i < lo then i else i - lo - |mid| + hi; assert bs[j].Covers(u); }
    }
    if i :| 0 <= i < |mid| && mid[i].free && mid[i].Covers(u) { assert r[i + lo].Covers(u); }
    if i :| 0 <= i < |bs| && !(lo <= i < hi) && bs[i].free && bs[i].Covers(u) {
      var j := if i < lo then i else i + lo + |mid| - hi;
      assert r[j] == bs[i];
    }
  }

  lemma ReplaceMembers(bs: seq<Block>, lo: nat, hi: nat, mid: seq<Block>, b: Block)
    requires lo <= hi <= |bs|
    ensures b in Replace(bs, lo, hi, mid) <==> b in mid || exists i :: 0 <= i < |bs| && !(lo <= i < hi) && bs[i] == b
  {
    ReplaceAt(bs, lo, hi, mid);
    var r := Replace(bs, lo, hi, mid);
    if i :| 0 <= i < |bs| && !(lo <= i < hi) && bs[i] == b {
      var j := if i < lo then i else i + lo + |mid| - hi;
      assert r[j] == b;
    }
  }

  // ----- allocation -----

  /** What is left of a free block of which n units were taken, `extra` units from its start. */
  function Pieces(b: Block, n: nat, extra: nat): seq<Block>
    requires n + extra <= b.size
  {
    (if extra > 0 then [Block(b.start, extra, true)] else [])
    + [Block(b.start + extra, n, false)]
    + (if b.size > n + extra then [Block(b.start + extra + n, b.size - n - extra, true)] else [])
  }

  function Take(bs: seq<Block>, k: nat, n: nat, extra: nat): seq<Block>
    requires k < |bs| && n + extra <= bs[k].size
  {
    Replace(bs, k, k + 1, Pieces(bs[k], n, extra))
  }

  /** Taking units keeps the tiling and frees nothing: exactly the n units returned stop being free. */
  lemma TakeKeeps(bs: seq<Block>, units: nat, k: nat, n: nat, extra: nat)
    requires Tiles(bs, units) && k < |bs| && bs[k].free && 0 < n && n + extra <= bs[k].size
    ensures Tiles(Take(bs, k, n, extra), units)
    ensures forall u :: FreeUnit(Take(bs, k, n, extra), u) <==>
      FreeUnit(bs, u) && !(bs[k].start + extra <= u < bs[k].start + extra + n)
  {
    var mid := Pieces(bs[k], n, extra);
    ReplaceTiles(bs, units, k, k + 1, mid);
    forall u
      ensures FreeUnit(Take(bs, k, n, extra), u) <==>
        FreeUnit(bs, u) && !(bs[k].start + extra <= u < bs[k].start + extra + n)
    {
      ReplaceFree(bs, k, k + 1, mid, u);
      PiecesFree(bs[k], n, extra, u);
      if FreeUnit(bs, u) {
        var i :| 0 <= i < |bs| && bs[i].free && bs[i].Covers(u);
        if bs[k].Covers(u) { SameTile(bs, units, i, k, u); }
      }
      if i :| 0 <= i < |bs| && !(k <= i < k + 1) && bs[i].free && bs[i].Covers(u) {
        if bs[k].Covers(u) { SameTile(bs, units, i, k, u); }
      }
    }
  }

  lemma PiecesFree(b: Block, n: nat, extra: nat, u: int)
    requires n + extra <= b.size
    ensures FreeUnit(Pieces(b, n, extra), u) <==> b.Covers(u) && !(b.start + extra <= u < b.start + extra + n)
  {
    var mid := Pieces(b, n, extra);
    if b.Covers(u) && u < b.start + extra { assert mid[0].free && mid[0].Covers(u); }
    if b.Covers(u) && u >= b.start + extra + n { assert mid[|mid| - 1].free && mid[|mid| - 1].Covers(u); }
  }

  /** The used blocks afterwards are those before and the new one. */
  lemma TakeUsed(bs: seq<Block>, k: nat, n: nat, extra: nat, b: Block)
    requires k < |bs| && bs[k].free && n + extra <= bs[k].size && !b.free
    ensures b in Take(bs, k, n, extra) <==> b in bs || b == Block(bs[k].start + extra, n, false)
  {
    ReplaceMembers(bs, k, k + 1, Pieces(bs[k], n, extra), b);
  }

  // ----- deallocation -----

  /** Block i is absorbed by the one before it. */
  function Absorb(bs: seq<Block>, i: nat): seq<Block>
    requires 0 < i < |bs|
  {
    Replace(bs, i - 1, i + 1, [bs[i - 1].(size := Trunc(bs[i - 1].size + bs[i].size))])
  }

  /** The merging loop of `dealloc` from block i on. */
  function Merge(bs: seq<Block>, i: nat): seq<Block>
    requires i < |bs|
    decreases |bs| - i
  {
    if i > 0 && (bs[i - 1].free || bs[i].size == 0) then
      var bs' := Absorb(bs, i);
      if i < |bs'| && bs'[i].free then Merge(bs', i) else bs'
    else if i + 1 < |bs| && bs[i + 1].free then Merge(bs, i + 1) else bs
  }

  function Release(bs: seq<Block>, k: nat): seq<Block>
    requires k < |bs|
  {
    Merge(bs[k := bs[k].(free := true)], k)
  }

  function Lo(bs: seq<Block>, k: nat): nat requires k < |bs| { if k > 0 && bs[k - 1].free then k - 1 else k }

  function Hi(bs: seq<Block>, k: nat): nat requires k < |bs| { if k + 1 < |bs| && bs[k + 1].free then k + 1 else k }

  /** Block k with its free neighbours. */
  function JoinedBlock(bs: seq<Block>, k: nat): Block
    requires k < |bs|
  {
    var lo, hi := Lo(bs, k), Hi(bs, k);
    Block(bs[lo].start, (if lo < k then bs[lo].size else 0) + bs[k].size + (if k < hi then bs[hi].size else 0), true)
  }

  function Joined(bs: seq<Block>, k: nat): seq<Block>
    requires k < |bs|
  {
    Replace(bs, Lo(bs, k), Hi(bs, k) + 1, [JoinedBlock(bs, k)])
  }

  lemma MergeRight(bs: seq<Block>, bs1: seq<Block>, units: nat, k: nat)
    requires Tiles(bs, units) && k < |bs| && !bs[k].free
    requires bs1 == bs[k := bs[k].(free := true)]
    requires k == 0 || !bs[k - 1].free
    ensures Merge(bs1, k) == Joined(bs, k)
  {
    if k + 1 < |bs| && bs[k + 1].free {
      Within(bs, units, k + 1);
      assert bs[k].End() == bs[k + 1].start;
      var bs2 := Absorb(bs1, k + 1);
      assert bs2 == Joined(bs, k);
      assert k + 1 < |bs2| ==> bs2[k + 1] == bs[k + 2] && !bs[k + 2].free;
    } else {
      assert bs1 == Joined(bs, k);
    }
  }

  lemma MergeLeft(bs: seq<Block>, bs1: seq<Block>, units: nat, k: nat)
    requires Tiles(bs, units) && k < |bs| && !bs[k].free
    requires bs1 == bs[k := bs[k].(free := true)]
    requires k > 0 && bs[k - 1].free
    ensures Merge(bs1, k) == Joined(bs, k)
  {
    Within(bs, units, k);
    assert bs[k - 1].End() == bs[k].start;
    var bs2 := Absorb(bs1, k);
    assert k < |bs2| ==> bs2[k] == bs[k + 1];
    if k + 1 < |bs| && bs[k + 1].free {
      Within(bs, units, k + 1);
      assert bs[k].End() == bs[k + 1].start;
      var bs3 := Absorb(bs2, k);
      assert bs3 == Joined(bs, k);
      assert k < |bs3| ==> bs3[k] == bs[k + 2] && !bs[k + 2].free;
    } else {
      assert bs2 == Joined(bs, k);
    }
  }

  /** Releasing a used block: the tiling stays, and exactly its units become free. */
  lemma ReleaseKeeps(bs: seq<Block>, units: nat, k: nat)
    requires Tiles(bs, units) && k < |bs| && !bs[k].free
    ensures Tiles(Release(bs, k), units)
    ensures forall u :: FreeUnit(Release(bs, k), u) <==> FreeUnit(bs, u) || bs[k].Covers(u)
    ensures forall b: Block :: !b.free ==> (b in Release(bs, k) <==> b in bs && b != bs[k])
  {
    var bs1 := bs[k := bs[k].(free := true)];
    if k > 0 && bs[k - 1].free { MergeLeft(bs, bs1, units, k); } else { MergeRight(bs, bs1, units, k); }
    JoinedTiles(bs, units, k);
    forall u ensures FreeUnit(Release(bs, k), u) <==> FreeUnit(bs, u) || bs[k].Covers(u) {
      JoinedFree(bs, units, k, u);
    }
    forall b: Block | !b.free ensures b in Release(bs, k) <==> b in bs && b != bs[k] {
      JoinedUsed(bs, units, k, b);
    }
  }

  lemma JoinedTiles(bs: seq<Block>, units: nat, k: nat)
    requires Tiles(bs, units) && k < |bs| && !bs[k].free
    ensures Tiles(Joined(bs, k), units)
  {
    var lo, hi, b := Lo(bs, k), Hi(bs, k), JoinedBlock(bs, k);
    assert lo < k ==> bs[lo].End() == bs[k].start;
    assert k < hi ==> bs[k].End() == bs[hi].start;
    assert lo > 0 ==> !bs[lo - 1].free;
    assert hi + 1 < |bs| ==> !bs[hi + 1].free;
    ReplaceTiles(bs, units, lo, hi + 1, [b]);
  }

  lemma JoinedFree(bs: seq<Block>, units: nat, k: nat, u: int)
    requires Tiles(bs, units) && k < |bs| && !bs[k].free
    ensures FreeUnit(Joined(bs, k), u) <==> FreeUnit(bs, u) || bs[k].Covers(u)
  {
    var lo, hi, b := Lo(bs, k), Hi(bs, k), JoinedBlock(bs, k);
    ReplaceFree(bs, lo, hi + 1, [b], u);
    assert FreeUnit([b], u) <==> b.Covers(u) by { assert [b][0] == b; }
    assert b.Covers(u) <==> bs[lo].Covers(u) || bs[k].Covers(u) || bs[hi].Covers(u) by {
      assert lo < k ==> bs[k - 1].End() == bs[k].start;
      assert k < hi ==> bs[k].End() == bs[k + 1].start;
    }
    if i :| 0 <= i < |bs| && bs[i].free && bs[i].Covers(u) {
      assert lo <= i < hi + 1 ==> i == lo || i == k || i == hi;
    }
  }

  lemma JoinedUsed(bs: seq<Block>, units: nat, k: nat, b: Block)
    requires Tiles(bs, units) && k < |bs| && !bs[k].free && !b.free
    ensures b in Joined(bs, k) <==> b in bs && b != bs[k]
  {
    var lo, hi := Lo(bs, k), Hi(bs, k);
    ReplaceMembers(bs, lo, hi + 1, [JoinedBlock(bs, k)], b);
    if b in bs && b != bs[k] {
      var i :| 0 <= i < |bs| && bs[i] == b;
      assert !(lo <= i < hi + 1);
    }
    if i :| 0 <= i < |bs| && !(lo <= i < hi + 1) && bs[i] == b && b == bs[k] {
      SameTile(bs, units, i, k, bs[k].start);
      assert false;
    }
  }

  /** Releasing a block that is free already changes nothing. */
  lemma ReleaseTwice(bs: seq<Block>, units: nat, k: nat)
    requires Tiles(bs, units) && k < |bs| && bs[k].free
    ensures Release(bs, k) == bs
  {
    assert bs[k := bs[k].(free := true)] == bs;
  }

  /** When every unit is free there is exactly one block, the whole heap. */
  lemma AllFree(bs: seq<Block>, units: nat)
    requires Tiles(bs, units) && FreeRun(bs, 0, units)
    ensures bs == [Block(0, units, true)]
  {
    Within(bs, units, 0);
    var i := RunInBlock(bs, units, 0, units);
    if 0 < i { Ordered(bs, units, 0, i); }
    if i < |bs| - 1 { Ordered(bs, units, i, |bs| - 1); }
  }
}
