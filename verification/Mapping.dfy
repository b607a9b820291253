/** Growing the heap: what a newly mapped block does to the segments and their tiling. */
module Mapping {
  import opened Words
  import opened Chunks
  import opened HeapOps

  /** A page-aligned block that no segment overlaps. */
  ghost predicate FreshBlock(segs: seq<Segment>, base: int, size: int) {
    && LOW <= base && base % PAGE == 0 && size % PAGE == 0 && PAGE <= size && base + size < U64
    && forall i {:trigger segs[i]} :: 0 <= i < |segs| ==> base + size <= segs[i].base || segs[i].End() <= base
  }

  // ---------- the first segment ----------

  lemma PageMultiple(x: int)
    requires x % PAGE == 0
    ensures x % 8 == 0
  {
    assert x == 8 * (512 * (x / PAGE));
  }

  lemma FirstSegment(mem': Mem, base: int, size: int, offset: int)
    requires FreshBlock([], base, size)
    requires Rd(mem', base + size - TOP_FOOT_SIZE + HEAD) == TOP_FOOT_SIZE
    ensures var segs := [Segment(base, size, offset, SEG_HEAD)];
            var c := map[base := Chunk(size - TOP_FOOT_SIZE, HeldTop, true, NONE, 0)];
            Tiled(c, segs) && Tagged(mem', c, segs)
  {
    var segs := [Segment(base, size, offset, SEG_HEAD)];
    var c: ChunkMap := map[base := Chunk(size - TOP_FOOT_SIZE, HeldTop, true, NONE, 0)];
    PageMultiple(base);
    PageMultiple(size);
    Multiples(size, TOP_FOOT_SIZE);
    forall q ensures ShapeOk(c, segs, q) {}
    forall q ensures NextOk(c, q) {}
    forall q ensures PrevOk(c, segs, q) {}
    forall q ensures TagOk(mem', c, segs, q) {}
    forall q, r ensures ChunksApart(c, segs, q, r) {}
    forall i ensures EndsOk(c, segs, i) {}
    forall i ensures SegmentOk(segs, i) {}
    forall i, j ensures SegmentsApart(segs, i, j) {}
  }

  // ---------- appending to the top segment ----------

  function ExtendSegs(segs: seq<Segment>, t: int): seq<Segment>
    requires |segs| > 0
  {
    segs[|segs| - 1 := segs[|segs| - 1].(size := segs[|segs| - 1].size + t)]
  }

  lemma ExtendTop(mem: Mem, mem': Mem, c: ChunkMap, segs: seq<Segment>, p: int, t: int)
    requires Tiled(c, segs) && Tagged(mem, c, segs) && |segs| > 0 && p in c && c[p].st == HeldTop
    requires FreshBlock(segs, segs[|segs| - 1].End(), t)
    requires Rd(mem', p + c[p].size + t + HEAD) == TOP_FOOT_SIZE
    requires forall a {:trigger Rd(mem', a)} ::
               a < LOW || segs[|segs| - 1].End() <= a < segs[|segs| - 1].End() + t || Rd(mem', a) == Rd(mem, a)
    ensures var segs' := ExtendSegs(segs, t);
            var c' := c[p := c[p].(size := c[p].size + t)];
            && Tiled(c', segs') && Tagged(mem', c', segs')
            && SameElsewhere(c, c', {p})
            && (forall q, a {:trigger Claim(c, q, a)} :: Claim(c, q, a) ==> LOW <= a && Rd(mem', a) == Rd(mem, a))
  {
    var k := |segs| - 1;
    var segs' := ExtendSegs(segs, t);
    var c' := c[p := c[p].(size := c[p].size + t)];
    assert ShapeOk(c, segs, p);
    forall i { ExtendSegment(c, segs, t, i); }
    forall i, j { ExtendSegmentsApart(c, segs, t, i, j); }
    forall q
      ensures ShapeOk(c', segs', q)
    {
      ExtendShape(c, segs, p, t, q);
    }
    forall q
      ensures NextOk(c', q)
    {
      assert NextOk(c, q);
    }
    forall q
      ensures PrevOk(c', segs', q)
    {
      assert PrevOk(c, segs, q);
    }
    forall q, s
      ensures ChunksApart(c', segs', q, s)
    {
      ExtendApart(c, segs, p, t, q, s);
    }
    forall i
      ensures EndsOk(c', segs', i)
    {
      assert EndsOk(c, segs, i);
    }
    forall q
      ensures TagOk(mem', c', segs', q)
    {
      ExtendTag(mem, mem', c, segs, p, t, q);
    }
    forall q, a | Claim(c, q, a)
      ensures LOW <= a && Rd(mem', a) == Rd(mem, a)
    {
      ClaimInside(c, segs, q, a);
      assert SegmentOk(segs, k) && SegmentOk(segs, c[q].sid);
    }
  }

  lemma ExtendTag(mem: Mem, mem': Mem, c: ChunkMap, segs: seq<Segment>, p: int, t: int, q: int)
    requires Tiled(c, segs) && Tagged(mem, c, segs) && |segs| > 0 && p in c && c[p].st == HeldTop
    requires FreshBlock(segs, segs[|segs| - 1].End(), t)
    requires Rd(mem', p + c[p].size + t + HEAD) == TOP_FOOT_SIZE
    requires forall a {:trigger Rd(mem', a)} ::
               a < LOW || segs[|segs| - 1].End() <= a < segs[|segs| - 1].End() + t || Rd(mem', a) == Rd(mem, a)
    ensures TagOk(mem', c[p := c[p].(size := c[p].size + t)], ExtendSegs(segs, t), q)
  {
    assert TagOk(mem, c, segs, q);
    if q in c {
      InsideSegment(c, segs, q);
      var s := segs[c[q].sid];
      assert SegmentsApart(segs, c[q].sid, |segs| - 1) && SegmentOk(segs, c[q].sid) && SegmentOk(segs, |segs| - 1);
      assert ShapeOk(c, segs, q);
      if q != p && Topmost(c[q]) { TopUnique(c, segs, p, q); }
    }
  }

  lemma ExtendSegment(c: ChunkMap, segs: seq<Segment>, t: int, i: int)
    requires Tiled(c, segs) && |segs| > 0 && FreshBlock(segs, segs[|segs| - 1].End(), t)
    ensures SegmentOk(ExtendSegs(segs, t), i)
  {
    assert SegmentOk(segs, i);
    PageMultiple(t);
    if i == |segs| - 1 { Multiples(segs[i].size, t); }
  }

  lemma ExtendSegmentsApart(c: ChunkMap, segs: seq<Segment>, t: int, i: int, j: int)
    requires Tiled(c, segs) && |segs| > 0 && FreshBlock(segs, segs[|segs| - 1].End(), t)
    ensures SegmentsApart(ExtendSegs(segs, t), i, j)
  {
    assert SegmentsApart(segs, i, j);
    if 0 <= i < |segs| { assert SegmentOk(segs, i); }
    if 0 <= j < |segs| { assert SegmentOk(segs, j); }
  }

  lemma ExtendShape(c: ChunkMap, segs: seq<Segment>, p: int, t: int, q: int)
    requires Tiled(c, segs) && |segs| > 0 && p in c && c[p].st == HeldTop
    requires FreshBlock(segs, segs[|segs| - 1].End(), t)
    ensures ShapeOk(c[p := c[p].(size := c[p].size + t)], ExtendSegs(segs, t), q)
  {
    assert ShapeOk(c, segs, q) && ShapeOk(c, segs, p);
    if q in c && q != p && Topmost(c[q]) { TopUnique(c, segs, p, q); }
    PageMultiple(t);
    Multiples(c[p].size, t);
  }

  lemma TopUnique(c: ChunkMap, segs: seq<Segment>, p: int, q: int)
    requires Tiled(c, segs) && p in c && q in c && Topmost(c[p]) && Topmost(c[q])
    ensures p == q
  {
    assert ShapeOk(c, segs, p) && ShapeOk(c, segs, q);
    if p != q { Distinct(c, segs, p, q); }
  }

  lemma ExtendApart(c: ChunkMap, segs: seq<Segment>, p: int, t: int, q: int, s: int)
    requires Tiled(c, segs) && |segs| > 0 && p in c && c[p].st == HeldTop
    requires FreshBlock(segs, segs[|segs| - 1].End(), t)
    ensures ChunksApart(c[p := c[p].(size := c[p].size + t)], ExtendSegs(segs, t), q, s)
  {
    assert ChunksApart(c, segs, q, s);
    if q in c && s in c && q < s {
      assert ShapeOk(c, segs, p) && ShapeOk(c, segs, q) && ShapeOk(c, segs, s);
      InsideSegment(c, segs, s);
      if q == p {
        assert SegmentsApart(segs, c[s].sid, |segs| - 1);
      } else if Topmost(c[q]) {
        TopUnique(c, segs, p, q);
      }
    }
  }

  /** A chunk with its extent lies in its segment. */
  lemma InsideSegment(c: ChunkMap, segs: seq<Segment>, p: int)
    requires Tiled(c, segs) && p in c
    ensures 0 <= c[p].sid < |segs| && segs[c[p].sid].base <= p
    ensures p + Extent(c, segs, p) <= segs[c[p].sid].End() && c[p].size + 16 <= segs[c[p].sid].End() - p
    ensures Topmost(c[p]) || c[p].st == Record ==> c[p].size + 32 <= segs[c[p].sid].End() - p
    decreases set q | q in c && p < q
  {
    assert ShapeOk(c, segs, p) && NextOk(c, p) && SegmentOk(segs, c[p].sid);
    if !Topmost(c[p]) && c[p].st != Record {
      var n := p + c[p].size;
      var above, above' := set q | q in c && p < q, set q | q in c && n < q;
      assert n in above && n !in above' && above' <= above;
      InsideSegment(c, segs, n);
      assert ShapeOk(c, segs, n);
    }
  }

  lemma ClaimInside(c: ChunkMap, segs: seq<Segment>, q: int, a: int)
    requires Tiled(c, segs) && Claim(c, q, a)
    ensures 0 <= c[q].sid < |segs| && segs[c[q].sid].base <= a < segs[c[q].sid].End()
  {
    InsideSegment(c, segs, q);
    assert ShapeOk(c, segs, q);
  }

  lemma ClaimLow(c: ChunkMap, segs: seq<Segment>, q: int)
    requires Tiled(c, segs) && q in c
    ensures 0 <= c[q].sid < |segs| && LOW <= segs[c[q].sid].base
  {
    assert ShapeOk(c, segs, q) && SegmentOk(segs, c[q].sid);
  }

  // ---------- prepending to a segment ----------

  function PrependSegs(segs: seq<Segment>, k: int, t: int): seq<Segment>
    requires 0 <= k < |segs|
  {
    segs[k := segs[k].(base := segs[k].base - t, size := segs[k].size + t)]
  }

  function PrependMap(c: ChunkMap, first: int, k: int, t: int): ChunkMap
    requires first in c
  {
    c[first := c[first].(prev := first - t)][first - t := Chunk(t, Held, true, NONE, k)]
  }

  ghost predicate CanPrepend(c: ChunkMap, segs: seq<Segment>, k: int, t: int) {
    0 <= k < |segs| && FreshBlock(segs, segs[k].base - t, t)
  }

  lemma PrependFresh(c: ChunkMap, segs: seq<Segment>, k: int, t: int, q: int)
    requires Tiled(c, segs) && CanPrepend(c, segs, k, t) && q in c
    ensures q + Extent(c, segs, q) <= segs[k].base - t || segs[k].base <= q
    ensures q != segs[k].base - t && LOW <= q && 8 <= c[q].size
    ensures Extent(c, segs, q) >= c[q].size
  {
    InsideSegment(c, segs, q);
    assert ShapeOk(c, segs, q) && SegmentOk(segs, c[q].sid);
    BlockApart(c, segs, k, t, c[q].sid);
  }

  /** The new block becomes one held chunk below the first chunk. */
  lemma Prepend(mem: Mem, mem': Mem, c: ChunkMap, segs: seq<Segment>, k: int, t: int)
    requires Tiled(c, segs) && Tagged(mem, c, segs) && CanPrepend(c, segs, k, t)
    requires OnlyBelow(mem, mem', segs, k, t)
    ensures segs[k].base in c
    ensures var c', segs' := PrependMap(c, segs[k].base, k, t), PrependSegs(segs, k, t);
            && Tiled(c', segs') && Tagged(mem', c', segs')
            && SameElsewhere(c, c', {segs[k].base - t})
            && (forall q, a {:trigger Claim(c, q, a)} :: Claim(c, q, a) ==> LOW <= a && Rd(mem', a) == Rd(mem, a))
  {
    hide ShapeOk, NextOk, PrevOk, TagOk, ChunksApart, SegmentOk, SegmentsApart;
    var first := segs[k].base;
    assert EndsOk(c, segs, k);
    var c', segs' := PrependMap(c, first, k, t), PrependSegs(segs, k, t);
    forall i { PrependSegment(c, segs, k, t, i); }
    forall i, j { PrependSegmentsApart(c, segs, k, t, i, j); }
    forall q { PrependShape(c, segs, k, t, q); }
    forall q { PrependNext(c, segs, k, t, q); }
    forall q { PrependPrev(c, segs, k, t, q); }
    forall q, s { PrependApart(c, segs, k, t, q, s); }
    forall i { PrependEnds(c, segs, k, t, i); }
    forall q { PrependTag(mem, mem', c, segs, k, t, q); }
    forall q, a | Claim(c, q, a)
      ensures LOW <= a && Rd(mem', a) == Rd(mem, a)
    {
      ClaimInside(c, segs, q, a);
      ClaimLow(c, segs, q);
      BlockApart(c, segs, k, t, c[q].sid);
    }
  }

  /** mem' differs from mem at most in static data and in the t bytes below segment k. */
  ghost predicate OnlyBelow(mem: Mem, mem': Mem, segs: seq<Segment>, k: int, t: int)
    requires 0 <= k < |segs|
  {
    forall a {:trigger Rd(mem', a)} :: a < LOW || segs[k].base - t <= a < segs[k].base || Rd(mem', a) == Rd(mem, a)
  }

  lemma BlockApart(c: ChunkMap, segs: seq<Segment>, k: int, t: int, i: int)
    requires Tiled(c, segs) && CanPrepend(c, segs, k, t) && 0 <= i < |segs|
    ensures segs[i].End() <= segs[k].base - t || segs[k].base <= segs[i].base
    ensures (segs[k].base - t) % 8 == 0 && t % 8 == 0 && LOW <= segs[k].base - t && PAGE <= t
  {
    assert SegmentOk(segs, i) && SegmentOk(segs, k);
    assert segs[k].base - t + t == segs[k].base;
    PageMultiple(t);
    PageMultiple(segs[k].base - t);
  }

  lemma PrependSegment(c: ChunkMap, segs: seq<Segment>, k: int, t: int, i: int)
    requires Tiled(c, segs) && CanPrepend(c, segs, k, t)
    ensures SegmentOk(PrependSegs(segs, k, t), i)
  {
    assert SegmentOk(segs, i);
    BlockApart(c, segs, k, t, k);
    if i == k { Multiples(segs[k].size, t); }
  }

  lemma PrependSegmentsApart(c: ChunkMap, segs: seq<Segment>, k: int, t: int, i: int, j: int)
    requires Tiled(c, segs) && CanPrepend(c, segs, k, t)
    ensures SegmentsApart(PrependSegs(segs, k, t), i, j)
  {
    assert SegmentsApart(segs, i, j);
    if 0 <= i < |segs| { BlockApart(c, segs, k, t, i); assert SegmentOk(segs, i); }
    if 0 <= j < |segs| { BlockApart(c, segs, k, t, j); assert SegmentOk(segs, j); }
    assert PrependSegs(segs, k, t)[k].End() == segs[k].End();
  }

  lemma PrependShape(c: ChunkMap, segs: seq<Segment>, k: int, t: int, q: int)
    requires Tiled(c, segs) && CanPrepend(c, segs, k, t) && segs[k].base in c
    ensures ShapeOk(PrependMap(c, segs[k].base, k, t), PrependSegs(segs, k, t), q)
  {
    assert ShapeOk(c, segs, q);
    BlockApart(c, segs, k, t, k);
    assert PrependSegs(segs, k, t)[k].End() == segs[k].End();
  }

  lemma PrependNext(c: ChunkMap, segs: seq<Segment>, k: int, t: int, q: int)
    requires Tiled(c, segs) && CanPrepend(c, segs, k, t) && segs[k].base in c
    ensures NextOk(PrependMap(c, segs[k].base, k, t), q)
  {
    var first := segs[k].base;
    assert NextOk(c, q) && EndsOk(c, segs, k);
    BlockApart(c, segs, k, t, k);
    PrependFresh(c, segs, k, t, first);
    if q in c {
      PrependFresh(c, segs, k, t, q);
      if !Topmost(c[q]) && c[q].st != Record {
        PrependFresh(c, segs, k, t, q + c[q].size);
      }
    }
  }

  lemma PrependApart(c: ChunkMap, segs: seq<Segment>, k: int, t: int, q: int, s: int)
    requires Tiled(c, segs) && CanPrepend(c, segs, k, t) && segs[k].base in c
    ensures ChunksApart(PrependMap(c, segs[k].base, k, t), PrependSegs(segs, k, t), q, s)
  {
    assert ChunksApart(c, segs, q, s);
    assert PrependSegs(segs, k, t)[k].End() == segs[k].End();
    if q in c { PrependFresh(c, segs, k, t, q); }
    if s in c { PrependFresh(c, segs, k, t, s); }
  }

  lemma PrependPrev(c: ChunkMap, segs: seq<Segment>, k: int, t: int, q: int)
    requires Tiled(c, segs) && CanPrepend(c, segs, k, t) && segs[k].base in c
    ensures PrevOk(PrependMap(c, segs[k].base, k, t), PrependSegs(segs, k, t), q)
  {
    var first := segs[k].base;
    assert PrevOk(c, segs, q) && EndsOk(c, segs, k);
    PrependFresh(c, segs, k, t, first);
    BlockApart(c, segs, k, t, k);
    if q in c {
      PrependFresh(c, segs, k, t, q);
      if c[q].prev in c { PrependFresh(c, segs, k, t, c[q].prev); }
    }
  }

  lemma PrependEnds(c: ChunkMap, segs: seq<Segment>, k: int, t: int, i: int)
    requires Tiled(c, segs) && CanPrepend(c, segs, k, t) && segs[k].base in c
    ensures EndsOk(PrependMap(c, segs[k].base, k, t), PrependSegs(segs, k, t), i)
  {
    assert EndsOk(c, segs, i) && EndsOk(c, segs, k);
    BlockApart(c, segs, k, t, k);
    PrependFresh(c, segs, k, t, segs[k].base);
    if 0 <= i < |segs| {
      PrependFresh(c, segs, k, t, segs[i].base);
      if i < |segs| - 1 { PrependFresh(c, segs, k, t, segs[i].rec - 16); }
    }
  }

  lemma PrependTag(mem: Mem, mem': Mem, c: ChunkMap, segs: seq<Segment>, k: int, t: int, q: int)
    requires Tiled(c, segs) && Tagged(mem, c, segs) && CanPrepend(c, segs, k, t) && segs[k].base in c
    requires OnlyBelow(mem, mem', segs, k, t)
    ensures TagOk(mem', PrependMap(c, segs[k].base, k, t), PrependSegs(segs, k, t), q)
  {
    assert TagOk(mem, c, segs, q);
    if q in c {
      PrependFresh(c, segs, k, t, q);
      InsideSegment(c, segs, q);
      BlockApart(c, segs, k, t, c[q].sid);
      assert ShapeOk(c, segs, q);
    }
  }

  // ---------- adding a segment ----------

  /** Where add_segment puts the record of the old top segment: at the foot of the segment,
      or at the old top itself when that is too small to become a chunk. */
  function RecordAt(p: int, size: int): int {
    if size < MIN_CHUNK_SIZE then p else p + size
  }

  function PushSegs(segs: seq<Segment>, rec: int, base: int, size: int, offset: int): seq<Segment>
    requires |segs| > 0
  {
    segs[|segs| - 1 := segs[|segs| - 1].(rec := rec)] + [Segment(base, size, offset, SEG_HEAD)]
  }

  /** The old top p becomes a held chunk (if large enough) and the record; the new block is the held top. */
  function PushMap(c: ChunkMap, p: int, base: int, size: int): ChunkMap
    requires p in c
  {
    var k := c[p];
    var r := RecordAt(p, k.size);
    var c1 := if r == p then c else c[p := k.(st := Held)];
    c1[r := Chunk(SEGMENT_SIZE, Record, if r == p then k.pin else true, if r == p then k.prev else p, k.sid)]
      [base := Chunk(size - TOP_FOOT_SIZE, HeldTop, true, NONE, k.sid + 1)]
  }

  ghost predicate CanPush(c: ChunkMap, segs: seq<Segment>, p: int, base: int, size: int) {
    |segs| > 0 && p in c && c[p].st == HeldTop && c[p].pin && FreshBlock(segs, base, size)
  }

  /** What add_segment has written: record head, first fencepost, and the marker above the
      new top; all else it may change lies in the old top or in the new block. */
  ghost predicate PushWrites(mem: Mem, mem': Mem, c: ChunkMap, segs: seq<Segment>, p: int, base: int, size: int)
    requires p in c && |segs| > 0
  {
    var r := RecordAt(p, c[p].size);
    && Rd(mem', r + HEAD) == BothInUse(SEGMENT_SIZE)
    && Rd(mem', r + SEGMENT_SIZE + HEAD) == FENCEPOST_HEAD
    && Rd(mem', base + size - TOP_FOOT_SIZE + HEAD) == TOP_FOOT_SIZE
    && (forall a {:trigger Rd(mem', a)} ::
          a < LOW || p + HEAD <= a < segs[|segs| - 1].End() || base <= a < base + size || Rd(mem', a) == Rd(mem, a))
  }

  lemma PushWhere(c: ChunkMap, segs: seq<Segment>, p: int, base: int, size: int, q: int)
    requires Tiled(c, segs) && CanPush(c, segs, p, base, size)
    ensures c[p].sid == |segs| - 1 && p + c[p].size + TOP_FOOT_SIZE == segs[|segs| - 1].End() && 8 <= c[p].size && c[p].size % 8 == 0
    ensures q in c && q != p ==> q + Extent(c, segs, q) <= p || segs[|segs| - 1].End() <= q
    ensures q in c ==> q + Extent(c, segs, q) <= base || base + size <= q
    ensures q in c ==> LOW <= q && 8 <= c[q].size <= Extent(c, segs, q) && 0 <= c[q].sid < |segs|
    ensures p < segs[|segs| - 1].End() <= base || base + size <= segs[|segs| - 1].base <= p
    ensures base % 8 == 0 && size % 8 == 0 && PAGE <= size && LOW <= base
  {
    assert ShapeOk(c, segs, p) && SegmentOk(segs, |segs| - 1);
    PageMultiple(base);
    PageMultiple(size);
    if q in c {
      InsideSegment(c, segs, q);
      assert ShapeOk(c, segs, q) && SegmentOk(segs, c[q].sid);
      var s := segs[c[q].sid];
      if q != p { Distinct(c, segs, p, q); }
    }
  }

  lemma PushShape(c: ChunkMap, segs: seq<Segment>, p: int, base: int, size: int, offset: int, q: int)
    requires Tiled(c, segs) && CanPush(c, segs, p, base, size)
    ensures ShapeOk(PushMap(c, p, base, size), PushSegs(segs, RecordAt(p, c[p].size) + 16, base, size, offset), q)
  {
    assert ShapeOk(c, segs, q) && ShapeOk(c, segs, p);
    PushWhere(c, segs, p, base, size, q);
    Multiples(p, c[p].size);
    Multiples(size, TOP_FOOT_SIZE);
    if q in c && q != p && Topmost(c[q]) { TopUnique(c, segs, p, q); }
    if q in c && q != p && c[q].sid == |segs| - 1 { assert c[q].st != Record; }
  }

  lemma PushNext(c: ChunkMap, segs: seq<Segment>, p: int, base: int, size: int, q: int)
    requires Tiled(c, segs) && CanPush(c, segs, p, base, size)
    ensures NextOk(PushMap(c, p, base, size), q)
  {
    assert NextOk(c, q);
    PushWhere(c, segs, p, base, size, q);
    if q in c && q != p && !Topmost(c[q]) && c[q].st != Record {
      PushWhere(c, segs, p, base, size, q + c[q].size);
    }
    if q in c && q != p && Topmost(c[q]) { TopUnique(c, segs, p, q); }
  }

  lemma PushPrev(c: ChunkMap, segs: seq<Segment>, p: int, base: int, size: int, offset: int, q: int)
    requires Tiled(c, segs) && CanPush(c, segs, p, base, size)
    ensures PrevOk(PushMap(c, p, base, size), PushSegs(segs, RecordAt(p, c[p].size) + 16, base, size, offset), q)
  {
    assert PrevOk(c, segs, q) && PrevOk(c, segs, p);
    PushWhere(c, segs, p, base, size, q);
    PushWhere(c, segs, p, base, size, p);
    if q in c && c[q].prev in c { PushWhere(c, segs, p, base, size, c[q].prev); }
    if c[p].prev in c { PushWhere(c, segs, p, base, size, c[p].prev); }
  }

  lemma PushTag(mem: Mem, mem': Mem, c: ChunkMap, segs: seq<Segment>, p: int, base: int, size: int, offset: int, q: int)
    requires Tiled(c, segs) && Tagged(mem, c, segs) && CanPush(c, segs, p, base, size)
    requires PushWrites(mem, mem', c, segs, p, base, size)
    ensures TagOk(mem', PushMap(c, p, base, size), PushSegs(segs, RecordAt(p, c[p].size) + 16, base, size, offset), q)
  {
    assert TagOk(mem, c, segs, q);
    PushWhere(c, segs, p, base, size, q);
    if q in c && q != p {
      if Topmost(c[q]) { TopUnique(c, segs, p, q); }
      assert ShapeOk(c, segs, q);
      PushOutside(c, segs, p, base, size, q, q + HEAD);
      PushOutside(c, segs, p, base, size, q, q + c[q].size);
      if c[q].st == Record { PushOutside(c, segs, p, base, size, q, q + SEGMENT_SIZE + HEAD); }
    }
  }

  /** The words of any other chunk, and the first word above it, lie outside what
      add_segment may change. */
  lemma PushOutside(c: ChunkMap, segs: seq<Segment>, p: int, base: int, size: int, q: int, a: int)
    requires Tiled(c, segs) && CanPush(c, segs, p, base, size) && q in c && q != p
    requires q <= a < q + Extent(c, segs, q) || (!Topmost(c[q]) && c[q].st != Record && q <= a < q + c[q].size + 8)
    ensures LOW <= a && !(p + HEAD <= a < segs[|segs| - 1].End()) && !(base <= a < base + size)
  {
    PushWhere(c, segs, p, base, size, q);
    assert NextOk(c, q);
    if !Topmost(c[q]) && c[q].st != Record { PushWhere(c, segs, p, base, size, q + c[q].size); }
  }

  lemma PushApart(c: ChunkMap, segs: seq<Segment>, p: int, base: int, size: int, offset: int, q: int, s: int)
    requires Tiled(c, segs) && CanPush(c, segs, p, base, size)
    ensures ChunksApart(PushMap(c, p, base, size), PushSegs(segs, RecordAt(p, c[p].size) + 16, base, size, offset), q, s)
  {
    assert ChunksApart(c, segs, q, s);
    PushWhere(c, segs, p, base, size, q);
    PushWhere(c, segs, p, base, size, s);
    PushWhere(c, segs, p, base, size, p);
    if q in c && q != p && Topmost(c[q]) { TopUnique(c, segs, p, q); }
  }

  lemma PushEnds(c: ChunkMap, segs: seq<Segment>, p: int, base: int, size: int, offset: int, i: int)
    requires Tiled(c, segs) && CanPush(c, segs, p, base, size)
    ensures EndsOk(PushMap(c, p, base, size), PushSegs(segs, RecordAt(p, c[p].size) + 16, base, size, offset), i)
  {
    assert EndsOk(c, segs, i);
    PushWhere(c, segs, p, base, size, p);
    if 0 <= i < |segs| {
      PushWhere(c, segs, p, base, size, segs[i].base);
      if i < |segs| - 1 { PushWhere(c, segs, p, base, size, segs[i].rec - 16); }
    }
  }

  lemma PushSegments(c: ChunkMap, segs: seq<Segment>, p: int, base: int, size: int, offset: int, i: int, j: int)
    requires Tiled(c, segs) && CanPush(c, segs, p, base, size)
    ensures var segs' := PushSegs(segs, RecordAt(p, c[p].size) + 16, base, size, offset);
            SegmentOk(segs', i) && SegmentsApart(segs', i, j)
  {
    assert SegmentOk(segs, i) && SegmentsApart(segs, i, j);
    PushWhere(c, segs, p, base, size, p);
  }

  lemma Push(mem: Mem, mem': Mem, c: ChunkMap, segs: seq<Segment>, p: int, base: int, size: int, offset: int)
    requires Tiled(c, segs) && Tagged(mem, c, segs) && CanPush(c, segs, p, base, size)
    requires PushWrites(mem, mem', c, segs, p, base, size)
    ensures var c' := PushMap(c, p, base, size);
            var segs' := PushSegs(segs, RecordAt(p, c[p].size) + 16, base, size, offset);
            && Tiled(c', segs') && Tagged(mem', c', segs')
            && SameElsewhere(c, c', {p, RecordAt(p, c[p].size), base})
            && base !in c && RecordAt(p, c[p].size) !in c - {p}
            && (forall q, a {:trigger Claim(c, q, a)} :: Claim(c, q, a) ==> LOW <= a && Rd(mem', a) == Rd(mem, a))
  {
    hide ShapeOk, NextOk, PrevOk, TagOk, ChunksApart, SegmentOk, SegmentsApart, EndsOk;
    var c' := PushMap(c, p, base, size);
    var segs' := PushSegs(segs, RecordAt(p, c[p].size) + 16, base, size, offset);
    forall i ensures SegmentOk(segs', i) { PushSegments(c, segs, p, base, size, offset, i, 0); }
    forall i, j ensures SegmentsApart(segs', i, j) { PushSegments(c, segs, p, base, size, offset, i, j); }
    forall q ensures ShapeOk(c', segs', q) { PushShape(c, segs, p, base, size, offset, q); }
    forall q ensures NextOk(c', q) { PushNext(c, segs, p, base, size, q); }
    forall q ensures PrevOk(c', segs', q) { PushPrev(c, segs, p, base, size, offset, q); }
    forall q, s ensures ChunksApart(c', segs', q, s) { PushApart(c, segs, p, base, size, offset, q, s); }
    forall i ensures EndsOk(c', segs', i) { PushEnds(c, segs, p, base, size, offset, i); }
    forall q ensures TagOk(mem', c', segs', q) { PushTag(mem, mem', c, segs, p, base, size, offset, q); }
    PushWhere(c, segs, p, base, size, base);
    PushWhere(c, segs, p, base, size, RecordAt(p, c[p].size));
    forall q, a | Claim(c, q, a)
      ensures LOW <= a && Rd(mem', a) == Rd(mem, a)
    {
      ClaimWithin(c, segs, q, a);
      PushOutside(c, segs, p, base, size, q, a);
    }
  }

  /** A claimed word lies in its chunk, or is the first word of the next chunk. */
  lemma ClaimWithin(c: ChunkMap, segs: seq<Segment>, q: int, a: int)
    requires Tiled(c, segs) && Claim(c, q, a)
    ensures q in c && q <= a && (a < q + Extent(c, segs, q) || (!Topmost(c[q]) && c[q].st != Record && a < q + c[q].size + 8))
  {
    assert ShapeOk(c, segs, q);
  }
}
