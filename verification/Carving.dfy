/** What carving does to the victim and top pointers, and to the other blocks. */
module Carving {
  import opened Words
  import opened Chunks
  import opened SmallBins
  import opened TreeBins
  import opened HeapOps
  import opened Mapping
  import opened HeapState
  import opened HeapSteps

  lemma BinnedSize(s: State, p: int)
    requires Tiled(s.c, s.segs) && p in s.c && s.c[p].st in {Binned, Victim}
    ensures MIN_CHUNK_SIZE <= s.c[p].size && s.c[p].size % 8 == 0
    ensures s.c[p].size < U64 && LOW <= p
  {
    assert ShapeOk(s.c, s.segs, p);
    AboveLow(s.c, s.segs, p);
    InsideSegment(s.c, s.segs, p);
    assert SegmentOk(s.segs, s.c[p].sid);
  }

  lemma UndisturbedRefl(s: State, p: int)
    ensures Undisturbed(s, s, p)
  {
  }

  lemma InTreesBinned(s: State, v: int)
    requires Core(s, NOBODY) && InTrees(s.nodes, v)
    ensures v in s.c && s.c[v].st == Binned && LOW <= v
  {
    TreesHoldLarge(s.mem, s.c, s.nodes, s.treemap);
  }

  /** p has been taken out of its bin, and nothing else has happened since s0. */
  ghost predicate Taken(s0: State, s1: State, p: int, dv: int, dvsize: int, top: int, topsize: int) {
    && Core(s0, NOBODY) && PointersOk(s0, dv, dvsize, top, topsize)
    && Core(s1, p) && s1.c == s0.c && s1.segs == s0.segs && OnlyBinWords(s0.c, s0.mem, s1.mem)
    && p in s0.c && s0.c[p].st == Binned
  }

  lemma TakenUsers(s0: State, s1: State, p: int, dv: int, dvsize: int, top: int, topsize: int)
    requires Taken(s0, s1, p, dv, dvsize, top, topsize)
    ensures Undisturbed(s0, s1, p) && Carvable(s1, p, p)
    ensures MIN_CHUNK_SIZE <= s1.c[p].size && s1.c[p].size % 8 == 0
  {
    hide OnlyBinWords;
    BinStepUsers(s0, s1, p);
    BinnedSize(s0, p);
    AboveLow(s0.c, s0.segs, p);
  }

  /** After handing out the whole of a binned chunk the pointers are as before. */
  lemma TakenWhole(s0: State, s2: State, p: int, dv: int, dvsize: int, top: int, topsize: int)
    requires PointersOk(s0, dv, dvsize, top, topsize) && s2.segs == s0.segs
    requires p in s0.c && s0.c[p].st == Binned && IsLive(s2.c, p) && SameElsewhere(s0.c, s2.c, {p})
    ensures PointersOk(s2, dv, dvsize, top, topsize)
  {
    assert PointerOk(s0.c, dv, dvsize, top, p) && PointerOk(s0.c, dv, dvsize, top, dv) && PointerOk(s0.c, dv, dvsize, top, top);
    PointersStep(s0, s2, {p}, dv, dvsize, top, topsize, dv, dvsize, top, topsize);
  }

  /** The remainder r of a binned chunk p has been put in a bin. */
  lemma RestBinned(s0: State, s2: State, s3: State, p: int, r: int, dv: int, dvsize: int, top: int, topsize: int)
    requires PointersOk(s0, dv, dvsize, top, topsize) && s2.segs == s0.segs && s3.segs == s0.segs && s3.c == s2.c
    requires p in s0.c && s0.c[p].st == Binned && IsLive(s2.c, p) && SameElsewhere(s0.c, s2.c, {p, r})
    requires r !in s0.c && r in s2.c && s2.c[r].st == Binned
    requires Core(s2, r) && OnlyBinWords(s2.c, s2.mem, s3.mem) && Undisturbed(s0, s2, p)
    ensures PointersOk(s3, dv, dvsize, top, topsize) && Undisturbed(s0, s3, p)
  {
    hide OnlyBinWords;
    assert PointerOk(s0.c, dv, dvsize, top, p) && PointerOk(s0.c, dv, dvsize, top, dv) && PointerOk(s0.c, dv, dvsize, top, top);
    PointersStep(s0, s3, {p, r}, dv, dvsize, top, topsize, dv, dvsize, top, topsize);
    BinStepUsers(s2, s3, p);
    UndisturbedTrans(s0, s2, s3, p);
  }

  /** The old victim is still there when the remainder r becomes the new one. */
  lemma VictimStill(s0: State, s2: State, p: int, r: int, dv: int, dvsize: int, top: int, topsize: int)
    requires PointersOk(s0, dv, dvsize, top, topsize)
    requires p in s0.c && s0.c[p].st == Binned && r !in s0.c && SameElsewhere(s0.c, s2.c, {p, r})
    ensures dvsize != 0 ==> dv in s2.c && s2.c[dv].st == Victim && s2.c[dv].size == dvsize && dv != r
  {
    if dvsize != 0 {
      assert PointerOk(s0.c, dv, dvsize, top, dv) && SameAt(s0.c, s2.c, dv);
    }
  }

  lemma VictimReplaced(s0: State, s2: State, s3: State, p: int, r: int, rsize: int, dv: int, dvsize: int, top: int, topsize: int)
    requires PointersOk(s0, dv, dvsize, top, topsize) && s2.segs == s0.segs && s3.segs == s0.segs
    requires p in s0.c && s0.c[p].st == Binned && IsLive(s2.c, p) && SameElsewhere(s0.c, s2.c, {p, r})
    requires r !in s0.c && r in s2.c && s2.c[r].st == Victim && s2.c[r].size == rsize && 0 < rsize
    requires dvsize != 0 ==> dv in s2.c && s2.c[dv].st == Victim && dv != r
    requires s3.c == if dvsize == 0 then s2.c else SetStatus(s2.c, dv, Binned)
    requires Core(s2, NOBODY) && Core(s3, NOBODY) && Undisturbed(s0, s2, p) && Undisturbed(s2, s3, NOBODY)
    ensures PointersOk(s3, r, rsize, top, topsize) && Undisturbed(s0, s3, p) && IsLive(s3.c, p) && s3.c[p].size == s2.c[p].size
  {
    hide Undisturbed, Tiled, Tagged, SmallOk, TreesOk, RecordsOk, InBins;
    assert PointerOk(s0.c, dv, dvsize, top, p) && PointerOk(s0.c, dv, dvsize, top, dv) && PointerOk(s0.c, dv, dvsize, top, top);
    var touched := if dvsize == 0 then {p, r} else {p, r, dv};
    forall q | q !in touched
      ensures SameAt(s0.c, s3.c, q)
    {
      assert SameAt(s0.c, s2.c, q);
    }
    PointersStep(s0, s3, touched, dv, dvsize, top, topsize, r, rsize, top, topsize);
    UndisturbedAny(s2, s3, p);
    UndisturbedTrans(s0, s2, s3, p);
  }

  lemma VictimCarvable(s: State, dv: int, dvsize: int, top: int, topsize: int)
    requires Core(s, NOBODY) && PointersOk(s, dv, dvsize, top, topsize) && 0 < dvsize
    ensures Carvable(s, dv, NOBODY) && s.c[dv].st == Victim && s.c[dv].size == dvsize && dvsize % 8 == 0
  {
    assert PointerOk(s.c, dv, dvsize, top, dv);
    BinnedSize(s, dv);
  }

  lemma VictimSplit(s0: State, s': State, p: int, q: int, rsize: int, dvsize: int, top: int, topsize: int)
    requires PointersOk(s0, p, dvsize, top, topsize) && s'.segs == s0.segs && 0 < dvsize
    requires IsLive(s'.c, p) && q !in s0.c && q in s'.c && s'.c[q].st == Victim && s'.c[q].size == rsize && 0 < rsize
    requires SameElsewhere(s0.c, s'.c, {p, q})
    ensures PointersOk(s', q, rsize, top, topsize)
  {
    assert PointerOk(s0.c, p, dvsize, top, p) && PointerOk(s0.c, p, dvsize, top, top);
    PointersStep(s0, s', {p, q}, p, dvsize, top, topsize, q, rsize, top, topsize);
  }

  lemma VictimGone(s0: State, s': State, p: int, dvsize: int, top: int, topsize: int)
    requires PointersOk(s0, p, dvsize, top, topsize) && s'.segs == s0.segs && 0 < dvsize
    requires IsLive(s'.c, p) && SameElsewhere(s0.c, s'.c, {p})
    ensures PointersOk(s', 0, 0, top, topsize)
  {
    assert PointerOk(s0.c, p, dvsize, top, p) && PointerOk(s0.c, p, dvsize, top, top);
    PointersStep(s0, s', {p}, p, dvsize, top, topsize, 0, 0, top, topsize);
  }

  lemma TopCarvable(s: State, dv: int, dvsize: int, top: int, topsize: int)
    requires Core(s, NOBODY) && PointersOk(s, dv, dvsize, top, topsize) && 0 < topsize
    ensures Carvable(s, top, NOBODY) && s.c[top].st == Top && s.c[top].size == topsize
  {
    assert PointerOk(s.c, dv, dvsize, top, top);
  }

  lemma TopSplit(s0: State, s': State, p: int, q: int, topsize: int, rsize: int, dv: int, dvsize: int)
    requires PointersOk(s0, dv, dvsize, p, topsize) && s'.segs == s0.segs && 0 < topsize
    requires IsLive(s'.c, p) && q !in s0.c && q in s'.c && s'.c[q].st == Top && s'.c[q].size == rsize
    requires SameElsewhere(s0.c, s'.c, {p, q})
    ensures PointersOk(s', dv, dvsize, q, rsize)
  {
    assert PointerOk(s0.c, dv, dvsize, p, p) && PointerOk(s0.c, dv, dvsize, p, dv);
    PointersStep(s0, s', {p, q}, dv, dvsize, p, topsize, dv, dvsize, q, rsize);
  }

  /** A block handed out for k bytes also serves a slightly smaller request. */
  lemma HandedFor(s: State, s': State, p: int, k: int, nb: int)
    requires HandedOut(s, s', p, k) && s'.c[p].size == k && nb <= k < nb + MIN_CHUNK_SIZE
    ensures HandedOut(s, s', p, nb)
  {
  }
}
