/** The debug checkers of the source. They look at nothing but memory and the fields of the
    malloc_state, and they are an account of the invariant of their own: every assertion in them
    holds of every valid heap, and every walk in them ends. */
module Checks {
  import opened Words
  import opened Bits
  import opened BinMaps
  import opened Chunks
  import opened SmallBins
  import opened TreeBins
  import opened TreeOps
  import opened TreeSearch
  import opened Mapping
  import opened HeapState
  import opened TreeMoves
  import opened HeapSteps
  import opened BestFit
  import opened Growing
  import opened Heap

  // ---------- single chunks ----------

  function SizeAt(mem: Mem, p: int): int {
    ChunkSize(Rd(mem, p + HEAD))
  }

  function NextChunk(mem: Mem, p: int): int {
    p + SizeAt(mem, p)
  }

  predicate NextPInUse(mem: Mem, p: int) {
    PInUse(Rd(mem, NextChunk(mem, p) + HEAD))
  }

  predicate Mmapped(mem: Mem, p: int) {
    !PInUse(Rd(mem, p + HEAD)) && Rd(mem, p) % 2 == 1
  }

  /** do_check_any_chunk, without the least address. */
  predicate CheckAny(mem: Mem, p: int) {
    (p + 16) % 8 == 0 || Rd(mem, p + HEAD) == FENCEPOST_HEAD
  }

  /** do_check_inuse_chunk, of a heap without direct mappings. */
  predicate CheckInUse(mem: Mem, p: int) {
    && CheckAny(mem, p) && CInUse(Rd(mem, p + HEAD)) && NextPInUse(mem, p) && !Mmapped(mem, p)
    && (PInUse(Rd(mem, p + HEAD)) || NextChunk(mem, p - Rd(mem, p)) == p)
  }

  /** do_check_free_chunk */
  predicate CheckFree(mem: Mem, dv: int, top: int, p: int) {
    var size, next := SizeAt(mem, p), NextChunk(mem, p);
    && CheckAny(mem, p) && !CInUse(Rd(mem, p + HEAD)) && !NextPInUse(mem, p) && !Mmapped(mem, p)
    && (p != dv && p != top ==>
          if size >= MIN_CHUNK_SIZE then
            && size % 8 == 0 && (p + 16) % 8 == 0 && Rd(mem, next) == size && PInUse(Rd(mem, p + HEAD))
            && (next == top || CInUse(Rd(mem, next + HEAD)))
            && Rd(mem, Rd(mem, p + FD) + BK) == p && Rd(mem, Rd(mem, p + BK) + FD) == p
          else size == 8)
  }

  /** do_check_malloced_chunk, for a padded request nb. */
  predicate CheckMalloced(mem: Mem, p: int, nb: int) {
    var size := SizeAt(mem, p);
    CheckInUse(mem, p) && size % 8 == 0 && MIN_CHUNK_SIZE <= size && nb <= size < nb + MIN_CHUNK_SIZE
  }

  /** do_check_top_chunk, with the segment that holds it. */
  predicate CheckTop(mem: Mem, base: int, size: int, p: int, topsize: int) {
    var sz := SizeAt(mem, p);
    && CheckAny(mem, p) && sz == topsize && sz > 0 && sz == base + size - p - TOP_FOOT_SIZE
    && PInUse(Rd(mem, p + HEAD)) && !NextPInUse(mem, p)
  }

  /** What a heap with its pointers satisfies. */
  ghost predicate Sound(s: State, dv: int, dvsize: int, top: int, topsize: int) {
    Core(s, NOBODY) && PointersOk(s, dv, dvsize, top, topsize)
  }

  /** The tags of a chunk, as they are read. */
  lemma ReadTags(s: State, dv: int, dvsize: int, top: int, topsize: int, p: int)
    requires Sound(s, dv, dvsize, top, topsize) && p in s.c
    ensures SizeAt(s.mem, p) == s.c[p].size && p % 8 == 0 && s.c[p].size % 8 == 0 && LOW <= p
    ensures PInUse(Rd(s.mem, p + HEAD)) == s.c[p].pin && CInUse(Rd(s.mem, p + HEAD)) == InUse(s.c[p])
    ensures Rd(s.mem, p + HEAD) != FENCEPOST_HEAD && !Loose(s.c[p])
    ensures s.c[p].st in {Used, Record, Binned, Victim, Top}
  {
    assert PointerOk(s.c, dv, dvsize, top, p) && TagOk(s.mem, s.c, s.segs, p) && ShapeOk(s.c, s.segs, p);
    Decode(s.c[p]);
    AboveLow(s.c, s.segs, p);
    assert ChunkSize(FENCEPOST_HEAD) == 8;
  }

  /** The pin bit of whatever follows a chunk says whether the chunk is in use. */
  lemma NextTags(s: State, dv: int, dvsize: int, top: int, topsize: int, p: int)
    requires Sound(s, dv, dvsize, top, topsize) && p in s.c
    ensures NextPInUse(s.mem, p) == InUse(s.c[p])
    ensures s.c[p].st != Record && s.c[p].st != Top ==> NextChunk(s.mem, p) in s.c && s.c[NextChunk(s.mem, p)].prev == p
    ensures s.c[p].st == Record ==> Rd(s.mem, NextChunk(s.mem, p) + HEAD) == FENCEPOST_HEAD
  {
    hide SmallOk, TreesOk, RecordsOk, PointersOk, InBins;
    ReadTags(s, dv, dvsize, top, topsize, p);
    assert TagOk(s.mem, s.c, s.segs, p) && ShapeOk(s.c, s.segs, p);
    if s.c[p].st != Record && s.c[p].st != Top {
      assert NextOk(s.c, p);
      var n := p + s.c[p].size;
      assert PrevOk(s.c, s.segs, n);
      ReadTags(s, dv, dvsize, top, topsize, n);
    }
  }

  lemma NotMmapped(s: State, dv: int, dvsize: int, top: int, topsize: int, p: int)
    requires Sound(s, dv, dvsize, top, topsize) && p in s.c
    ensures !Mmapped(s.mem, p)
    ensures !s.c[p].pin ==> NextChunk(s.mem, p - Rd(s.mem, p)) == p
  {
    hide SmallOk, TreesOk, RecordsOk, PointersOk, InBins;
    ReadTags(s, dv, dvsize, top, topsize, p);
    assert PrevOk(s.c, s.segs, p);
    if !s.c[p].pin {
      var q := s.c[p].prev;
      ReadTags(s, dv, dvsize, top, topsize, q);
      assert TagOk(s.mem, s.c, s.segs, q);
    }
  }

  /** do_check_inuse_chunk passes. */
  lemma InUsePasses(s: State, dv: int, dvsize: int, top: int, topsize: int, p: int)
    requires Sound(s, dv, dvsize, top, topsize) && p in s.c && InUse(s.c[p])
    ensures CheckInUse(s.mem, p)
  {
    hide Core, PointersOk;
    ReadTags(s, dv, dvsize, top, topsize, p);
    NextTags(s, dv, dvsize, top, topsize, p);
    NotMmapped(s, dv, dvsize, top, topsize, p);
  }

  /** do_check_malloced_chunk passes on a block when it is handed out, and on no other size. */
  lemma MallocedPasses(s: State, dv: int, dvsize: int, top: int, topsize: int, p: int, nb: int)
    requires Sound(s, dv, dvsize, top, topsize) && IsLive(s.c, p)
    ensures CheckMalloced(s.mem, p, nb) <==> nb <= s.c[p].size < nb + MIN_CHUNK_SIZE
  {
    hide PointersOk;
    InUsePasses(s, dv, dvsize, top, topsize, p);
    ReadTags(s, dv, dvsize, top, topsize, p);
    assert ShapeOk(s.c, s.segs, p);
  }

  lemma SmallLinked(s: State, p: int)
    requires Core(s, NOBODY) && p in s.c && s.c[p].st == Binned && IsSmall(s.c[p].size)
    ensures Rd(s.mem, Rd(s.mem, p + FD) + BK) == p && Rd(s.mem, Rd(s.mem, p + BK) + FD) == p
  {
    hide TreesOk, Tagged, RecordsOk, Marked;
    var i := s.c[p].size / 8;
    var k := IndexInList(s, p);
    var l := s.lists[i];
    assert BinOk(s.mem, s.lists, s.smallmap, i);
    assert LinkOk(s.mem, l, SmallBinAt(i), k) && LinkOk(s.mem, l, SmallBinAt(i), k - 1) && LinkOk(s.mem, l, SmallBinAt(i), k + 1);
  }

  lemma LargeLinked(s: State, p: int)
    requires Core(s, NOBODY) && p in s.c && s.c[p].st == Binned && !IsSmall(s.c[p].size)
    ensures Rd(s.mem, Rd(s.mem, p + FD) + BK) == p && Rd(s.mem, Rd(s.mem, p + BK) + FD) == p
  {
    hide SmallOk, Tagged, RecordsOk, Tiled, TrieOk, RootsOk;
    AboveLow(s.c, s.segs, p);
    assert ListedOk(s, NOBODY, p);
    var n, k := MemberIsNode(s.nodes, p);
    RingLinked(s.mem, s.c, s.nodes, n, k);
  }

  lemma RingLinked(mem: Mem, c: ChunkMap, nodes: Nodes, n: int, k: int)
    requires TrieOk(mem, c, nodes) && RingsOk(mem, c, nodes) && n in nodes && 0 <= k < |nodes[n].ring|
    ensures var p := nodes[n].ring[k]; Rd(mem, Rd(mem, p + FD) + BK) == p && Rd(mem, Rd(mem, p + BK) + FD) == p
  {
    var l := nodes[n].ring;
    assert NodeOk(c, nodes, n) && RingAt(mem, c, nodes, n, k);
    assert RingAt(mem, c, nodes, n, if k + 1 < |l| then k + 1 else 0);
    assert RingAt(mem, c, nodes, n, if k > 0 then k - 1 else |l| - 1);
  }

  /** do_check_free_chunk passes. */
  lemma FreePasses(s: State, dv: int, dvsize: int, top: int, topsize: int, p: int)
    requires Sound(s, dv, dvsize, top, topsize) && p in s.c && (s.c[p].st == Binned || s.c[p].st == Victim)
    ensures CheckFree(s.mem, dv, top, p)
    ensures NextChunk(s.mem, p) in s.c && InUse(s.c[NextChunk(s.mem, p)])
  {
    hide SmallOk, TreesOk, RecordsOk;
    ReadTags(s, dv, dvsize, top, topsize, p);
    NextTags(s, dv, dvsize, top, topsize, p);
    NotMmapped(s, dv, dvsize, top, topsize, p);
    var n := NextChunk(s.mem, p);
    ReadTags(s, dv, dvsize, top, topsize, n);
    assert PointerOk(s.c, dv, dvsize, top, p) && TagOk(s.mem, s.c, s.segs, p) && ShapeOk(s.c, s.segs, p);
    assert PrevOk(s.c, s.segs, n) && ShapeOk(s.c, s.segs, n);
    if p != dv {
      if IsSmall(s.c[p].size) { SmallLinked(s, p); } else { LargeLinked(s, p); }
    }
  }

  /** do_check_top_chunk passes. */
  lemma TopPasses(s: State, dv: int, dvsize: int, top: int, topsize: int)
    requires Sound(s, dv, dvsize, top, topsize) && |s.segs| > 0
    ensures var seg := s.segs[|s.segs| - 1]; CheckTop(s.mem, seg.base, seg.size, top, topsize)
    ensures top in s.c && s.c[top].st == Top && SizeAt(s.mem, top) == topsize
  {
    hide SmallOk, TreesOk, RecordsOk;
    TopWhere(s, dv, dvsize, top, topsize);
    ReadTags(s, dv, dvsize, top, topsize, top);
    NextTags(s, dv, dvsize, top, topsize, top);
    assert ShapeOk(s.c, s.segs, top);
  }

  // ---------- bin_find ----------

  /** Membership of the small bin of its size, as the list is read. */
  lemma SmallMember(s: State, p: int)
    requires Core(s, NOBODY) && p in s.c && IsSmall(s.c[p].size) && 0 <= s.c[p].size
    ensures |s.lists| == 32 && 0 <= s.smallmap && (p in s.lists[s.c[p].size / 8] <==> s.c[p].st == Binned)
    ensures Marked(s.smallmap, s.c[p].size / 8) <==> |s.lists[s.c[p].size / 8]| > 0
  {
    hide TreesOk, Tagged, RecordsOk, Tiled, Marked;
    var i := s.c[p].size / 8;
    assert BinOk(s.mem, s.lists, s.smallmap, i) && ListedOk(s, NOBODY, p);
    if p in s.lists[i] {
      var k :| 0 <= k < |s.lists[i]| && s.lists[i][k] == p;
      assert MemberOk(s.c, s.lists, i, k);
    }
    if s.c[p].st == Binned { NotNobody(s, p); }
  }

  lemma NotNobody(s: State, p: int)
    requires Core(s, NOBODY) && p in s.c
    ensures p != NOBODY
  {
    AboveLow(s.c, s.segs, p);
  }

  lemma ListStep(s: State, i: int, k: int)
    requires Core(s, NOBODY) && |s.lists| == 32 && 0 <= i < 32 && -1 <= k < |s.lists[i]| && |s.lists[i]| > 0
    ensures var l, b := s.lists[i], SmallBinAt(i);
            Rd(s.mem, (if k == -1 then b else l[k]) + FD) == if k + 1 < |l| then l[k + 1] else b
    ensures forall j :: 0 <= j < |s.lists[i]| ==> s.lists[i][j] >= LOW
  {
    hide TreesOk, Tagged, RecordsOk, Marked;
    assert BinOk(s.mem, s.lists, s.smallmap, i) && LinkOk(s.mem, s.lists[i], SmallBinAt(i), k);
    forall j | 0 <= j < |s.lists[i]|
      ensures s.lists[i][j] >= LOW
    {
      assert MemberOk(s.c, s.lists, i, j);
      AboveLow(s.c, s.segs, s.lists[i][j]);
    }
  }

  /** bin_find in a small bin. */
  method SmallFind(gm: MallocState, x: int) returns (found: bool)
    requires gm.Valid() && x in gm.chunks && 0 <= gm.chunks[x].size && IsSmall(gm.chunks[x].size)
    ensures found <==> gm.chunks[x].st == Binned
  {
    hide Core, PointersOk, Rd, Marked;
    ghost var s := gm.S();
    ReadTags(s, gm.dv, gm.dvsize, gm.top, gm.topsize, x);
    SmallMember(s, x);
    var i := SizeAt(gm.mem, x) / 8;
    var b := SmallBinAt(i);
    found := false;
    if Marked(gm.smallmap, i) {
      ghost var l := s.lists[i];
      ghost var k := -1;
      var p := b;
      while true
        invariant -1 <= k < |l| && p == (if k == -1 then b else l[k])
        invariant forall j :: 0 <= j < k ==> l[j] != x
        decreases |l| - k
      {
        ListStep(s, i, k);
        if p == x {
          assert k >= 0 && l[k] in l;
          return true;
        }
        p := Rd(gm.mem, p + FD);
        k := k + 1;
        if p == b {
          return false;
        }
      }
    }
  }

  /** Where a chunk of the tree bins is: in the ring of the one node of its size. */
  lemma LargeMember(s: State, p: int)
    requires Core(s, NOBODY) && p in s.c && !IsSmall(s.c[p].size) && 0 <= s.c[p].size
    ensures MIN_LARGE_SIZE <= s.c[p].size < U64
    ensures forall n :: n in s.nodes ==> n in s.c
    ensures s.c[p].st == Binned <==> exists n :: n in s.nodes && p in s.nodes[n].ring
    ensures forall n :: n in s.nodes && n in s.c && p in s.nodes[n].ring ==> s.c[n].size == s.c[p].size
  {
    hide SmallOk, Tagged, RecordsOk;
    assert ShapeOk(s.c, s.segs, p) && SegmentOk(s.segs, s.c[p].sid) && ListedOk(s, NOBODY, p);
    InsideSegment(s.c, s.segs, p);
    NotNobody(s, p);
    if s.c[p].st == Binned {
      var n, k := MemberIsNode(s.nodes, p);
    }
    forall n | n in s.nodes && n in s.c && p in s.nodes[n].ring
      ensures s.c[p].st == Binned && s.c[n].size == s.c[p].size
    {
      var k :| 0 <= k < |s.nodes[n].ring| && s.nodes[n].ring[k] == p;
      assert RingAt(s.mem, s.c, s.nodes, n, k);
    }
    forall n | n in s.nodes
      ensures n in s.c
    {
      assert NodeOk(s.c, s.nodes, n);
    }
  }

  /** One step of the search for a size: go on, or there is no node of that size. */
  lemma FindStep(mem: Mem, c: ChunkMap, nodes: Nodes, s: int, i: int, t: int, k: int)
    requires TrieOk(mem, c, nodes) && MIN_LARGE_SIZE <= s < U64 && 0 <= i < 32 && i == TreeIndex(s)
    requires SearchAt(c, nodes, s, i, t, k) && c[t].size != s
    ensures var d, x := nodes[t].depth, Child(mem, t, SignBit(k));
            && d <= TopBit(i)
            && (x != 0 ==> SearchAt(c, nodes, s, i, x, Double(k)) && nodes[x].depth == d + 1)
            && (x == 0 ==> forall n :: n in nodes && n in c ==> c[n].size != s)
  {
    hide Bit, Double, SignBit, Aligned;
    var d := nodes[t].depth;
    assert d <= TopBit(i);
    AlignedSignBit(k, s, i, d);
    PathChildren(mem, c, nodes, s, i, t);
    forall n | n in nodes && NodeOk(c, nodes, n) && nodes[n].bin == i && nodes[n].depth <= d
      ensures c[n].size != s
    {
      if nodes[n].depth == d && c[n].size == s { SamePosition(mem, c, nodes, n, t); }
    }
    if Child(mem, t, Bit(s, i, d)) == 0 {
      forall n | n in nodes && n in c
        ensures c[n].size != s
      {
        assert NodeOk(c, nodes, n);
        if c[n].size == s { AbsentBelow(mem, c, nodes, s, i, t, n); }
      }
    }
  }

  lemma FindStart(s: State, size: int, i: int)
    requires Core(s, NOBODY) && MIN_LARGE_SIZE <= size < U64 && 0 <= i < 32 && i == TreeIndex(size)
    ensures 0 <= s.treemap && (Marked(s.treemap, i) <==> Rd(s.mem, TreeBinAt(i)) != 0)
    ensures var t := Rd(s.mem, TreeBinAt(i));
            if t != 0 then SearchAt(s.c, s.nodes, size, i, t, Shl64(size, LeftShift(i)))
            else forall n :: n in s.nodes && n in s.c ==> s.c[n].size != size
  {
    hide SmallOk, Tagged, RecordsOk, Tiled, Marked, Pfx, TreeIndex;
    var t := Rd(s.mem, TreeBinAt(i));
    assert RootOk(s.mem, s.nodes, s.treemap, i);
    AlignedStart(size, i);
    if t != 0 {
      assert NodeOk(s.c, s.nodes, t);
      PfxRoot(size, s.c[t].size, i);
    } else {
      forall n | n in s.nodes && n in s.c
        ensures s.c[n].size != size
      {
        assert NodeOk(s.c, s.nodes, n);
        RootAbove(s.mem, s.c, s.nodes, n);
      }
    }
  }

  lemma RingStep(s: State, n: int, k: int)
    requires Core(s, NOBODY) && n in s.nodes && 0 <= k < |s.nodes[n].ring|
    ensures var l := s.nodes[n].ring; l[0] == n && Rd(s.mem, l[k] + FD) == if k + 1 < |l| then l[k + 1] else n
    ensures forall j :: 0 < j < |s.nodes[n].ring| ==> s.nodes[n].ring[j] != n
    ensures n in s.c && s.nodes[n].ring[k] in s.c && s.c[s.nodes[n].ring[k]].st == Binned && s.c[s.nodes[n].ring[k]].size == s.c[n].size
    ensures Rd(s.mem, s.nodes[n].ring[k] + INDEX) == s.nodes[n].bin && (k > 0 ==> Plain(s.mem, s.nodes[n].ring[k]))
  {
    hide SmallOk, Tagged, RecordsOk, Tiled;
    assert NodeOk(s.c, s.nodes, n) && RingHead(s.nodes, n) && RingAt(s.mem, s.c, s.nodes, n, k);
    forall j | 0 < j < |s.nodes[n].ring|
      ensures s.nodes[n].ring[j] != n
    {
      assert RingDistinct(s.nodes, n, 0, j);
    }
  }

  /** The loop of bin_find through the ring of a node. */
  method RingFind(gm: MallocState, t: int, x: int) returns (found: bool)
    requires gm.Valid() && t in gm.nodes
    ensures found <==> x in gm.nodes[t].ring
  {
    hide Core, PointersOk, Rd, Plain;
    ghost var s := gm.S();
    ghost var l := s.nodes[t].ring;
    NodeHeads(s, t);
    ghost var k := 0;
    var u := t;
    while true
      invariant 0 <= k < |l| && u == l[k]
      invariant forall j :: 0 <= j < k ==> l[j] != x
      decreases |l| - k
    {
      if u == x {
        return true;
      }
      RingStep(s, t, k);
      u := Rd(gm.mem, u + FD);
      k := k + 1;
      if u == t {
        return false;
      }
    }
  }

  lemma NodeHeads(s: State, n: int)
    requires Core(s, NOBODY) && n in s.nodes
    ensures |s.nodes[n].ring| > 0 && s.nodes[n].ring[0] == n
  {
    assert RingHead(s.nodes, n);
  }

  /** bin_find in a tree bin. */
  method LargeFind(gm: MallocState, x: int) returns (found: bool)
    requires gm.Valid() && x in gm.chunks && 0 <= gm.chunks[x].size && !IsSmall(gm.chunks[x].size)
    ensures found <==> gm.chunks[x].st == Binned
  {
    hide PointersOk, Rd, Marked, Tiled, Tagged, SmallOk, RecordsOk, TrieOk, RingsOk, RootsOk, Pfx, Bit, TreeIndex, Aligned, SignBit, Double, Shl64, Large;
    ghost var s := gm.S();
    ReadTags(s, gm.dv, gm.dvsize, gm.top, gm.topsize, x);
    LargeMember(s, x);
    var size := SizeAt(gm.mem, x);
    ComputeTreeIndexCorrect(size);
    TreeIndexRange(size);
    var i := ComputeTreeIndex(size);
    FindStart(s, size, i);
    found := false;
    if Marked(gm.treemap, i) {
      var t := Rd(gm.mem, TreeBinAt(i));
      var sizebits := Shl64(size, LeftShift(i));
      SizeOfNode(s, t);
      while t != 0 && SizeAt(gm.mem, t) != size
        invariant t != 0 ==> SearchAt(s.c, s.nodes, size, i, t, sizebits) && t in s.c && SizeAt(gm.mem, t) == s.c[t].size
        invariant t == 0 ==> forall n :: n in s.nodes && n in s.c ==> s.c[n].size != size
        decreases if t == 0 then 0 else 1 + TopBit(i) + 1 - s.nodes[t].depth
      {
        FindStep(s.mem, s.c, s.nodes, size, i, t, sizebits);
        t := Rd(gm.mem, t + CHILD + 8 * SignBit(sizebits));
        sizebits := Double(sizebits);
        if t != 0 { SizeOfNode(s, t); }
      }
      if t != 0 {
        OnlyNodeOfSize(s, t, x);
        found := RingFind(gm, t, x);
      }
    }
  }

  lemma TreeIndexRange(size: int)
    requires MIN_LARGE_SIZE <= size < U64
    ensures 0 <= TreeIndex(size) < 32
  {
    TreeIndexBounds(size);
  }

  /** Where the search has led is the node in whose ring x is, if it is in any. */
  lemma OnlyNodeOfSize(s: State, t: int, x: int)
    requires Core(s, NOBODY) && t in s.nodes && t in s.c && x in s.c && s.c[t].size == s.c[x].size
    requires forall n :: n in s.nodes && n in s.c && x in s.nodes[n].ring ==> s.c[n].size == s.c[x].size
    ensures (exists n :: n in s.nodes && x in s.nodes[n].ring) ==> x in s.nodes[t].ring
  {
    if n :| n in s.nodes && x in s.nodes[n].ring {
      assert NodeOk(s.c, s.nodes, n) && SizesDiffer(s.c, s.nodes, n, t);
    }
  }

  /** bin_find: it finds exactly the chunks that are in bins. */
  method BinFind(gm: MallocState, x: int) returns (found: bool)
    requires gm.Valid() && x in gm.chunks
    ensures found <==> gm.chunks[x].st == Binned
  {
    hide Core, PointersOk;
    ReadTags(gm.S(), gm.dv, gm.dvsize, gm.top, gm.topsize, x);
    SizeNotNegative(gm.S(), x);
    if IsSmall(SizeAt(gm.mem, x)) {
      found := SmallFind(gm, x);
    } else {
      found := LargeFind(gm, x);
    }
  }

  lemma SizeNotNegative(s: State, p: int)
    requires Core(s, NOBODY) && p in s.c
    ensures s.c[p].size > 0
  {
    assert ShapeOk(s.c, s.segs, p);
  }

  // ---------- do_check_smallbin ----------

  /** do_check_smallbin passes. */
  method CheckSmallBin(gm: MallocState, i: int) returns (ok: bool)
    requires gm.Valid() && 0 <= i < 32
    ensures ok
  {
    hide Core, PointersOk, Rd, Marked, CheckFree, CheckInUse;
    ghost var s := gm.S();
    var b := SmallBinAt(i);
    SmallBinFacts(s, i);
    var p := Rd(gm.mem, b + BK);
    var empty := !Marked(gm.smallmap, i);
    ok := true;
    if !empty {
      ghost var l := s.lists[i];
      ghost var k := |l| - 1;
      while p != b
        invariant -1 <= k < |l| && p == (if k == -1 then b else l[k]) && ok
        decreases k
      {
        BackStep(s, i, k);
        FreePasses(s, gm.dv, gm.dvsize, gm.top, gm.topsize, p);
        ReadTags(s, gm.dv, gm.dvsize, gm.top, gm.topsize, p);
        var back := Rd(gm.mem, p + BK);
        if k > 0 { ReadTags(s, gm.dv, gm.dvsize, gm.top, gm.topsize, back); }
        var next := NextChunk(gm.mem, p);
        InUsePasses(s, gm.dv, gm.dvsize, gm.top, gm.topsize, next);
        ok := ok && CheckFree(gm.mem, gm.dv, gm.top, p) && SizeAt(gm.mem, p) / 8 == i
              && (back == b || SizeAt(gm.mem, back) == SizeAt(gm.mem, p))
              && (Rd(gm.mem, next + HEAD) == FENCEPOST_HEAD || CheckInUse(gm.mem, next));
        p := back;
        k := k - 1;
      }
    }
  }

  lemma SmallBinFacts(s: State, i: int)
    requires Core(s, NOBODY) && 0 <= i < 32
    ensures |s.lists| == 32 && 0 <= s.smallmap && (Marked(s.smallmap, i) <==> |s.lists[i]| > 0)
    ensures |s.lists[i]| > 0 ==> Rd(s.mem, SmallBinAt(i) + BK) == s.lists[i][|s.lists[i]| - 1]
  {
    hide TreesOk, Tagged, RecordsOk, Tiled, Marked;
    assert BinOk(s.mem, s.lists, s.smallmap, i);
  }

  lemma BackStep(s: State, i: int, k: int)
    requires Core(s, NOBODY) && |s.lists| == 32 && 0 <= i < 32 && 0 <= k < |s.lists[i]|
    ensures var l, b := s.lists[i], SmallBinAt(i);
            && Rd(s.mem, l[k] + BK) == (if k > 0 then l[k - 1] else b)
            && l[k] in s.c && s.c[l[k]].st == Binned && s.c[l[k]].size == 8 * i
            && (k > 0 ==> l[k - 1] in s.c && s.c[l[k - 1]].size == 8 * i)
  {
    hide TreesOk, Tagged, RecordsOk, Marked, Tiled;
    assert BinOk(s.mem, s.lists, s.smallmap, i) && LinkOk(s.mem, s.lists[i], SmallBinAt(i), k);
    assert MemberOk(s.c, s.lists, i, k) && MemberOk(s.c, s.lists, i, k - 1);
  }

  // ---------- do_check_treebin ----------

  /** The assertions on the size and index of a node. */
  predicate CheckIndex(mem: Mem, t: int) {
    var size := SizeAt(mem, t);
    && MIN_LARGE_SIZE <= size < U64
    && var idx := ComputeTreeIndex(size);
       Rd(mem, t + INDEX) == idx && 0 <= idx < 32 && size >= MinSizeForTreeIndex(idx) && (idx == 31 || size < MinSizeForTreeIndex(idx + 1))
  }

  /** The assertions on any member u of the ring of t. */
  predicate CheckMember(mem: Mem, t: int, u: int) {
    && CheckAny(mem, u) && Rd(mem, u + INDEX) == Rd(mem, t + INDEX) && SizeAt(mem, u) == SizeAt(mem, t)
    && !CInUse(Rd(mem, u + HEAD)) && !NextPInUse(mem, u)
    && Rd(mem, Rd(mem, u + FD) + BK) == u && Rd(mem, Rd(mem, u + BK) + FD) == u
    && (Rd(mem, u + PARENT) == 0 ==> Child(mem, u, 0) == 0 && Child(mem, u, 1) == 0)
  }

  /** The assertions on the links of the member that is in the tree. */
  predicate CheckLinks(mem: Mem, u: int) {
    var up, c0, c1 := Rd(mem, u + PARENT), Child(mem, u, 0), Child(mem, u, 1);
    && up != u && (Child(mem, up, 0) == u || Child(mem, up, 1) == u || Rd(mem, up) == u)
    && (c0 != 0 ==> Rd(mem, c0 + PARENT) == u && c0 != u)
    && (c1 != 0 ==> Rd(mem, c1 + PARENT) == u && c1 != u)
    && (c0 != 0 && c1 != 0 ==> SizeAt(mem, c0) < SizeAt(mem, c1))
  }

  lemma IndexPasses(s: State, n: int)
    requires Core(s, NOBODY) && n in s.nodes
    ensures CheckIndex(s.mem, n) && 0 <= s.nodes[n].bin < 32
  {
    hide SmallOk, Tagged, RecordsOk, Tiled, MinSizeForTreeIndex;
    SizeOfNode(s, n);
    NodeHeads(s, n);
    RingStep(s, n, 0);
    assert NodeOk(s.c, s.nodes, n);
    ComputeTreeIndexCorrect(s.c[n].size);
    TreeIndexBounds(s.c[n].size);
  }

  lemma MemberPasses(s: State, dv: int, dvsize: int, top: int, topsize: int, n: int, k: int)
    requires Sound(s, dv, dvsize, top, topsize) && n in s.nodes && 0 <= k < |s.nodes[n].ring|
    ensures CheckMember(s.mem, n, s.nodes[n].ring[k])
  {
    hide SmallOk, Tagged, RecordsOk, Tiled, PointersOk, TrieOk, RootsOk;
    var u := s.nodes[n].ring[k];
    RingStep(s, n, k);
    RingStep(s, n, 0);
    SizeOfNode(s, n);
    ReadTags(s, dv, dvsize, top, topsize, u);
    NextTags(s, dv, dvsize, top, topsize, u);
    RingLinked(s.mem, s.c, s.nodes, n, k);
    if k == 0 { ParentThere(s, n); }
  }

  lemma ParentThere(s: State, n: int)
    requires Core(s, NOBODY) && n in s.nodes
    ensures Rd(s.mem, n + PARENT) != 0 && Rd(s.mem, n + PARENT) != n
    ensures var up := Rd(s.mem, n + PARENT); Child(s.mem, up, 0) == n || Child(s.mem, up, 1) == n || Rd(s.mem, up) == n
  {
    hide SmallOk, Tagged, RecordsOk, Tiled, Pfx, Bit, RingsOk, RootsOk;
    assert NodeOk(s.c, s.nodes, n) && UpOk(s.mem, s.c, s.nodes, n);
    SlotWhere(s.mem, s.c, s.nodes, n);
  }

  lemma LinksPass(s: State, n: int)
    requires Core(s, NOBODY) && n in s.nodes
    ensures CheckLinks(s.mem, n)
    ensures forall b {:trigger Child(s.mem, n, b)} :: 0 <= b <= 1 && Child(s.mem, n, b) != 0 ==>
              var x := Child(s.mem, n, b); x in s.nodes && s.nodes[x].depth == s.nodes[n].depth + 1 && s.nodes[x].bin == s.nodes[n].bin
    ensures 0 <= s.nodes[n].bin < 32 && s.nodes[n].depth <= TopBit(s.nodes[n].bin) + 1
  {
    hide SmallOk, Tagged, RecordsOk, Tiled, Pfx, Bit, RingsOk, RootsOk;
    ParentThere(s, n);
    assert NodeOk(s.c, s.nodes, n);
    assert DownOk(s.mem, s.c, s.nodes, n, 0) && DownOk(s.mem, s.c, s.nodes, n, 1);
    var c0, c1 := Child(s.mem, n, 0), Child(s.mem, n, 1);
    if c0 != 0 { SizeOfNode(s, c0); }
    if c1 != 0 { SizeOfNode(s, c1); }
    if c0 != 0 && c1 != 0 {
      ChildPrefix(s.mem, s.c, s.nodes, n, 0);
      ChildPrefix(s.mem, s.c, s.nodes, n, 1);
      SmallerPrefix(s.c[c0].size, s.c[c1].size, s.nodes[n].bin, s.nodes[n].depth + 1);
    }
  }

  /** do_check_tree passes on every subtree. */
  method CheckTree(gm: MallocState, t: int) returns (ok: bool)
    requires gm.Valid() && t in gm.nodes && 0 <= gm.nodes[t].bin < 32 && gm.nodes[t].depth <= TopBit(gm.nodes[t].bin) + 1
    ensures ok
    decreases TopBit(gm.nodes[t].bin) + 1 - gm.nodes[t].depth
  {
    hide Core, PointersOk, Rd, CheckIndex, CheckMember, CheckLinks, ImagesOk;
    ghost var s := gm.S();
    ghost var l := s.nodes[t].ring;
    IndexPasses(s, t);
    NodeHeads(s, t);
    ok := CheckIndex(gm.mem, t);
    var head := 0;
    var u := t;
    ghost var k := 0;
    while true
      invariant 0 <= k < |l| && u == l[k] && ok && (k == 0 <==> head == 0)
      decreases |l| - k
    {
      MemberPasses(s, gm.dv, gm.dvsize, gm.top, gm.topsize, t, k);
      RingStep(s, t, k);
      ok := ok && CheckMember(gm.mem, t, u);
      if Rd(gm.mem, u + PARENT) != 0 {
        assert k == 0;
        SizeOfNode(s, t);
        LinksPass(s, t);
        ok := ok && head == 0 && CheckLinks(gm.mem, u);
        head := u;
        var c0, c1 := Child(gm.mem, u, 0), Child(gm.mem, u, 1);
        if c0 != 0 {
          LinksPass(s, c0);
          var ok0 := CheckTree(gm, c0);
          ok := ok && ok0;
        }
        if c1 != 0 {
          LinksPass(s, c1);
          var ok1 := CheckTree(gm, c1);
          ok := ok && ok1;
        }
      } else if k == 0 {
        ParentThere(s, t);
        assert false;
      }
      u := Rd(gm.mem, u + FD);
      k := k + 1;
      if u == t {
        break;
      }
    }
    ok := ok && head != 0;
  }

  /** do_check_treebin passes. */
  method CheckTreeBin(gm: MallocState, i: int) returns (ok: bool)
    requires gm.Valid() && 0 <= i < 32
    ensures ok
  {
    hide Core, PointersOk, Rd, Marked;
    TreeBinFacts(gm.S(), i);
    var t := Rd(gm.mem, TreeBinAt(i));
    var empty := !Marked(gm.treemap, i);
    ok := t != 0 || empty;
    if !empty {
      var okTree := CheckTree(gm, t);
      ok := ok && okTree;
    }
  }

  lemma TreeBinFacts(s: State, i: int)
    requires Core(s, NOBODY) && 0 <= i < 32
    ensures 0 <= s.treemap
    ensures var r := Rd(s.mem, TreeBinAt(i)); (Marked(s.treemap, i) <==> r != 0) && (r != 0 ==> r in s.nodes && s.nodes[r].bin == i && s.nodes[r].depth == 0)
  {
    assert RootOk(s.mem, s.nodes, s.treemap, i);
  }

  // ---------- traverse_and_check ----------

  /** Chunk q has been reached after lastq, in segment i; or the fenceposts have. */
  ghost predicate Reached(s: State, i: int, q: int, lastq: int) {
    && 0 <= i < |s.segs| && s.segs[i].base <= q < s.segs[i].End()
    && if q in s.c then s.c[q].sid == i && (if lastq == 0 then s.c[q].prev == NONE else lastq in s.c && s.c[q].prev == lastq)
       else i < |s.segs| - 1 && Rd(s.mem, q + HEAD) == FENCEPOST_HEAD
  }

  lemma ReachedFirst(s: State, i: int)
    requires Core(s, NOBODY) && 0 <= i < |s.segs|
    ensures Reached(s, i, s.segs[i].base, 0) && s.segs[i].base in s.c && s.c[s.segs[i].base].pin
    ensures (s.segs[i].base + 16) % 8 == 0 && TOP_FOOT_SIZE < s.segs[i].size
  {
    hide SmallOk, TreesOk, RecordsOk, Tagged;
    assert EndsOk(s.c, s.segs, i) && SegmentOk(s.segs, i) && PrevOk(s.c, s.segs, s.segs[i].base);
  }

  lemma ReachedNext(s: State, dv: int, dvsize: int, top: int, topsize: int, i: int, q: int, lastq: int)
    requires Sound(s, dv, dvsize, top, topsize) && Reached(s, i, q, lastq) && q in s.c && q != top
    ensures Reached(s, i, NextChunk(s.mem, q), q) && NextChunk(s.mem, q) > q == NextChunk(s.mem, q) - SizeAt(s.mem, q)
    ensures lastq != 0 && !InUse(s.c[q]) ==> CInUse(Rd(s.mem, lastq + HEAD))
  {
    hide SmallOk, TreesOk, RecordsOk, Tagged;
    ReadTags(s, dv, dvsize, top, topsize, q);
    NextTags(s, dv, dvsize, top, topsize, q);
    assert PointerOk(s.c, dv, dvsize, top, q) && ShapeOk(s.c, s.segs, q) && PrevOk(s.c, s.segs, q);
    if lastq != 0 { ReadTags(s, dv, dvsize, top, topsize, lastq); }
    var n := NextChunk(s.mem, q);
    if s.c[q].st == Record {
      FencepostsFree(s, q);
    } else {
      assert NextOk(s.c, q) && ShapeOk(s.c, s.segs, n);
      InsideSegment(s.c, s.segs, n);
    }
  }

  lemma FencepostsFree(s: State, q: int)
    requires Core(s, NOBODY) && q in s.c && s.c[q].st == Record
    ensures q + SEGMENT_SIZE !in s.c && 0 <= s.c[q].sid < |s.segs| - 1 && q + 72 <= s.segs[s.c[q].sid].End()
  {
    assert ShapeOk(s.c, s.segs, q) && ChunksApart(s.c, s.segs, q, q + SEGMENT_SIZE);
  }

  /** A walk through the top segment meets no fencepost. */
  lemma TopSegmentChunks(s: State, dv: int, dvsize: int, top: int, topsize: int, i: int, q: int, lastq: int)
    requires Sound(s, dv, dvsize, top, topsize) && Reached(s, i, q, lastq)
    ensures q in s.c <==> Rd(s.mem, q + HEAD) != FENCEPOST_HEAD
    ensures i == |s.segs| - 1 ==> q in s.c
    ensures q == top ==> i == |s.segs| - 1
  {
    hide SmallOk, TreesOk, RecordsOk, Tagged;
    if q in s.c { ReadTags(s, dv, dvsize, top, topsize, q); }
    TopWhere(s, dv, dvsize, top, topsize);
  }

  /** The inner loop of traverse_and_check: one segment. */
  method CheckSegment(gm: MallocState, base: int, size: int, ghost i: int) returns (ok: bool, sum: int)
    requires gm.Valid() && 0 <= i < |gm.segs| && base == gm.segs[i].base && size == gm.segs[i].size
    ensures ok
    ensures if i == |gm.segs| - 1 then sum + gm.topsize + TOP_FOOT_SIZE == size else sum < size
  {
    hide Core, PointersOk, Rd, CheckFree, CheckInUse, Reached, ImagesOk;
    ghost var s := gm.S();
    ReachedFirst(s, i);
    ReadTags(s, gm.dv, gm.dvsize, gm.top, gm.topsize, base);
    TopWhere(s, gm.dv, gm.dvsize, gm.top, gm.topsize);
    var q := base;
    var lastq := 0;
    sum := 0;
    ok := PInUse(Rd(gm.mem, q + HEAD));
    assert base <= q < base + size;
    while base <= q < base + size && q != gm.top && Rd(gm.mem, q + HEAD) != FENCEPOST_HEAD
      invariant Reached(s, i, q, lastq) && base <= q < base + size && ok && sum == q - base
      decreases base + size - q
    {
      TopSegmentChunks(s, gm.dv, gm.dvsize, gm.top, gm.topsize, i, q, lastq);
      ReadTags(s, gm.dv, gm.dvsize, gm.top, gm.topsize, q);
      assert PointerOk(s.c, gm.dv, gm.dvsize, gm.top, q) by { PointerAt(s, gm.dv, gm.dvsize, gm.top, gm.topsize, q); }
      ReachedNext(s, gm.dv, gm.dvsize, gm.top, gm.topsize, i, q, lastq);
      ReachedWhere(s, i, NextChunk(gm.mem, q), q);
      sum := sum + SizeAt(gm.mem, q);
      var binned := BinFind(gm, q);
      if CInUse(Rd(gm.mem, q + HEAD)) {
        InUsePasses(s, gm.dv, gm.dvsize, gm.top, gm.topsize, q);
        ok := ok && !binned && CheckInUse(gm.mem, q);
      } else {
        FreePasses(s, gm.dv, gm.dvsize, gm.top, gm.topsize, q);
        ok := ok && (q == gm.dv || binned) && (lastq == 0 || CInUse(Rd(gm.mem, lastq + HEAD))) && CheckFree(gm.mem, gm.dv, gm.top, q);
      }
      lastq := q;
      q := NextChunk(gm.mem, q);
    }
    TopSegmentChunks(s, gm.dv, gm.dvsize, gm.top, gm.topsize, i, q, lastq);
  }

  lemma PointerAt(s: State, dv: int, dvsize: int, top: int, topsize: int, q: int)
    requires PointersOk(s, dv, dvsize, top, topsize)
    ensures PointerOk(s.c, dv, dvsize, top, q)
  {
  }

  lemma ReachedWhere(s: State, i: int, q: int, lastq: int)
    requires Reached(s, i, q, lastq)
    ensures 0 <= i < |s.segs| && s.segs[i].base <= q < s.segs[i].End()
  {
  }

  /** The bytes mapped from segment i on. */
  function Mapped(segs: seq<Segment>, i: nat): int
    requires i <= |segs|
    decreases |segs| - i
  {
    if i == |segs| then 0 else segs[i].size + Mapped(segs, i + 1)
  }

  lemma Initialized(s: State, dv: int, dvsize: int, top: int, topsize: int)
    requires Sound(s, dv, dvsize, top, topsize)
    ensures top != 0 <==> |s.segs| > 0
  {
    if |s.segs| > 0 { TopWhere(s, dv, dvsize, top, topsize); }
  }

  /** traverse_and_check passes, and its total is no more than what has been mapped. */
  method TraverseAndCheck(gm: MallocState) returns (ok: bool, sum: int)
    requires gm.Valid()
    ensures ok && sum <= Mapped(gm.segs, 0)
  {
    hide Core, PointersOk, Rd, ImagesOk;
    ghost var s := gm.S();
    ok, sum := true, 0;
    Initialized(s, gm.dv, gm.dvsize, gm.top, gm.topsize);
    if gm.top != 0 {
      ListHead(s);
      sum := gm.topsize + TOP_FOOT_SIZE;
      var sp := SEG_HEAD;
      ghost var i := |gm.segs| - 1;
      while sp != 0
        invariant -1 <= i < |gm.segs| && sp == RecordAddress(gm.segs, i) && ok
        invariant if i == |gm.segs| - 1 then sum == gm.topsize + TOP_FOOT_SIZE else sum <= Mapped(gm.segs, i + 1)
        decreases i
      {
        ReadRecord(s, i);
        var okSegment, part := CheckSegment(gm, Rd(gm.mem, sp), Rd(gm.mem, sp + 8), i);
        ok := ok && okSegment;
        sum := sum + part;
        sp := Rd(gm.mem, sp + 16);
        i := i - 1;
      }
      AllWalked(s, i);
    }
  }

  lemma AllWalked(s: State, i: int)
    requires Core(s, NOBODY) && -1 <= i < |s.segs| && RecordAddress(s.segs, i) == 0
    ensures i == -1
  {
    if i >= 0 { ReadRecord(s, i); }
  }

  // ---------- do_check_malloc_state ----------

  /** do_check_malloc_state: every debug check of the source passes on every valid heap. */
  method CheckMallocState(gm: MallocState) returns (ok: bool, total: int)
    requires gm.Valid()
    ensures ok && total <= Mapped(gm.segs, 0)
  {
    hide Core, PointersOk, Rd, ImagesOk, CheckTop;
    ghost var s := gm.S();
    ok := true;
    for i := 0 to 32
      invariant ok
    {
      var okBin := CheckSmallBin(gm, i);
      ok := ok && okBin;
    }
    for i := 0 to 32
      invariant ok
    {
      var okBin := CheckTreeBin(gm, i);
      ok := ok && okBin;
    }
    if gm.dvsize != 0 {
      VictimWhere(s, gm.dv, gm.dvsize, gm.top, gm.topsize);
      var found := BinFind(gm, gm.dv);
      ok := ok && CheckAny(gm.mem, gm.dv) && gm.dvsize == SizeAt(gm.mem, gm.dv) && gm.dvsize >= MIN_CHUNK_SIZE && !found;
    }
    Initialized(s, gm.dv, gm.dvsize, gm.top, gm.topsize);
    if gm.top != 0 {
      TopPasses(s, gm.dv, gm.dvsize, gm.top, gm.topsize);
      ghost var k;
      var sp;
      sp, k := gm.SegmentHolding(gm.top);
      TopHome(s, gm.dv, gm.dvsize, gm.top, gm.topsize, sp, k);
      var found := BinFind(gm, gm.top);
      ok := ok && sp != 0 && CheckTop(gm.mem, Rd(gm.mem, sp), Rd(gm.mem, sp + 8), gm.top, gm.topsize)
            && gm.topsize == SizeAt(gm.mem, gm.top) && gm.topsize > 0 && !found;
    }
    var okWalk;
    okWalk, total := TraverseAndCheck(gm);
    ok := ok && okWalk;
  }

  lemma VictimWhere(s: State, dv: int, dvsize: int, top: int, topsize: int)
    requires Sound(s, dv, dvsize, top, topsize) && dvsize != 0
    ensures dv in s.c && s.c[dv].st == Victim && SizeAt(s.mem, dv) == dvsize >= MIN_CHUNK_SIZE && CheckAny(s.mem, dv)
  {
    hide SmallOk, TreesOk, RecordsOk, Tagged;
    assert PointerOk(s.c, dv, dvsize, top, dv);
    ReadTags(s, dv, dvsize, top, topsize, dv);
    assert ShapeOk(s.c, s.segs, dv);
  }

  /** segment_holding finds the last segment for the top chunk. */
  lemma TopHome(s: State, dv: int, dvsize: int, top: int, topsize: int, sp: int, k: int)
    requires Sound(s, dv, dvsize, top, topsize) && |s.segs| > 0
    requires sp == 0 ==> forall i :: 0 <= i < |s.segs| ==> !(s.segs[i].base <= top < s.segs[i].End())
    requires sp != 0 ==> 0 <= k < |s.segs| && sp == s.segs[k].rec && s.segs[k].base <= top < s.segs[k].End()
    ensures sp != 0 && var g := s.segs[|s.segs| - 1]; Rd(s.mem, sp) == g.base && Rd(s.mem, sp + 8) == g.size && topsize > 0
  {
    hide SmallOk, TreesOk, Tagged;
    var last := |s.segs| - 1;
    TopWhere(s, dv, dvsize, top, topsize);
    assert s.segs[last].base <= top < s.segs[last].End();
    if sp != 0 {
      assert SegmentsApart(s.segs, k, last);
      ReadRecord(s, k);
    }
  }
}
