/** The allocator: malloc_state with its operations, each proved to keep the invariant and to
    treat the client's blocks as promised. */
module Heap {
  import opened Words
  import opened Bits
  import opened BinMaps
  import opened Chunks
  import opened SmallBins
  import opened TreeBins
  import opened TreeOps
  import opened TreeSearch
  import opened HeapOps
  import opened Mapping
  import opened HeapState
  import opened TreeMoves
  import opened HeapSteps
  import opened BestFit
  import opened Carving
  import opened Releasing
  import opened Growing
  import opened ClientWrites

  class MallocState {
    var mem: Mem
    var smallmap: int
    var treemap: int
    var dvsize: int
    var topsize: int
    var dv: int
    var top: int
    // The view of memory that the invariant is about.
    ghost var chunks: ChunkMap
    ghost var segs: seq<Segment>
    ghost var lists: Lists
    ghost var nodes: Nodes
    // The mappings that the system has made so far.
    ghost var images: seq<Image>

    ghost function S(): State
      reads this
    {
      State(mem, smallmap, treemap, chunks, segs, lists, nodes)
    }

    ghost function P(): Pointers
      reads this
    {
      Pointers(dv, dvsize, top, topsize)
    }

    ghost predicate Valid()
      reads this
    {
      Sound() && ImagesOk(images, segs)
    }

    /** The invariant, but for the executable images. */
    ghost predicate Sound()
      reads this
    {
      Core(S(), NOBODY) && PointersOk(S(), dv, dvsize, top, topsize)
    }

    /** The allocator before its first use: the static data is all zero. */
    constructor (initial: Mem)
      requires forall a {:trigger Rd(initial, a)} :: a < LOW ==> Rd(initial, a) == 0
      ensures Valid() && images == [] && segs == [] && chunks == map[] && mem == initial
    {
      mem := initial;
      smallmap, treemap, dvsize, topsize, dv, top := 0, 0, 0, 0, 0, 0;
      chunks, segs, lists, nodes, images := map[], [], seq(32, _ => []), map[], [];
      new;
      EmptyHeap(S());
    }

    // ---------- the client ----------

    /** A client writes a word of its block. */
    method Store(a: int, v: int, ghost p: int)
      requires Valid() && IsLive(chunks, p) && PayloadWord(chunks, p, a) && a % 8 == 0
      modifies this`mem
      ensures Valid() && mem == Wr(old(mem), a, v)
      ensures Undisturbed(old(S()), S(), p) && IsLive(chunks, p)
    {
      hide Core, PointersOk, ImagesOk, Undisturbed, Rd, Wr;
      ghost var s0 := S();
      mem := Wr(mem, a, v);
      StoreCore(s0, mem, p, a);
      StorePointers(s0, mem, p, a, dv, dvsize, top, topsize);
    }

    // ---------- small bins ----------

    /** insert_small_chunk */
    method InsertSmallChunk(p: int, s: int)
      requires Core(S(), p) && p in chunks && chunks[p].st == Binned && chunks[p].size == s && 0 <= s && IsSmall(s)
      modifies this`mem, this`smallmap, this`lists
      ensures Core(S(), NOBODY) && OnlyBinWords(chunks, old(mem), mem)
      ensures lists == old(lists)[s / 8 := [p] + old(lists)[s / 8]]
    {
      hide Tagged, RecordsOk, TreesOk, Tiled, Rd, Wr;
      ghost var s0 := S();
      InsertSmallCore(S(), p);
      var i := s / 8;
      var b := SmallBinAt(i);
      var f := b;
      if !Marked(smallmap, i) {
        smallmap := Mark(smallmap, i);
      } else {
        f := Rd(mem, b + FD);
      }
      mem := Wr(mem, b + FD, p);
      mem := Wr(mem, f + BK, p);
      mem := Wr(mem, p + FD, f);
      mem := Wr(mem, p + BK, b);
      lists := lists[i := [p] + lists[i]];
      assert S() == SmallInserted(s0, p);
    }

    /** unlink_small_chunk */
    method UnlinkSmallChunk(p: int, s: int)
      requires Core(S(), NOBODY) && p in chunks && chunks[p].st == Binned && chunks[p].size == s && IsSmall(s)
      modifies this`mem, this`smallmap, this`lists
      ensures Core(S(), p) && OnlyBinWords(chunks, old(mem), mem)
      ensures exists k {:trigger IsMember(old(lists), s / 8, k)} :: IsMember(old(lists), s / 8, k) && old(lists)[s / 8][k] == p
                && lists == old(lists)[s / 8 := RemoveAt(old(lists)[s / 8], k)]
    {
      hide Tagged, RecordsOk, TreesOk, Tiled, SmallOk, Rd, Wr;
      assert ListedOk(S(), NOBODY, p);
      assert |lists| == 32 by { SmallHas32(S()); }
      ghost var k := IndexInList(S(), p);
      UnlinkSmallCore(S(), s / 8, k);
      ghost var s0 := S();
      var f := Rd(mem, p + FD);
      var b := Rd(mem, p + BK);
      var i := s / 8;
      if f == b {
        smallmap := Clear(smallmap, i);
      } else {
        mem := Wr(mem, f + BK, b);
        mem := Wr(mem, b + FD, f);
      }
      lists := lists[i := RemoveAt(lists[i], k)];
      assert S() == s0.(mem := UnlinkLinks(s0.mem, f, b), smallmap := if f == b then Clear(s0.smallmap, i) else s0.smallmap,
                        lists := s0.lists[i := RemoveAt(s0.lists[i], k)]);
    }

    /** unlink_first_small_chunk: p is the first chunk of bin i, whose header is b. */
    method UnlinkFirstSmallChunk(b: int, p: int, i: int)
      requires Core(S(), NOBODY) && 0 <= i < 32 && Marked(smallmap, i) && b == SmallBinAt(i) && p == Rd(mem, b + FD)
      modifies this`mem, this`smallmap, this`lists
      ensures Core(S(), p) && OnlyBinWords(chunks, old(mem), mem)
      ensures p in chunks && chunks[p].st == Binned && chunks[p].size == 8 * i
      ensures |old(lists)| == 32 && IsMember(old(lists), i, 0) && p == old(lists)[i][0]
      ensures lists == old(lists)[i := RemoveAt(old(lists)[i], 0)]
    {
      hide Tagged, RecordsOk, TreesOk, Tiled, Rd, Wr;
      assert BinOk(mem, lists, smallmap, i) && LinkOk(mem, lists[i], b, 0) && MemberOk(chunks, lists, i, 0);
      UnlinkSmallCore(S(), i, 0);
      ghost var s0 := S();
      var f := Rd(mem, p + FD);
      if b == f {
        smallmap := Clear(smallmap, i);
      } else {
        mem := Wr(mem, f + BK, b);
        mem := Wr(mem, b + FD, f);
      }
      lists := lists[i := RemoveAt(lists[i], 0)];
      assert S() == s0.(mem := UnlinkLinks(s0.mem, f, b), smallmap := if f == b then Clear(s0.smallmap, i) else s0.smallmap,
                        lists := s0.lists[i := RemoveAt(s0.lists[i], 0)]);
    }

    // ---------- tree bins ----------

    /** insert_large_chunk */
    method InsertLargeChunk(x: int, s: int)
      requires Core(S(), x) && x in chunks && chunks[x].st == Binned && chunks[x].size == s && !IsSmall(s)
      modifies this`mem, this`treemap, this`nodes
      ensures Core(S(), NOBODY) && OnlyBinWords(chunks, old(mem), mem)
      ensures Gained(old(nodes), nodes, x)
    {
      hide Tagged, RecordsOk, SmallOk, Rd, Wr, ComputeTreeIndex, TreeIndex, Pfx, Bit, Marked, Mark, SignBit, Double;
      ghost var s0 := S();
      LargeNow(s0, x);
      ComputeTreeIndexCorrect(s);
      TreeIndexTop(s);
      var i := ComputeTreeIndex(s);
      var h := TreeBinAt(i);
      mem := Wr(mem, x + INDEX, i);
      mem := Wr(mem, x + CHILD, 0);
      mem := Wr(mem, x + CHILD + 8, 0);
      ghost var m1 := mem;
      FreshWords(s0.mem, m1, chunks, segs, nodes, treemap, x);
      assert RootOk(m1, nodes, treemap, i);
      if !Marked(treemap, i) {
        treemap := Mark(treemap, i);
        mem := Wr(mem, h, x);
        mem := Wr(mem, x + PARENT, h);
        mem := Wr(mem, x + FD, x);
        mem := Wr(mem, x + BK, x);
        nodes := nodes[x := Node(i, 0, [x])];
        InsertedRoot(s0, m1, S(), x, i);
      } else {
        InsertBelow(x, s, i, s0);
      }
    }

    /** The walk of insert_large_chunk down the trie of a non-empty bin. */
    method InsertBelow(x: int, s: int, i: int, ghost s0: State)
      requires Prepared(s0, mem, x, i) && S() == s0.(mem := mem) && Marked(treemap, i) && chunks[x].size == s
      modifies this`mem, this`nodes
      ensures Core(S(), NOBODY) && OnlyBinWords(chunks, s0.mem, mem)
      ensures Gained(s0.nodes, nodes, x)
    {
      hide Tagged, RecordsOk, SmallOk, Rd, Wr, TreeIndex, Pfx, Bit, Marked, SignBit, Double, CanAttach, OnlyBinWords, Gained;
      ghost var m1 := mem;
      assert RootOk(m1, nodes, treemap, i);
      var t := Rd(mem, TreeBinAt(i));
      var k := Shl64(s, LeftShift(i));
      StartSearch(m1, chunks, nodes, s, i, t, k, treemap);
      NotANode(s0, x);
      while true
        invariant mem == m1 && nodes == s0.nodes
        invariant SearchAt(chunks, nodes, s, i, t, k)
        decreases TopBit(i) + 1 - nodes[t].depth
      {
        ReadSize(s0, m1, x, t);
        if ChunkSize(Rd(mem, t + HEAD)) != s {
          SearchStep(m1, chunks, nodes, s, i, t, k, x);
          var c := t + CHILD + 8 * SignBit(k);
          k := Double(k);
          if Rd(mem, c) != 0 {
            t := Rd(mem, c);
          } else {
            mem := Wr(mem, c, x);
            mem := Wr(mem, x + PARENT, t);
            mem := Wr(mem, x + FD, x);
            mem := Wr(mem, x + BK, x);
            nodes := nodes[x := Node(nodes[t].bin, nodes[t].depth + 1, [x])];
            InsertedLeaf(s0, m1, S(), x, t);
            return;
          }
        } else {
          var f := Rd(mem, t + FD);
          mem := Wr(mem, t + FD, x);
          mem := Wr(mem, f + BK, x);
          mem := Wr(mem, x + FD, f);
          mem := Wr(mem, x + BK, t);
          mem := Wr(mem, x + PARENT, 0);
          nodes := nodes[t := nodes[t].(ring := Behind(nodes[t].ring, x))];
          InsertedRing(s0, m1, S(), x, t);
          return;
        }
      }
    }

    /** The part of unlink_large_chunk that finds a replacement for a node without a ring:
        the rightmost leaf below x, which is detached; 0 if x is a leaf itself. */
    method DetachBelow(x: int) returns (r: int)
      requires TrieOk(mem, chunks, nodes) && x in nodes && NodeOk(chunks, nodes, x)
      modifies this`mem
      ensures r == 0 ==> IsLeaf(mem, nodes, x) && mem == old(mem)
      ensures r != 0 ==> Below(chunks, nodes, x, r) && IsLeaf(old(mem), nodes, r)
      ensures r != 0 ==> mem == Wr(old(mem), Slot(old(mem), chunks, nodes, r), 0)
    {
      hide Rd, Wr, UpOk, DownOk, SizesDiffer, Slot, Bit, Pfx, TrieOk;
      var rp := x + CHILD + 8;
      r := Rd(mem, rp);
      if r == 0 {
        rp := x + CHILD;
        r := Rd(mem, rp);
      }
      if r != 0 {
        ChildBelow(mem, chunks, nodes, x, x, (rp - x - CHILD) / 8);
        while true
          invariant mem == old(mem)
          invariant Below(chunks, nodes, x, r) && rp == Slot(mem, chunks, nodes, r)
          decreases TopBit(nodes[x].bin) + 1 - nodes[r].depth
        {
          var cp := r + CHILD + 8;
          if Rd(mem, cp) == 0 {
            cp := r + CHILD;
            if Rd(mem, cp) == 0 {
              break;
            }
          }
          ghost var b := (cp - r - CHILD) / 8;
          ChildBelow(mem, chunks, nodes, x, r, b);
          rp := cp;
          r := Rd(mem, rp);
        }
        BelowNonzero(chunks, nodes, x, r);
        mem := Wr(mem, rp, 0);
      }
    }

    /** The part of unlink_large_chunk that hands the parent and the children of x to r. */
    method Adopt(x: int, xp: int, r: int)
      requires x + 64 <= r || r + 64 <= x
      requires forall b :: 0 <= b <= 1 && Child(mem, x, b) != 0 ==> Child(mem, x, b) + 64 <= x || x + 64 <= Child(mem, x, b)
      modifies this`mem
      ensures mem == AdoptMem(old(mem), r, xp, Child(old(mem), x, 0), Child(old(mem), x, 1))
    {
      hide Rd, Wr;
      ghost var m0 := mem;
      mem := Wr(mem, r + PARENT, xp);
      var c0 := Rd(mem, x + CHILD);
      assert c0 == Child(m0, x, 0);
      if c0 != 0 {
        mem := Wr(mem, r + CHILD, c0);
        mem := Wr(mem, c0 + PARENT, r);
      }
      var c1 := Rd(mem, x + CHILD + 8);
      assert c1 == Child(m0, x, 1);
      if c1 != 0 {
        mem := Wr(mem, r + CHILD + 8, c1);
        mem := Wr(mem, c1 + PARENT, r);
      }
    }

    /** The part of unlink_large_chunk that puts r, or nothing, in the place of the trie node
        x; ns is the trie after r has been taken from its old place. */
    method Relink(x: int, xp: int, r: int, ghost ns: Nodes, ghost s0: State)
      requires S() == s0.(mem := mem) && Relinkable(s0, mem, ns, x, r) && xp == Rd(mem, x + PARENT)
      modifies this`mem, this`treemap
      ensures mem == RelinkedMem(old(mem), Slot(old(mem), chunks, ns, x), x, r, xp)
      ensures treemap == (if r == 0 && ns[x].depth == 0 then Clear(old(treemap), ns[x].bin) else old(treemap))
    {
      hide Rd, Wr, UpOk, DownOk, SizesDiffer, Slot, Bit, Pfx, TrieOk, CanSubstitute, Clear, AdoptMem;
      ghost var m0 := mem;
      ghost var slot := Slot(mem, chunks, ns, x);
      WhichSlot(mem, chunks, ns, treemap, x);
      if r != 0 { RelinkApart(mem, chunks, segs, ns, x, r); }
      var i := Rd(mem, x + INDEX);
      var h := TreeBinAt(i);
      if x == Rd(mem, h) {
        mem := Wr(mem, h, r);
        if r == 0 {
          treemap := Clear(treemap, i);
        }
      } else if Rd(mem, xp + CHILD) == x {
        mem := Wr(mem, xp + CHILD, r);
      } else {
        mem := Wr(mem, xp + CHILD + 8, r);
      }
      assert mem == Wr(m0, slot, r);
      if r != 0 {
        assert Child(mem, x, 0) == Child(m0, x, 0) && Child(mem, x, 1) == Child(m0, x, 1);
        Adopt(x, xp, r);
      }
    }

    /** unlink_large_chunk */
    method UnlinkLargeChunk(x: int)
      requires Core(S(), NOBODY) && InTrees(nodes, x)
      modifies this`mem, this`treemap, this`nodes
      ensures Core(S(), x) && OnlyBinWords(chunks, old(mem), mem)
      ensures Lost(old(nodes), nodes, x)
    {
      hide Tiled, Tagged, SmallOk, TrieOk, RingsOk, RootsOk, RecordsOk, Rd, Wr, RelinkedMem, Clear, Unlinked, OnlyBinWords, Lost,
        NodeOk, Below, IsLeaf, Slot;
      ghost var s0 := S();
      ghost var n, k := MemberIsNode(nodes, x);
      MemberFacts(s0, n, k);
      var xp := Rd(mem, x + PARENT);
      var r := Rd(mem, x + BK);
      ghost var ns := nodes;
      if r != x {
        var f := Rd(mem, x + FD);
        mem := Wr(mem, f + BK, r);
        mem := Wr(mem, r + FD, f);
        if k == 0 { HeadReady(s0, mem, x); }
      } else {
        r := DetachBelow(x);
        ns := nodes - {r};
        NodeReady(s0, mem, x, r);
      }
      ghost var m1 := mem;
      if xp != 0 {
        Relink(x, xp, r, ns, s0);
      }
      if k > 0 {
        nodes := MemberUnlinked(s0, mem, n, k);
      } else if |nodes[n].ring| > 1 {
        nodes := HeadUnlinked(s0, m1, mem, x);
      } else {
        nodes := NodeUnlinked(s0, m1, mem, treemap, x, r);
      }
      FinishUnlink(s0, S(), x);
    }

    // ---------- relays ----------

    /** insert_chunk */
    method InsertChunk(p: int, s: int)
      requires Core(S(), p) && p in chunks && chunks[p].st == Binned && chunks[p].size == s
      modifies this`mem, this`smallmap, this`treemap, this`lists, this`nodes
      ensures Core(S(), NOBODY) && OnlyBinWords(chunks, old(mem), mem)
    {
      hide OnlyBinWords;
      BinnedSize(S(), p);
      if IsSmall(s) {
        InsertSmallChunk(p, s);
      } else {
        InsertLargeChunk(p, s);
      }
    }

    /** unlink_chunk */
    method UnlinkChunk(p: int, s: int)
      requires Core(S(), NOBODY) && p in chunks && chunks[p].st == Binned && chunks[p].size == s
      modifies this`mem, this`smallmap, this`treemap, this`lists, this`nodes
      ensures Core(S(), p) && OnlyBinWords(chunks, old(mem), mem)
    {
      hide OnlyBinWords, IsMember, RemoveAt;
      BinnedSize(S(), p);
      assert ListedOk(S(), NOBODY, p);
      if IsSmall(s) {
        UnlinkSmallChunk(p, s);
      } else {
        UnlinkLargeChunk(p);
      }
    }

    /** replace_dv: the old victim, which is small, goes to its bin. */
    method ReplaceDv(p: int, s: int)
      requires Core(S(), NOBODY)
      requires dvsize != 0 ==> dv in chunks && chunks[dv].st == Victim && chunks[dv].size == dvsize && IsSmall(dvsize)
      modifies this`mem, this`smallmap, this`lists, this`chunks, this`dv, this`dvsize
      ensures Core(S(), NOBODY) && Undisturbed(old(S()), S(), NOBODY)
      ensures chunks == (if old(dvsize) == 0 then old(chunks) else SetStatus(old(chunks), old(dv), Binned))
      ensures dv == p && dvsize == s
    {
      hide Tiled, Tagged, SmallOk, TreesOk, RecordsOk, InBins, OnlyBinWords, UserKept;
      ghost var s0 := S();
      var dvs := dvsize;
      if dvs != 0 {
        var d := dv;
        RebinCore(S(), d);
        chunks := SetStatus(chunks, d, Binned);
        BinnedSize(S(), d);
        ghost var s1 := S();
        InsertSmallChunk(d, dvs);
        BinStepUsers(s1, S(), NOBODY);
        UndisturbedTrans(s0, s1, S(), NOBODY);
      } else {
        UndisturbedRefl(s0, NOBODY);
      }
      dvsize := s;
      dv := p;
    }

    // ---------- carving a chunk that has been taken from its bin ----------

    /** The end of tmalloc_small, and of the smallbin split in dlmalloc: hand out the lower
        nb bytes of p and make the remainder the victim. */
    method CarveForVictim(p: int, nb: int, rsize: int, ghost s0: State)
      requires Taken(s0, S(), p, dv, dvsize, top, topsize)
      requires nb % 8 == 0 && MIN_CHUNK_SIZE <= nb && 0 <= rsize && chunks[p].size == nb + rsize && IsSmall(dvsize)
      modifies this
      ensures Sound() && segs == old(segs) && images == old(images) && HandedOut(s0, S(), p, nb)
      ensures P() == if rsize < MIN_CHUNK_SIZE then old(P()) else old(P()).(dv := p + nb, dvsize := rsize)
    {
      hide Core, Tiled, Tagged, SmallOk, TreesOk, RecordsOk, InBins, OnlyBinWords, Undisturbed, SameElsewhere, PointersOk,
        WholeMap, CarvedMap, SetInUseAndPInUse, SetFreeTags, SetUsedHead;
      ghost var s1 := S();
      TakenUsers(s0, s1, p, dv, dvsize, top, topsize);
      if rsize < MIN_CHUNK_SIZE {
        mem := SetInUseAndPInUse(mem, p, rsize + nb);
        chunks := WholeMap(chunks, p);
        HandOutWhole(s1, S(), p, p);
        TakenWhole(s0, S(), p, dv, dvsize, top, topsize);
        UndisturbedTrans(s0, s1, S(), p);
      } else {
        mem := SetUsedHead(mem, p, nb);
        var r := p + nb;
        mem := SetFreeTags(mem, r, rsize);
        chunks := CarvedMap(chunks, p, nb, Victim);
        ghost var s2 := S();
        HandOutPart(s1, s2, p, nb, p, Victim);
        UndisturbedTrans(s0, s1, s2, p);
        VictimStill(s0, s2, p, r, dv, dvsize, top, topsize);
        ghost var d, ds := dv, dvsize;
        ReplaceDv(r, rsize);
        VictimReplaced(s0, s2, S(), p, r, rsize, d, ds, top, topsize);
      }
    }

    /** The end of tmalloc_large: as before, but the remainder goes to its bin. */
    method CarveForBin(p: int, nb: int, rsize: int, ghost s0: State)
      requires Taken(s0, S(), p, dv, dvsize, top, topsize)
      requires nb % 8 == 0 && MIN_CHUNK_SIZE <= nb && 0 <= rsize && chunks[p].size == nb + rsize
      modifies this
      ensures Sound() && segs == old(segs) && images == old(images) && HandedOut(s0, S(), p, nb)
      ensures P() == old(P())
    {
      hide Core, Tiled, Tagged, SmallOk, TreesOk, RecordsOk, InBins, OnlyBinWords, Undisturbed, SameElsewhere, PointersOk,
        WholeMap, CarvedMap, SetInUseAndPInUse, SetFreeTags, SetUsedHead;
      ghost var s1 := S();
      TakenUsers(s0, s1, p, dv, dvsize, top, topsize);
      if rsize < MIN_CHUNK_SIZE {
        mem := SetInUseAndPInUse(mem, p, rsize + nb);
        chunks := WholeMap(chunks, p);
        HandOutWhole(s1, S(), p, p);
        TakenWhole(s0, S(), p, dv, dvsize, top, topsize);
        UndisturbedTrans(s0, s1, S(), p);
      } else {
        mem := SetUsedHead(mem, p, nb);
        var r := p + nb;
        mem := SetFreeTags(mem, r, rsize);
        chunks := CarvedMap(chunks, p, nb, Binned);
        ghost var s2 := S();
        HandOutPart(s1, s2, p, nb, p, Binned);
        UndisturbedTrans(s0, s1, s2, p);
        InsertChunk(r, rsize);
        RestBinned(s0, s2, S(), p, r, dv, dvsize, top, topsize);
      }
    }

    /** Remainderless use of the first chunk of small bin i. */
    method TakeSmallBin(i: int) returns (r: int)
      requires Valid() && 0 <= i < 32 && Marked(smallmap, i)
      modifies this
      ensures Valid() && segs == old(segs) && images == old(images) && HandedOut(old(S()), S(), r - 16, 8 * i) && chunks[r - 16].size == 8 * i
      ensures |old(lists)| == 32 && |old(lists)[i]| > 0 && r == old(lists)[i][0] + 16
      ensures P() == old(P())
    {
      hide Core, Tiled, Tagged, SmallOk, TreesOk, RecordsOk, InBins, OnlyBinWords, Undisturbed, SameElsewhere, PointersOk,
        WholeMap, SetInUseAndPInUse, RemoveAt, Marked;
      ghost var s0 := S();
      var b := SmallBinAt(i);
      var p := Rd(mem, b + FD);
      UnlinkFirstSmallChunk(b, p, i);
      ghost var s1 := S();
      TakenUsers(s0, s1, p, dv, dvsize, top, topsize);
      mem := SetInUseAndPInUse(mem, p, 8 * i);
      chunks := WholeMap(chunks, p);
      HandOutWhole(s1, S(), p, p);
      TakenWhole(s0, S(), p, dv, dvsize, top, topsize);
      UndisturbedTrans(s0, s1, S(), p);
      r := p + 16;
    }

    /** Splitting the first chunk of small bin i. */
    method SplitSmallBin(i: int, nb: int) returns (r: int)
      requires Valid() && 0 <= i < 32 && Marked(smallmap, i)
      requires nb % 8 == 0 && MIN_CHUNK_SIZE <= nb <= 8 * i && dvsize < nb
      modifies this
      ensures Valid() && segs == old(segs) && images == old(images) && HandedOut(old(S()), S(), r - 16, nb)
      ensures |old(lists)| == 32 && |old(lists)[i]| > 0 && r == old(lists)[i][0] + 16
      ensures P() == if 8 * i - nb < MIN_CHUNK_SIZE then old(P()) else old(P()).(dv := r - 16 + nb, dvsize := 8 * i - nb)
    {
      hide Core, Tiled, Tagged, SmallOk, TreesOk, RecordsOk, InBins, OnlyBinWords, Undisturbed, SameElsewhere, PointersOk,
        WholeMap, RemoveAt, Marked;
      ghost var s0 := S();
      var b := SmallBinAt(i);
      var p := Rd(mem, b + FD);
      UnlinkFirstSmallChunk(b, p, i);
      CarveForVictim(p, nb, 8 * i - nb, s0);
      r := p + 16;
    }

    // ---------- searching the trees ----------

    /** The search of tmalloc_small: the smallest of all chunks in the trees. */
    method FindSmallest(nb: int) returns (v: int, rsize: int)
      requires Valid() && treemap != 0 && 0 < nb < MIN_LARGE_SIZE
      requires forall q {:trigger Fit(chunks, nb, q)} :: Fit(chunks, nb, q) ==> InTrees(nodes, q)
      ensures Smallest(chunks, nb, v) && InTrees(nodes, v) && rsize == chunks[v].size - nb
    {
      hide Tiled, Tagged, SmallOk, TreesOk, RecordsOk, Marked, Bit2Idx, LeastBit, Rd, InTrees, ChunkSize, Fit, Smallest,
        LeftmostChild, AllAhead, Sub64, PointersOk, InSub;
      SmallStart(S(), nb);
      var i := Bit2Idx(LeastBit(treemap));
      var t := Rd(mem, TreeBinAt(i));
      v := t;
      SizeOfNode(S(), t);
      rsize := ChunkSize(Rd(mem, t + HEAD)) - nb;
      LeftStep(S(), nb, 0, v, rsize, t);
      t := LeftmostChild(mem, t);
      while t != 0
        invariant Choice(chunks, nodes, nb, v, rsize) && v != 0
        invariant AllAhead(chunks, nodes, nb, v, t)
        invariant t != 0 ==> SubFits(chunks, nodes, nb, t)
        decreases LevelsBelow(nodes, t)
      {
        SizeOfNode(S(), t);
        var trem := ChunkSize(Rd(mem, t + HEAD)) - nb;
        ghost var v0 := v;
        if trem < rsize {
          rsize := trem;
          v := t;
        }
        LeftStep(S(), nb, v0, v, rsize, t);
        t := LeftmostChild(mem, t);
      }
      SearchDone(S(), nb, v);
      NodeIn(S(), nb, v);
    }

    /** The first loop of tmalloc_large: along the bits of nb in its own bin. The result t is
        the deepest right subtree passed over, or a node of size nb. */
    method WalkPath(nb: int, idx: int) returns (v: int, rsize: int, t: int)
      requires Valid() && MIN_LARGE_SIZE <= nb < U64 && 0 <= idx < 32 && idx == TreeIndex(nb)
      ensures Choice(chunks, nodes, nb, v, rsize) && 0 !in nodes
      ensures v == 0 && t == 0 ==> AllPending(chunks, nodes, nb, idx, 0, 0, 0)
      ensures v != 0 || t != 0 ==> AllAhead(chunks, nodes, nb, v, t)
      ensures t != 0 ==> t in nodes && NodeOk(chunks, nodes, t) && ((v != 0 && rsize == 0) || SubFits(chunks, nodes, nb, t))
    {
      hide Tiled, Tagged, SmallOk, RecordsOk, Marked, Rd, ChunkSize, Fit, Sub64, PointersOk, Pfx, Bit, Aligned,
        AllAhead, SubFits, AllPending, SignBit, Double, Shl64, TreeIndex, RingsOk, RootsOk, UpOk, DownOk, SizesDiffer;
      v := 0;
      rsize := Sub64(0, nb);
      WalkStart(S(), nb, idx);
      t := Rd(mem, TreeBinAt(idx));
      if t != 0 {
        var sizebits := Shl64(nb, LeftShift(idx));
        AlignedStart(nb, idx);
        var rst := 0;
        while true
          invariant Choice(chunks, nodes, nb, v, rsize) && 0 !in nodes && (v != 0 ==> nodes[v].bin == idx)
          invariant rsize != 0
          invariant OnPath(chunks, nodes, nb, idx, t) && Aligned(sizebits, nb, idx, nodes[t].depth)
          invariant rst != 0 ==> PassedRight(chunks, nodes, nb, idx, nodes[t].depth, rst)
          invariant AllPending(chunks, nodes, nb, idx, v, t, rst)
          decreases TopBit(idx) + 1 - nodes[t].depth
        {
          SizeOfNode(S(), t);
          ChoiceTest(chunks, nodes, nb, v, rsize, t);
          var trem := Sub64(ChunkSize(Rd(mem, t + HEAD)), nb);
          ghost var v0 := v;
          if trem < rsize {
            v := t;
            rsize := trem;
            if rsize == 0 {
              WalkExact(S(), nb, v, t);
              break;
            }
          }
          WalkStep(mem, chunks, nodes, nb, idx, v0, v, t, rst, sizebits);
          PathEnd(chunks, nodes, nb, idx, t);
          var rt := Rd(mem, t + CHILD + 8);
          t := Rd(mem, t + CHILD + 8 * SignBit(sizebits));
          if rt != 0 && rt != t {
            rst := rt;
          }
          if t == 0 {
            t := rst;
            if v != 0 || t != 0 { WalkDone(S(), nb, idx, v, t); }
            break;
          }
          sizebits := Double(sizebits);
        }
      }
    }

    /** The search of tmalloc_large. */
    method FindLarge(nb: int) returns (v: int, rsize: int)
      requires Valid() && MIN_LARGE_SIZE <= nb < U64 && nb % 8 == 0
      ensures v == 0 ==> NoFit(chunks, nb)
      ensures v != 0 ==> Smallest(chunks, nb, v) && InTrees(nodes, v)
      ensures rsize == if v == 0 then U64 - nb else chunks[v].size - nb
    {
      hide Tiled, Tagged, SmallOk, TreesOk, RecordsOk, Marked, Rd, ChunkSize, Sub64, PointersOk, Fit, NodeOk, And, LeftBits, Idx2Bit,
        Bit2Idx, LeastBit, TreeIndex, ComputeTreeIndex, AllAhead, SubFits, AllPending, Fits, InTrees, LeftmostChild, Smallest, NoFit;
      ComputeTreeIndexCorrect(nb);
      TreeIndexTop(nb);
      var idx := ComputeTreeIndex(nb);
      var t;
      v, rsize, t := WalkPath(nb, idx);
      if t == 0 && v == 0 {
        TreemapRange(S(), idx);
        var leftbits := And(LeftBits(Idx2Bit(idx)), treemap);
        NextBin(S(), nb, idx, leftbits);
        if leftbits != 0 {
          var i := Bit2Idx(LeastBit(leftbits));
          t := Rd(mem, TreeBinAt(i));
        }
      }
      while t != 0
        invariant Choice(chunks, nodes, nb, v, rsize) && 0 !in nodes
        invariant AllAhead(chunks, nodes, nb, v, t)
        invariant t != 0 ==> t in nodes && NodeOk(chunks, nodes, t) && ((v != 0 && rsize == 0) || SubFits(chunks, nodes, nb, t))
        decreases LevelsBelow(nodes, t)
      {
        SizeOfNode(S(), t);
        ChoiceTest(chunks, nodes, nb, v, rsize, t);
        var trem := Sub64(ChunkSize(Rd(mem, t + HEAD)), nb);
        ghost var v0, r0 := v, rsize;
        if trem < rsize {
          rsize := trem;
          v := t;
        }
        LeftStepLarge(S(), nb, v0, r0, v, rsize, t);
        t := LeftmostChild(mem, t);
      }
      LargeFits(S(), nb);
      SearchDone(S(), nb, v);
      ChoiceResult(S(), nb, v, rsize);
    }

    // ---------- allocation from the trees, the victim and the top ----------

    /** tmalloc_small */
    method TmallocSmall(nb: int) returns (r: int)
      requires Valid() && treemap != 0 && nb % 8 == 0 && MIN_CHUNK_SIZE <= nb < MIN_LARGE_SIZE && dvsize < nb
      requires forall q {:trigger Fit(chunks, nb, q)} :: Fit(chunks, nb, q) ==> InTrees(nodes, q)
      modifies this
      ensures Valid() && segs == old(segs) && images == old(images) && HandedOut(old(S()), S(), r - 16, nb)
      ensures Smallest(old(chunks), nb, r - 16)
      ensures P() == AfterBin(old(P()), r - 16, old(chunks)[r - 16].size, nb)
    {
      hide Core, OnlyBinWords, Undisturbed, PointersOk, InTrees, Lost, HandedOut;
      ghost var s0 := S();
      var v, rsize := FindSmallest(nb);
      UnlinkLargeChunk(v);
      CarveForVictim(v, nb, rsize, s0);
      r := v + 16;
    }

    /** tmalloc_large: 0 when the victim is the better fit, or nothing fits. */
    method TmallocLarge(nb: int) returns (r: int)
      requires Valid() && MIN_LARGE_SIZE <= nb < U64 && nb % 8 == 0 && 0 <= dvsize < U64
      modifies this
      ensures Valid() && segs == old(segs) && images == old(images)
      ensures r == 0 ==> S() == old(S()) && P() == old(P())
      ensures r == 0 ==> forall q {:trigger Fit(chunks, nb, q)} :: Fit(chunks, nb, q) ==> nb <= dvsize <= chunks[q].size
      ensures r != 0 ==> HandedOut(old(S()), S(), r - 16, nb) && Smallest(old(chunks), nb, r - 16)
      ensures r != 0 ==> old(dvsize) < nb || old(chunks)[r - 16].size < old(dvsize)
      ensures P() == old(P())
    {
      hide Core, OnlyBinWords, Undisturbed, PointersOk, InTrees, Lost, HandedOut, TreesOk;
      ghost var s0 := S();
      var v, rsize := FindLarge(nb);
      if v != 0 && rsize < Sub64(dvsize, nb) {
        InTreesBinned(s0, v);
        UnlinkLargeChunk(v);
        CarveForBin(v, nb, rsize, s0);
        r := v + 16;
      } else {
        if v != 0 { VictimBetter(s0, nb, v, rsize, dvsize); }
        r := 0;
      }
    }

    /** Using the victim, whole or in part. */
    method UseVictim(nb: int) returns (r: int)
      requires Valid() && nb % 8 == 0 && MIN_CHUNK_SIZE <= nb <= dvsize
      modifies this
      ensures Valid() && segs == old(segs) && images == old(images) && HandedOut(old(S()), S(), r - 16, nb) && r == old(dv) + 16
      ensures P() == AfterVictim(old(P()), nb)
    {
      hide Core, Tiled, Tagged, SmallOk, TreesOk, RecordsOk, Undisturbed, SameElsewhere, WholeMap, CarvedMap,
        SetInUseAndPInUse, SetFreeTags, SetUsedHead, PointersOk;
      ghost var s0 := S();
      ghost var ds := dvsize;
      VictimCarvable(s0, dv, dvsize, top, topsize);
      var rsize := dvsize - nb;
      var p := dv;
      if rsize >= MIN_CHUNK_SIZE {
        var q := p + nb;
        dv := q;
        dvsize := rsize;
        mem := SetFreeTags(mem, q, rsize);
        mem := SetUsedHead(mem, p, nb);
        chunks := CarvedMap(chunks, p, nb, Victim);
        HandOutPart(s0, S(), p, nb, NOBODY, Victim);
        VictimSplit(s0, S(), p, q, rsize, ds, top, topsize);
      } else {
        var dvs := dvsize;
        dvsize := 0;
        dv := 0;
        mem := SetInUseAndPInUse(mem, p, dvs);
        chunks := WholeMap(chunks, p);
        HandOutWhole(s0, S(), p, NOBODY);
        VictimGone(s0, S(), p, ds, top, topsize);
      }
      r := p + 16;
    }

    /** Splitting the top. */
    method UseTop(nb: int) returns (r: int)
      requires Valid() && nb % 8 == 0 && MIN_CHUNK_SIZE <= nb < topsize
      modifies this
      ensures Valid() && images == old(images) && HandedOut(old(S()), S(), r - 16, nb) && r == old(top) + 16
      ensures segs == old(segs)
      ensures P() == AfterTop(old(P()), nb)
    {
      hide Core, Tiled, Tagged, SmallOk, TreesOk, RecordsOk, Undisturbed, SameElsewhere, CarvedTopMap,
        SetUsedHead, PointersOk;
      ghost var s0 := S();
      ghost var ts := topsize;
      TopCarvable(s0, dv, dvsize, top, topsize);
      topsize := topsize - nb;
      var rsize := topsize;
      var p := top;
      var q := p + nb;
      top := q;
      mem := Wr(mem, q + HEAD, FreeHead(rsize));
      mem := SetUsedHead(mem, p, nb);
      chunks := CarvedTopMap(chunks, p, nb);
      HandOutTop(s0, S(), p, nb);
      TopSplit(s0, S(), p, q, ts, rsize, dv, dvsize);
      r := p + 16;
    }

    // ---------- dlfree ----------

    /** dlfree */
    method Dlfree(m: int)
      requires Valid() && (m != 0 ==> IsLive(chunks, m - 16))
      modifies this
      ensures Valid() && segs == old(segs) && images == old(images)
      ensures m != 0 ==> TakenBack(old(S()), S(), m - 16)
      // What it is joined with, and what that becomes.
      ensures m != 0 ==> P() == AfterFree(old(P()), old(chunks), m - 16)
      ensures m == 0 ==> S() == old(S()) && P() == old(P())
    {
      hide Core, Undisturbed, SameElsewhere, PointersOk, OnlyBinWords, UserKept, Freeing, TakenBack,
        SetStatus, SealMap, SetFreeWithPInUse, ChunkSize, PInUse, CInUse, Rd;
      if m == 0 {
        return;
      }
      ghost var s0 := S();
      var p := m - 16;
      ghost var p0 := p;
      ReleaseStart(s0, p0, dv, dvsize, top, topsize);
      var psize := ChunkSize(Rd(mem, p + HEAD));
      var next := p + psize;
      var pinuse := PInUse(Rd(mem, p + HEAD));
      chunks := SetStatus(chunks, p0, Held);
      ghost var s1 := S();
      if !pinuse {
        p, psize := ReleaseBackward(p, psize, s0);
        if p == dv {
          ghost var s2 := S();
          AboveTests(s0, s2, p0, p, psize, dv, dvsize, top, topsize);
          if PInUse(Rd(mem, next + HEAD)) && CInUse(Rd(mem, next + HEAD)) {
            ReleasedBelowUsed(s0, s2, p0, p, psize, Victim, dv, dvsize, top, topsize);
            dvsize := psize;
            mem := SetFreeWithPInUse(mem, p, psize, next);
            chunks := SealMap(chunks, p, Victim);
            return;
          }
        }
      }
      ReleaseForward(p, psize, s0, p0);
    }

    /** The first half of dlfree: joining with what lies below. */
    method ReleaseBackward(p0: int, size0: int, ghost s0: State) returns (p: int, size: int)
      requires Core(s0, NOBODY) && IsLive(s0.c, p0) && PointersOk(s0, dv, dvsize, top, topsize)
      requires S() == s0.(c := SetStatus(s0.c, p0, Held)) && !s0.c[p0].pin && size0 == s0.c[p0].size
      modifies this
      ensures Halfway(s0, S(), p0, p, size, dv, dvsize, top, topsize) && images == old(images) && P() == old(P())
      ensures p == s0.c[p0].prev && p + size == p0 + size0
    {
      hide Core, Undisturbed, SameElsewhere, PointersOk, OnlyBinWords, UserKept, Freeing,
        SetStatus, JoinMap, ChunkSize, PInUse, CInUse, Rd;
      ghost var s1 := S();
      ReleaseStart(s0, p0, dv, dvsize, top, topsize);
      var prevsize := Rd(mem, p0);
      p := p0 - prevsize;
      size := size0 + prevsize;
      if p != dv {
        UnlinkChunk(p, prevsize);
        FreeBelow(s0, s1, S(), p0, p, p);
      } else {
        FreeBelow(s0, s1, s1, p0, p, NOBODY);
      }
      chunks := JoinMap(chunks, p, p);
    }

    /** The case of dlfree that joins with a binned chunk above. */
    method ReleaseWithAbove(p: int, size: int, ghost s0: State, ghost p0: int)
      requires Halfway(s0, S(), p0, p, size, dv, dvsize, top, topsize) && chunks[p + size].st == Binned
      modifies this
      ensures Sound() && segs == s0.segs && images == old(images) && TakenBack(s0, S(), p0)
      ensures P() == AfterJoin(old(P()), old(chunks), p, size)
    {
      hide Core, Undisturbed, SameElsewhere, PointersOk, OnlyBinWords, TakenBack, UserKept, Freeing,
        ToFreeMap, SetFreeTags, ChunkSize, PInUse, CInUse, Rd, Wr, FreeHead;
      ghost var s1 := S();
      var psize := size;
      var next := p + psize;
      AboveTests(s0, s1, p0, p, psize, dv, dvsize, top, topsize);
      var nsize := ChunkSize(Rd(mem, next + HEAD));
      psize := psize + nsize;
      UnlinkChunk(next, nsize);
      ghost var st := if p == dv then Victim else Binned;
      ReleasedJoined(s0, s1, S(), p0, p, size, next, nsize, st, false, dv, dvsize, top, topsize);
      mem := SetFreeTags(mem, p, psize);
      chunks := ToFreeMap(chunks, p, next, st);
      if p == dv {
        dvsize := psize;
      } else {
        ghost var s3 := S();
        InsertChunk(p, psize);
        FreedBinned(s0, s3, S(), p0, p, next, dv, dvsize, top, topsize);
      }
    }

    /** The second half of dlfree: joining with what lies above. */
    method ReleaseForward(p: int, size: int, ghost s0: State, ghost p0: int)
      requires Halfway(s0, S(), p0, p, size, dv, dvsize, top, topsize)
      requires p == dv ==> chunks[p + size].st in {Binned, Victim, Top}
      modifies this
      ensures Sound() && segs == s0.segs && images == old(images) && TakenBack(s0, S(), p0)
      ensures P() == AfterJoin(old(P()), old(chunks), p, size)
    {
      hide Core, Undisturbed, SameElsewhere, PointersOk, OnlyBinWords, TakenBack, UserKept, Freeing,
        ToTopMap, ToFreeMap, SealMap, SetFreeWithPInUse, SetFreeTags, ChunkSize, PInUse, CInUse, Rd, Wr, FreeHead;
      ghost var s1 := S();
      var psize := size;
      var next := p + psize;
      AboveTests(s0, s1, p0, p, psize, dv, dvsize, top, topsize);
      if !CInUse(Rd(mem, next + HEAD)) {
        if next == top {
          ReleasedToTop(s0, s1, p0, p, psize, dv, dvsize, top, topsize);
          topsize := topsize + psize;
          top := p;
          mem := Wr(mem, p + HEAD, FreeHead(topsize));
          chunks := ToTopMap(chunks, p, next);
          if p == dv {
            dv := 0;
            dvsize := 0;
          }
        } else if next == dv {
          ReleasedToVictim(s0, s1, p0, p, psize, dv, dvsize, top, topsize);
          dvsize := dvsize + psize;
          dv := p;
          mem := SetFreeTags(mem, p, dvsize);
          chunks := ToFreeMap(chunks, p, next, Victim);
        } else {
          ReleaseWithAbove(p, psize, s0, p0);
        }
      } else {
        ReleasedBelowUsed(s0, s1, p0, p, psize, Binned, dv, dvsize, top, topsize);
        mem := SetFreeWithPInUse(mem, p, psize, next);
        chunks := SealMap(chunks, p, Binned);
        ghost var s3 := S();
        InsertChunk(p, psize);
        FreedBinned(s0, s3, S(), p0, p, p, dv, dvsize, top, topsize);
      }
    }

    // ---------- the segment list ----------

    /** The first walk of sys_alloc: a segment that ends at a. */
    method SegmentEndingAt(a: int) returns (sp: int, ghost k: int)
      requires Core(S(), NOBODY) && |segs| > 0
      ensures sp == 0 ==> forall i :: 0 <= i < |segs| ==> segs[i].End() != a
      ensures sp != 0 ==> 0 <= k < |segs| && sp == segs[k].rec && segs[k].End() == a
    {
      hide Core, Rd;
      ListHead(S());
      k := |segs| - 1;
      ReadRecord(S(), k);
      sp := SEG_HEAD;
      while sp != 0 && a != Rd(mem, sp) + Rd(mem, sp + 8)
        invariant -1 <= k < |segs| && sp == RecordAddress(segs, k)
        invariant k >= 0 ==> sp != 0 && Rd(mem, sp) == segs[k].base && Rd(mem, sp + 8) == segs[k].size
        invariant forall i :: k < i < |segs| ==> segs[i].End() != a
        decreases k
      {
        ReadRecord(S(), k);
        sp := Rd(mem, sp + 16);
        k := k - 1;
        if k >= 0 { ReadRecord(S(), k); }
      }
    }

    /** The second walk of sys_alloc: a segment that starts at a. */
    method SegmentStartingAt(a: int) returns (sp: int, ghost k: int)
      requires Core(S(), NOBODY) && |segs| > 0
      ensures sp == 0 ==> forall i :: 0 <= i < |segs| ==> segs[i].base != a
      ensures sp != 0 ==> 0 <= k < |segs| && sp == segs[k].rec && segs[k].base == a
    {
      hide Core, Rd;
      ListHead(S());
      k := |segs| - 1;
      ReadRecord(S(), k);
      sp := SEG_HEAD;
      while sp != 0 && Rd(mem, sp) != a
        invariant -1 <= k < |segs| && sp == RecordAddress(segs, k)
        invariant k >= 0 ==> sp != 0 && Rd(mem, sp) == segs[k].base
        invariant forall i :: k < i < |segs| ==> segs[i].base != a
        decreases k
      {
        ReadRecord(S(), k);
        sp := Rd(mem, sp + 16);
        k := k - 1;
        if k >= 0 { ReadRecord(S(), k); }
      }
    }

    /** segment_holding: the record of the segment that holds address a, or 0. */
    method SegmentHolding(a: int) returns (sp: int, ghost k: int)
      requires Core(S(), NOBODY) && |segs| > 0
      ensures sp == 0 ==> forall i :: 0 <= i < |segs| ==> !(segs[i].base <= a < segs[i].End())
      ensures sp != 0 ==> 0 <= k < |segs| && sp == segs[k].rec && segs[k].base <= a < segs[k].End()
    {
      hide Core, Rd;
      ListHead(S());
      k := |segs| - 1;
      sp := SEG_HEAD;
      while true
        invariant 0 <= k < |segs| && sp == RecordAddress(segs, k)
        invariant forall i :: k < i < |segs| ==> !(segs[i].base <= a < segs[i].End())
        decreases k
      {
        ReadRecord(S(), k);
        if Rd(mem, sp) <= a < Rd(mem, sp) + Rd(mem, sp + 8) {
          return;
        }
        sp := Rd(mem, sp + 16);
        if sp == 0 {
          NoRecordLeft(S(), k);
          return;
        }
        NoRecordLeft(S(), k);
        k := k - 1;
      }
    }

    // ---------- growing ----------

    /** init_top; chunks are aligned already, so there is no offset to add. */
    method InitTop(p: int, psize: int)
      modifies this`mem, this`top, this`topsize
      ensures mem == Wr(Wr(old(mem), p + HEAD, FreeHead(psize)), p + psize + HEAD, TOP_FOOT_SIZE)
      ensures top == p && topsize == psize
    {
      top := p;
      topsize := psize;
      mem := Wr(mem, p + HEAD, FreeHead(psize));
      mem := Wr(mem, p + psize + HEAD, TOP_FOOT_SIZE);
    }

    /** init_bins: every small bin header points to itself. */
    method InitBins()
      modifies this`mem
      ensures forall i :: 0 <= i < 32 ==> Rd(mem, SmallBinAt(i) + FD) == SmallBinAt(i) && Rd(mem, SmallBinAt(i) + BK) == SmallBinAt(i)
      ensures forall a {:trigger Rd(mem, a)} :: SMALLBINS <= a < TREEBINS || Rd(mem, a) == Rd(old(mem), a)
    {
      hide Rd, Wr;
      for i := 0 to 32
        invariant forall j :: 0 <= j < i ==> Rd(mem, SmallBinAt(j) + FD) == SmallBinAt(j) && Rd(mem, SmallBinAt(j) + BK) == SmallBinAt(j)
        invariant forall a {:trigger Rd(mem, a)} :: SMALLBINS <= a < TREEBINS || Rd(mem, a) == Rd(old(mem), a)
      {
        var bin := SmallBinAt(i);
        mem := Wr(mem, bin + FD, bin);
        mem := Wr(mem, bin + BK, bin);
      }
    }

    /** set_segment_flags on the embedded record: the offset is read from the last word of the
        block, and the word is cleared. */
    method SetSegmentFlags()
      modifies this`mem
      ensures var e := Rd(old(mem), SEG_HEAD) + Rd(old(mem), SEG_HEAD + 8) - 8;
              mem == Wr(Wr(old(mem), SEG_HEAD + 24, Rd(old(mem), e)), e, 0)
    {
      var e := Rd(mem, SEG_HEAD) + Rd(mem, SEG_HEAD + 8) - 8;
      mem := Wr(mem, SEG_HEAD + 24, Rd(mem, e));
      mem := Wr(mem, e, 0);
    }

    /** First-time initialization in sys_alloc. */
    method FirstInit(tbase: int, tsize: int)
      requires Sound() && |segs| == 0 && FreshBlock([], tbase, tsize)
      modifies this
      ensures Sound() && images == old(images) && Undisturbed(old(S()), S(), NOBODY)
      ensures segs == [Segment(tbase, tsize, Rd(old(mem), tbase + tsize - 8), SEG_HEAD)]
      ensures P() == old(P()).(top := tbase, topsize := tsize - TOP_FOOT_SIZE)
    {
      hide Core, Rd, Wr, Undisturbed;
      ghost var s0 := S();
      ghost var offset := Rd(mem, tbase + tsize - 8);
      NoVictim(s0, dv, dvsize, top, topsize);
      mem := Wr(mem, SEG_HEAD, tbase);
      mem := Wr(mem, SEG_HEAD + 8, tsize);
      SetSegmentFlags();
      assert Rd(mem, SEG_HEAD + 24) == offset;
      InitBins();
      InitTop(tbase, tsize - TOP_FOOT_SIZE);
      segs := [Segment(tbase, tsize, offset, SEG_HEAD)];
      chunks := map[tbase := Chunk(tsize - TOP_FOOT_SIZE, Top, true, NONE, 0)];
      FirstCore(s0, S(), tbase, tsize, offset);
    }

    /** The appending case of sys_alloc: sp is the record of the segment that holds the top. */
    method Append(sp: int, tsize: int)
      requires Sound() && |segs| > 0 && sp == segs[|segs| - 1].rec
      requires FreshBlock(segs, segs[|segs| - 1].End(), tsize)
      modifies this
      ensures Sound() && images == old(images) && Undisturbed(old(S()), S(), NOBODY) && segs == ExtendSegs(old(segs), tsize)
      ensures P() == old(P()).(topsize := old(topsize) + tsize)
    {
      hide Core, Rd, Wr, Undisturbed, PointersOk;
      ghost var s0 := S();
      TopWhere(s0, dv, dvsize, top, topsize);
      LastRecord(s0);
      mem := Wr(mem, sp + 8, Rd(mem, sp + 8) + tsize);
      InitTop(top, topsize + tsize);
      chunks := chunks[top := chunks[top].(size := topsize)];
      segs := ExtendSegs(segs, tsize);
      AppendCore(s0, S(), top, tsize);
      AppendPointers(s0, S(), dv, dvsize, top, topsize - tsize, tsize);
    }

    /** The record of the old top segment moves to ss, and the embedded record describes the
        new block. */
    method PushRecord(ss: int, tbase: int, tsize: int)
      requires ss + 32 <= tbase || tbase + tsize <= ss
      requires LOW <= ss && LOW <= tbase && PAGE <= tsize
      modifies this`mem
      ensures Rd(mem, ss) == Rd(old(mem), SEG_HEAD) && Rd(mem, ss + 8) == Rd(old(mem), SEG_HEAD + 8)
      ensures Rd(mem, ss + 16) == Rd(old(mem), SEG_HEAD + 16) && Rd(mem, ss + 24) == Rd(old(mem), SEG_HEAD + 24)
      ensures Rd(mem, SEG_HEAD) == tbase && Rd(mem, SEG_HEAD + 8) == tsize && Rd(mem, SEG_HEAD + 16) == ss
      ensures Rd(mem, SEG_HEAD + 24) == Rd(old(mem), tbase + tsize - 8)
      ensures forall a {:trigger Rd(mem, a)} ::
                ss <= a < ss + 32 || SEG_HEAD <= a < SEG_HEAD + 32 || a == tbase + tsize - 8 || Rd(mem, a) == Rd(old(mem), a)
    {
      hide Rd, Wr;
      mem := Wr(mem, ss, Rd(mem, SEG_HEAD));
      mem := Wr(mem, ss + 8, Rd(mem, SEG_HEAD + 8));
      mem := Wr(mem, ss + 16, Rd(mem, SEG_HEAD + 16));
      mem := Wr(mem, ss + 24, Rd(mem, SEG_HEAD + 24));
      mem := Wr(mem, SEG_HEAD, tbase);
      mem := Wr(mem, SEG_HEAD + 8, tsize);
      SetSegmentFlags();
      mem := Wr(mem, SEG_HEAD + 16, ss);
    }

    /** The trailing fenceposts: from tnext to the end of the old segment. */
    method InsertFenceposts(tnext: int, oldEnd: int)
      requires tnext + HEAD < oldEnd
      modifies this`mem
      ensures Rd(mem, tnext + HEAD) == FENCEPOST_HEAD
      ensures forall a {:trigger Rd(mem, a)} :: tnext + HEAD <= a < oldEnd || Rd(mem, a) == Rd(old(mem), a)
    {
      hide Rd, Wr;
      var p := tnext;
      while true
        invariant tnext <= p && p + HEAD < oldEnd
        invariant p > tnext ==> Rd(mem, tnext + HEAD) == FENCEPOST_HEAD
        invariant forall a {:trigger Rd(mem, a)} :: tnext + HEAD <= a < oldEnd || Rd(mem, a) == Rd(old(mem), a)
        decreases oldEnd - p
      {
        var nextp := p + 8;
        mem := Wr(mem, p + HEAD, FENCEPOST_HEAD);
        if nextp + HEAD < oldEnd {
          p := nextp;
        } else {
          break;
        }
      }
    }

    /** The middle of add_segment: the new top, the record at csp and the fenceposts behind it. */
    method WriteSegment(csp: int, oldEnd: int, tbase: int, tsize: int)
      requires Sound() && |segs| > 0 && FreshBlock(segs, tbase, tsize)
      requires top in chunks && csp == RecordAt(top, topsize) && oldEnd == segs[|segs| - 1].End()
      modifies this`mem, this`top, this`topsize
      ensures old(top) in chunks && SegmentAdded(old(S()), mem, old(top), tbase, tsize, Rd(old(mem), tbase + tsize - 8))
      ensures top == tbase && topsize == tsize - TOP_FOOT_SIZE
    {
      hide Core, Rd, Wr, PointersOk, FreshBlock;
      ghost var s0 := S();
      ghost var oldTop := top;
      TopWhere(s0, dv, dvsize, top, topsize);
      BlockAside(s0, tbase, tsize);
      var ssize := SEGMENT_SIZE;
      InitTop(tbase, tsize - TOP_FOOT_SIZE);
      mem := Wr(mem, csp + HEAD, BothInUse(ssize));
      ghost var m1 := mem;
      TopWritten(s0, m1, oldTop, tbase, tsize);
      PushRecord(csp + 16, tbase, tsize);
      ghost var m2 := mem;
      InsertFenceposts(csp + ssize, oldEnd);
      SegmentWritten(s0, m1, m2, mem, oldTop, tbase, tsize, Rd(s0.mem, tbase + tsize - 8));
    }

    /** The place of the segment record that add_segment makes in the old top segment. */
    method PlaceRecord() returns (csp: int, oldEnd: int)
      requires Sound() && |segs| > 0
      ensures top in chunks && csp == RecordAt(top, topsize) && oldEnd == segs[|segs| - 1].End()
    {
      hide Core, Rd, AlignOffset, PointersOk;
      TopWhere(S(), dv, dvsize, top, topsize);
      var oldsp, k := SegmentHolding(top);
      HoldsTop(S(), dv, dvsize, top, topsize, k);
      LastRecord(S());
      oldEnd := Rd(mem, oldsp) + Rd(mem, oldsp + 8);
      var rawsp := oldEnd - (SEGMENT_SIZE + 32 + 7);
      var asp := rawsp + AlignOffset(rawsp + 16);
      RecordPlace(oldEnd, top, topsize);
      csp := if asp < top + MIN_CHUNK_SIZE then top else asp;
    }

    /** add_segment */
    method AddSegment(tbase: int, tsize: int)
      requires Sound() && |segs| > 0 && FreshBlock(segs, tbase, tsize)
      modifies this
      ensures Sound() && images == old(images) && Undisturbed(old(S()), S(), NOBODY)
      ensures P() == old(P()).(top := tbase, topsize := tsize - TOP_FOOT_SIZE)
      ensures segs == PushSegs(old(segs), RecordAt(old(top), old(topsize)) + 16, tbase, tsize, Rd(old(mem), tbase + tsize - 8))
    {
      hide Core, Rd, Wr, Undisturbed, PointersOk, SameElsewhere, PushSegs, AddedMap, SealMap, SetFreeWithPInUse, FreshBlock,
        SegmentAdded, OnlyBinWords, UserKept;
      ghost var s0 := S();
      ghost var offset := Rd(mem, tbase + tsize - 8);
      ghost var ts := topsize;
      TopWhere(s0, dv, dvsize, top, topsize);
      var oldTop := top;
      var csp, oldEnd := PlaceRecord();
      WriteSegment(csp, oldEnd, tbase, tsize);
      segs := PushSegs(segs, csp + 16, tbase, tsize, offset);
      chunks := AddedMap(chunks, oldTop, tbase, tsize);
      AddCore(s0, S(), oldTop, tbase, tsize, offset);
      if csp != oldTop {
        BinOldTop(oldTop, csp, s0);
      }
      AddPointers(s0, S(), dv, dvsize, oldTop, ts, tbase, topsize);
    }

    /** The end of add_segment: the rest of the old top goes to its bin as an ordinary free chunk. */
    method BinOldTop(q: int, csp: int, ghost s0: State)
      requires Core(S(), NOBODY) && Undisturbed(s0, S(), NOBODY) && SameElsewhere(s0.c, chunks, {q, csp, top})
      requires q in chunks && chunks[q].st == Held && chunks[q].pin && q + chunks[q].size == csp && chunks[q].size >= MIN_CHUNK_SIZE
      requires csp in chunks && chunks[csp].st == Record
      requires top in chunks && chunks[top].st == Top && top != q && top != csp
      modifies this`mem, this`smallmap, this`treemap, this`chunks, this`lists, this`nodes
      ensures Core(S(), NOBODY) && Undisturbed(s0, S(), NOBODY) && SameElsewhere(s0.c, chunks, {q, csp, top})
      ensures q in chunks && chunks[q].st == Binned && csp in chunks && chunks[csp].st == Record
      ensures top in chunks && chunks[top].st == Top && chunks[top].size == old(chunks)[top].size
    {
      hide Core, Undisturbed, SameElsewhere, SealMap, SetFreeWithPInUse, OnlyBinWords;
      ghost var s1 := S();
      var psize := csp - q;
      mem := SetFreeWithPInUse(mem, q, psize, csp);
      chunks := SealMap(chunks, q, Binned);
      ghost var s2 := S();
      AddGive(s0, s1, s2, q, psize, top, s1.c[top].size);
      InsertChunk(q, psize);
      AddFinish(s0, s2, S(), q);
    }

    /** prepend_alloc: the block below oldbase has been given to its segment. */
    method PrependAlloc(newbase: int, oldbase: int, nb: int, ghost s0: State) returns (r: int)
      requires Prepended(s0, S(), newbase, oldbase - newbase, dv, dvsize, top, topsize)
      requires nb % 8 == 0 && MIN_CHUNK_SIZE <= nb && nb + MIN_CHUNK_SIZE <= oldbase - newbase
      modifies this
      ensures Sound() && images == old(images) && segs == old(segs)
      ensures HandedOut(s0, S(), r - 16, nb) && r == newbase + 16
      ensures var rest := oldbase - newbase - nb;
              P() == if oldbase == old(top) then old(P()).(top := newbase + nb, topsize := old(topsize) + rest)
                     else if oldbase == old(dv) then old(P()).(dv := newbase + nb, dvsize := old(dvsize) + rest)
                     else old(P())
    {
      hide Core, Rd, Wr, Undisturbed, PointersOk, SameElsewhere, PrependCarved, ToTopMap, ToFreeMap, SealMap, SetUsedHead, SetFreeTags,
        SetFreeWithPInUse, FreeHead, Freeing, Binnable, OnlyBinWords, TakenBack, CInUse, ChunkSize, AsBlock, HandedOut, Prepended;
      ghost var s1 := S();
      var p := newbase;
      var oldfirst := oldbase;
      var psize := oldfirst - p;
      var q := p + nb;
      var qsize := psize - nb;
      PrependedThere(s0, s1, p, psize, dv, dvsize, top, topsize);
      mem := SetUsedHead(mem, p, nb);
      chunks := PrependCarved(chunks, p, nb);
      ghost var s2 := S();
      PrependReady(s0, s1, s2, p, psize, nb, dv, dvsize, top, topsize);
      ghost var v := AsBlock(s2, q);
      AboveTests(v, s2, q, q, qsize, dv, dvsize, top, topsize);
      if oldfirst == top {
        ReleasedToTop(v, s2, q, q, qsize, dv, dvsize, top, topsize);
        topsize := topsize + qsize;
        top := q;
        mem := Wr(mem, q + HEAD, FreeHead(topsize));
        chunks := ToTopMap(chunks, q, oldfirst);
      } else if oldfirst == dv {
        ReleasedToVictim(v, s2, q, q, qsize, dv, dvsize, top, topsize);
        dvsize := dvsize + qsize;
        dv := q;
        mem := SetFreeTags(mem, q, dvsize);
        chunks := ToFreeMap(chunks, q, oldfirst, Victim);
      } else {
        PrependRest(q, qsize, oldfirst, v);
      }
      PrependDone(s0, s2, S(), p, q, nb);
      r := p + 16;
    }

    /** The case of prepend_alloc that bins the remainder, joined with a free first chunk. */
    method PrependRest(q: int, size: int, first: int, ghost v: State)
      requires Halfway(v, S(), q, q, size, dv, dvsize, top, topsize) && first == q + size && first != top && first != dv && dv != q
      modifies this
      ensures Sound() && images == old(images) && segs == v.segs && TakenBack(v, S(), q)
      ensures P() == old(P())
    {
      hide Core, Rd, Wr, Undisturbed, PointersOk, SameElsewhere, ToFreeMap, SealMap, SetFreeTags,
        SetFreeWithPInUse, FreeHead, Freeing, OnlyBinWords, TakenBack, CInUse, ChunkSize;
      ghost var s2 := S();
      AboveTests(v, s2, q, q, size, dv, dvsize, top, topsize);
      var qsize := size;
      var oldfirst := first;
      if !CInUse(Rd(mem, oldfirst + HEAD)) {
        var nsize := ChunkSize(Rd(mem, oldfirst + HEAD));
        UnlinkChunk(oldfirst, nsize);
        ReleasedJoined(v, s2, S(), q, q, size, first, nsize, Binned, true, dv, dvsize, top, topsize);
        oldfirst := oldfirst + nsize;
        qsize := qsize + nsize;
        chunks := ToFreeMap(chunks, q, first, Binned);
      } else {
        ReleasedBelowUsed(v, s2, q, q, size, Binned, dv, dvsize, top, topsize);
        chunks := SealMap(chunks, q, Binned);
      }
      mem := SetFreeWithPInUse(mem, q, qsize, oldfirst);
      ghost var s3 := S();
      InsertChunk(q, qsize);
      FreedBinned(v, s3, S(), q, q, if qsize == size then q else first, dv, dvsize, top, topsize);
    }

    /** The prepending case of sys_alloc, up to prepend_alloc: the segment takes in the block. */
    method TakeBelow(sp: int, tbase: int, tsize: int, ghost k: int) returns (oldbase: int)
      requires Sound() && 0 <= k < |segs| && sp == segs[k].rec && segs[k].base == tbase + tsize && FreshBlock(segs, tbase, tsize)
      modifies this`mem, this`chunks, this`segs
      ensures Prepended(old(S()), S(), tbase, oldbase - tbase, dv, dvsize, top, topsize)
      ensures oldbase == tbase + tsize && segs == PrependSegs(old(segs), k, tsize)
    {
      hide Core, Rd, Wr, Undisturbed, PointersOk, SameElsewhere, PrependMap;
      ghost var s0 := S();
      ReadRecord(s0, k);
      SegmentBase(s0, k);
      oldbase := Rd(mem, sp);
      mem := Wr(mem, sp, tbase);
      mem := Wr(mem, sp + 8, Rd(mem, sp + 8) + tsize);
      segs := PrependSegs(segs, k, tsize);
      chunks := PrependMap(chunks, oldbase, k, tsize);
      PrependCore(s0, S(), k, tsize);
      PrependMade(s0, S(), k, tsize, dv, dvsize, top, topsize);
    }

    /** What dlmmap leaves in a new block: the distance to its executable image. */
    method StoreOffset(tbase: int, tsize: int, offset: int)
      requires Sound() && FreshBlock(segs, tbase, tsize)
      modifies this`mem
      ensures Sound() && Undisturbed(old(S()), S(), NOBODY)
      ensures Rd(mem, tbase + tsize - 8) == offset
    {
      hide Core, Rd, Wr, Undisturbed, PointersOk;
      ghost var s0 := S();
      mem := Wr(mem, tbase + tsize - 8, offset);
      FreshTags(s0, mem, tbase, tsize);
      FreshPointers(s0, mem, tbase, tsize, dv, dvsize, top, topsize);
    }

    // ---------- sys_alloc ----------

    /** sys_alloc: a request beyond what the heap holds, served from a new mapping or not at all. */
    method SysAlloc(nb: int, sys: System) returns (r: int)
      requires Valid() && ((nb % 8 == 0 && MIN_CHUNK_SIZE <= nb < U64) || nb == U64 - 1)
      requires sys.Mapped? && MapSize(nb) > nb ==> FreshBlock(segs, sys.base, MapSize(nb))
      modifies this
      ensures Valid()
      ensures r == 0 <==> sys.Refused? || MapSize(nb) <= nb
      ensures r == 0 ==> S() == old(S()) && P() == old(P())
      ensures r != 0 ==> HandedOut(old(S()), S(), r - 16, nb)
      ensures images == (if r == 0 then old(images) else old(images) + [Image(sys.base, MapSize(nb), sys.offset)])
      ensures r != 0 ==> Grown(old(segs), segs, Image(sys.base, MapSize(nb), sys.offset))
      ensures r != 0 ==> r == ServedFrom(old(P()), old(segs), Image(sys.base, MapSize(nb), sys.offset))
      ensures r != 0 ==> P() == AfterMapping(old(P()), old(segs), Image(sys.base, MapSize(nb), sys.offset), nb)
    {
      hide Core, Rd, Wr, Undisturbed, PointersOk, HandedOut, ImagesOk, MapSize, Prepended, PushSegs, ExtendSegs, PrependSegs;
      var rsize := MapSize(nb);
      MapSizeFits(nb);
      if rsize > nb && sys.Mapped? {
        ghost var s0 := S();
        r := UseMapping(nb, sys.base, rsize, sys.offset);
      } else {
        r := 0;
      }
    }

    /** The part of sys_alloc that follows a successful mapping; it always succeeds. */
    method UseMapping(nb: int, tbase: int, tsize: int, offset: int) returns (r: int)
      requires Valid() && nb % 8 == 0 && MIN_CHUNK_SIZE <= nb && FreshBlock(segs, tbase, tsize) && tsize > nb + TOP_FOOT_SIZE + 1
      modifies this
      ensures Valid() && r != 0 && HandedOut(old(S()), S(), r - 16, nb)
      ensures images == old(images) + [Image(tbase, tsize, offset)] && Grown(old(segs), segs, Image(tbase, tsize, offset))
      ensures r == ServedFrom(old(P()), old(segs), Image(tbase, tsize, offset))
      ensures P() == AfterMapping(old(P()), old(segs), Image(tbase, tsize, offset), nb)
    {
      hide Core, Rd, Wr, Undisturbed, PointersOk, HandedOut, ImagesOk, Prepended, PushSegs, ExtendSegs, PrependSegs, FreshBlock, Grown,
        UserKept, PrecedesSome, Follows, Precedes, AfterMapping;
      ghost var s0 := S();
      ghost var q := P();
      ghost var im := Image(tbase, tsize, offset);
      VictimBound(s0, dv, dvsize, top, topsize);
      StoreOffset(tbase, tsize, offset);
      ghost var s1 := S();
      var below, sp;
      ghost var k;
      below, sp, k := Join(tbase, tsize, im);
      if below {
        r := ServeBelow(sp, tbase, tsize, nb, k, im, s0);
      } else {
        ghost var s2 := S();
        images := images + [im];
        UndisturbedTrans(s0, s1, s2, NOBODY);
        VictimBound(s2, dv, dvsize, top, topsize);
        TopMapped(P(), q, s0.segs, im, nb);
        MappedThenTop(q, s0.segs, im, nb);
        r := UseTop(nb);
        HandedAfter(s0, s2, S(), r - 16, nb);
      }
    }

    /** sys_alloc finds the place of a mapping: as first segment, as part of the top segment or as a new
        segment it is joined at once; below tells that it has to go below the segment with record sp. */
    method Join(tbase: int, tsize: int, ghost im: Image) returns (below: bool, sp: int, ghost k: int)
      requires Sound() && ImagesOk(images, segs) && FreshBlock(segs, tbase, tsize) && im == Image(tbase, tsize, Rd(mem, tbase + tsize - 8))
      modifies this
      ensures images == old(images)
      ensures below ==> S() == old(S()) && P() == old(P()) && Precedes(segs, im, k) && sp == segs[k].rec && |segs| > 0 && !Follows(segs, im)
      ensures !below ==> Sound() && ImagesOk(images + [im], segs) && Undisturbed(old(S()), S(), NOBODY) && Grown(old(segs), segs, im)
                         && P() == AfterMapping(old(P()), old(segs), im, 0)
                         && (|old(segs)| == 0 || Follows(old(segs), im) || !PrecedesSome(old(segs), im))
    {
      hide Core, Rd, Wr, Undisturbed, PointersOk, ImagesOk, PushSegs, ExtendSegs, PrependSegs, FreshBlock, Grown, UserKept, PrecedesSome;
      ghost var s1 := S();
      Initialized(s1, dv, dvsize, top, topsize);
      below, sp, k := false, 0, 0;
      if top == 0 {
        assert segs == [];
        FirstInit(tbase, tsize);
        ImagesFirst(images, s1.segs, segs, im);
      } else {
        sp, k := SegmentEndingAt(tbase);
        if sp != 0 { ReadRecord(s1, k); SegmentSize(s1, k); }
        if sp != 0 && Rd(mem, tbase + tsize - 8) == Rd(mem, sp + 24) && Rd(mem, sp) <= top < Rd(mem, sp) + Rd(mem, sp + 8) {
          HoldsTop(s1, dv, dvsize, top, topsize, k);
          TopWhere(s1, dv, dvsize, top, topsize);
          BlockAside(s1, tbase, tsize);
          Append(sp, tsize);
          ImagesAppend(images, s1.segs, segs, im, tsize);
        } else {
          DoesNotFollow(s1, dv, dvsize, top, topsize, im, sp != 0, k);
          sp, k := SegmentStartingAt(tbase + tsize);
          if sp != 0 { ReadRecord(s1, k); SegmentSize(s1, k); }
          if sp != 0 && Rd(mem, tbase + tsize - 8) == Rd(mem, sp + 24) {
            below := true;
          } else {
            DoesNotPrecede(s1, im, sp != 0, k);
            ghost var rec := RecordAt(top, topsize) + 16;
            AddSegment(tbase, tsize);
            ImagesPush(images, s1.segs, segs, im, rec);
          }
        }
      }
    }

    /** The prepending case of sys_alloc. */
    method ServeBelow(sp: int, tbase: int, tsize: int, nb: int, ghost k: int, ghost im: Image, ghost s0: State) returns (r: int)
      requires Sound() && ImagesOk(images, segs) && FreshBlock(segs, tbase, tsize) && im == Image(tbase, tsize, im.offset)
      requires Precedes(segs, im, k) && sp == segs[k].rec && |segs| > 0 && !Follows(segs, im)
      requires Undisturbed(s0, S(), NOBODY) && s0.segs == segs && Core(s0, NOBODY) && s0.c == chunks
      requires nb % 8 == 0 && MIN_CHUNK_SIZE <= nb && tsize > nb + TOP_FOOT_SIZE + 1
      modifies this
      ensures Valid() && r != 0 && HandedOut(s0, S(), r - 16, nb)
      ensures images == old(images) + [im] && Grown(s0.segs, segs, im)
      ensures r == ServedFrom(old(P()), s0.segs, im) && P() == AfterMapping(old(P()), s0.segs, im, nb)
    {
      hide Core, Rd, Wr, Undisturbed, PointersOk, HandedOut, ImagesOk, Prepended, PushSegs, ExtendSegs, PrependSegs, FreshBlock, Grown, UserKept;
      ghost var s1 := S();
      SegmentSize(s1, k);
      BlockAside(s1, tbase, tsize);
      assert PrecedesSome(s0.segs, im);
      var oldbase := TakeBelow(sp, tbase, tsize, k);
      r := PrependAlloc(tbase, oldbase, nb, s1);
      ImagesPrepend(images, s0.segs, segs, im, k, tsize);
      images := images + [im];
      HandedAfter(s0, s1, S(), r - 16, nb);
    }

    // ---------- dlmalloc ----------

    /** The first part of dlmalloc for a small request: the bins, in order of preference. */
    method SmallRequest(nb: int) returns (r: int)
      requires Valid() && nb % 8 == 0 && MIN_CHUNK_SIZE <= nb < MIN_LARGE_SIZE
      modifies this
      ensures Valid() && segs == old(segs) && images == old(images)
      ensures r == 0 ==> S() == old(S()) && P() == old(P())
      ensures r == 0 <==> !SomePreferred(old(chunks), old(dvsize), nb)
      ensures r != 0 ==> HandedOut(old(S()), S(), r - 16, nb) && Smallest(old(chunks), nb, r - 16)
      ensures r != 0 ==> P() == AfterBin(old(P()), r - 16, old(chunks)[r - 16].size, nb)
    {
      hide Core, PointersOk, ImagesOk, HandedOut, Smallest, SomePreferred, Fit, Marked, Shr, And, Shl32, LeftBits, Idx2Bit, LeastBit, Bit2Idx,
        InTrees, Undisturbed;
      ghost var s0 := S();
      ghost var ds := dvsize;
      SmallmapRange(s0);
      VictimBound(s0, dv, dvsize, top, topsize);
      var idx := nb / 8;
      ShiftedLowBits(smallmap, idx);
      var smallbits := Shr(smallmap, idx);
      r := 0;
      if And(smallbits, 3) != 0 {
        idx := idx + (1 - smallbits % 2);
        r := TakeSmallBin(idx);
        FirstOfBin(s0, nb, idx, r - 16);
        SmallestPreferred(s0.c, ds, nb, r - 16);
        HandedFor(s0, S(), r - 16, 8 * idx, nb);
      } else if nb > dvsize {
        if smallbits != 0 {
          NextMarkedShifted(smallmap, idx);
          var leftbits := And(Shl32(smallbits, idx), LeftBits(Idx2Bit(idx)));
          var i := Bit2Idx(LeastBit(leftbits));
          r := SplitSmallBin(i, nb);
          FirstOfBin(s0, nb, i, r - 16);
          SmallestPreferred(s0.c, ds, nb, r - 16);
        } else if treemap != 0 {
          forall q | Fit(chunks, nb, q)
            ensures InTrees(nodes, q)
          {
            OnlyTreesFit(s0, nb, q);
          }
          r := TmallocSmall(nb);
          SmallestPreferred(s0.c, ds, nb, r - 16);
        } else {
          NothingSmall(s0, ds, nb);
        }
      } else {
        NoneNear(s0, ds, nb);
      }
      if SomePreferred(s0.c, ds, nb) { SmallestThere(s0, nb, r - 16); }
    }

    /** The first part of dlmalloc for a large request. */
    method LargeRequest(nb: int) returns (r: int)
      requires Valid() && nb % 8 == 0 && MIN_LARGE_SIZE <= nb < U64
      modifies this
      ensures Valid() && segs == old(segs) && images == old(images)
      ensures r == 0 ==> S() == old(S()) && P() == old(P())
      ensures r == 0 <==> !SomePreferred(old(chunks), old(dvsize), nb)
      ensures r != 0 ==> HandedOut(old(S()), S(), r - 16, nb) && Smallest(old(chunks), nb, r - 16)
      ensures r != 0 ==> P() == AfterBin(old(P()), r - 16, old(chunks)[r - 16].size, nb)
    {
      hide Core, PointersOk, ImagesOk, HandedOut, InTrees, Undisturbed;
      ghost var s0 := S();
      ghost var ds := dvsize;
      VictimBound(s0, dv, dvsize, top, topsize);
      r := 0;
      if treemap != 0 {
        r := TmallocLarge(nb);
        if r != 0 { SmallestPreferred(s0.c, ds, nb, r - 16); }
      } else {
        NothingLarge(s0, ds, nb);
      }
    }

    /** dlmalloc. The mapping that the system would make, if asked, is given with the call. */
    method Dlmalloc(bytes: int, sys: System) returns (r: int)
      requires Valid() && 0 <= bytes < U64
      requires sys.Mapped? && Request2Size(bytes) + TOP_FOOT_SIZE + 1 + PAGE < U64 ==> FreshBlock(segs, sys.base, MapSize(Request2Size(bytes)))
      modifies this
      ensures Valid()
      // A failed call changes nothing; a successful one hands out one aligned block of the
      // right size and leaves all others alone.
      ensures r == 0 ==> S() == old(S()) && P() == old(P())
      ensures r != 0 ==> r % 8 == 0 && HandedOut(old(S()), S(), r - 16, Request2Size(bytes))
      // It fails only if nothing but the system can help, and that refuses, or the size wraps.
      ensures r == 0 <==> OnlySystem(old(chunks), old(dvsize), old(topsize), Request2Size(bytes))
                          && (sys.Refused? || Request2Size(bytes) + TOP_FOOT_SIZE + 1 + PAGE >= U64)
      // Which chunk it comes from, and what becomes of victim, top and segments.
      ensures var nb, c, q := Request2Size(bytes), old(chunks), old(P());
              var m := Image(if sys.Mapped? then sys.base else 0, MapSize(nb), if sys.Mapped? then sys.offset else 0);
              && (SomePreferred(c, q.dvsize, nb) ==> r != 0 && Smallest(c, nb, r - 16) && P() == AfterBin(q, r - 16, c[r - 16].size, nb))
              && (!SomePreferred(c, q.dvsize, nb) && nb <= q.dvsize ==> r == q.dv + 16 && P() == AfterVictim(q, nb))
              && (!SomePreferred(c, q.dvsize, nb) && q.dvsize < nb < q.topsize ==> r == q.top + 16 && P() == AfterTop(q, nb))
              && (OnlySystem(c, q.dvsize, q.topsize, nb) && r != 0 ==>
                    && images == old(images) + [m] && Grown(old(segs), segs, m)
                    && r == ServedFrom(q, old(segs), m) && P() == AfterMapping(q, old(segs), m, nb))
              && (!OnlySystem(c, q.dvsize, q.topsize, nb) || r == 0 ==> images == old(images) && segs == old(segs))
    {
      hide Core, PointersOk, ImagesOk, HandedOut, Smallest, SomePreferred, MapSize, FreshBlock, Undisturbed, Grown, AfterMapping, AfterBin, PadRequest;
      ghost var s0 := S();
      VictimBound(s0, dv, dvsize, top, topsize);
      PaddingFits(bytes);
      var nb;
      r := 0;
      if bytes <= MAX_SMALL_REQUEST {
        nb := if bytes < MIN_REQUEST then MIN_CHUNK_SIZE else PadRequest(bytes);
        r := SmallRequest(nb);
      } else if bytes >= MAX_REQUEST {
        nb := U64 - 1;
        NothingHuge(s0, dv, dvsize, top, topsize, nb);
        NothingHuge(s0, dv, dvsize, top, topsize, Request2Size(bytes));
      } else {
        nb := PadRequest(bytes);
        r := LargeRequest(nb);
      }
      MapSizeFits(nb);
      if r != 0 {
        SmallestThere(s0, nb, r - 16);
        return;
      }
      if nb <= dvsize {
        r := UseVictim(nb);
      } else if nb < topsize {
        r := UseTop(nb);
      } else {
        r := SysAlloc(nb, sys);
        HandedAligned(s0, S(), r - 16, nb);
      }
    }
  }
}
