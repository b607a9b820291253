/** Lemmas that carry the invariant of the whole heap through the word-by-word work of
    insert_large_chunk and unlink_large_chunk. */
module TreeMoves {
  import opened Words
  import opened Bits
  import opened BinMaps
  import opened Chunks
  import opened SmallBins
  import opened TreeBins
  import opened TreeOps
  import opened TreeSearch
  import opened Mapping
  import opened HeapState

  lemma SmallHas32(s: State)
    requires SmallOk(s.mem, s.c, s.lists, s.smallmap)
    ensures |s.lists| == 32
  {
  }

  lemma IndexInList(s: State, p: int) returns (k: int)
    requires Core(s, NOBODY) && p in s.c && s.c[p].st == Binned && IsSmall(s.c[p].size)
    ensures IsMember(s.lists, s.c[p].size / 8, k) && s.lists[s.c[p].size / 8][k] == p
  {
    AboveLow(s.c, s.segs, p);
    assert ListedOk(s, NOBODY, p);
    var l := s.lists[s.c[p].size / 8];
    k :| 0 <= k < |l| && l[k] == p;
  }

  lemma LargeNow(s: State, x: int)
    requires Tiled(s.c, s.segs) && x in s.c && s.c[x].st == Binned && !IsSmall(s.c[x].size)
    ensures Large(s.c, x)
  {
    AboveLow(s.c, s.segs, x);
    InsideSegment(s.c, s.segs, x);
    assert ShapeOk(s.c, s.segs, x) && SegmentOk(s.segs, s.c[x].sid);
  }

  lemma NotANode(s: State, x: int)
    requires TreesOk(s.mem, s.c, s.nodes, s.treemap) && !InTrees(s.nodes, x)
    ensures x !in s.nodes
  {
    if x in s.nodes { NodeIsMember(s.mem, s.c, s.nodes, x); }
  }

  /** Changing at most the links of x and two tree words changes tree words only. */
  lemma TouchesTrees(s: State, mem': Mem, x: int, a: int, b: int)
    requires Tiled(s.c, s.segs) && Large(s.c, x)
    requires forall y {:trigger Rd(mem', y)} :: x + 16 <= y < x + 64 || y == a || y == b || Rd(mem', y) == Rd(s.mem, y)
    requires TreeWord(s.c, a) && TreeWord(s.c, b)
    ensures OnlyTreeWords(s.mem, mem', s.c)
  {
    forall y | !TreeWord(s.c, y)
      ensures Rd(mem', y) == Rd(s.mem, y)
    {
      if x + 16 <= y < x + 64 { LargeWords(s.c, s.segs, x, y); }
    }
  }

  /** Memory m1 is that of s but for the index and child words of x. */
  ghost predicate Prepared(s: State, m1: Mem, x: int, i: int) {
    && Core(s, x) && Large(s.c, x) && 0 <= i < 32 && i == TreeIndex(s.c[x].size)
    && TreesOk(m1, s.c, s.nodes, s.treemap) && !InTrees(s.nodes, x)
    && Rd(m1, x + INDEX) == i && Rd(m1, x + CHILD) == 0 && Rd(m1, x + CHILD + 8) == 0
    && forall y {:trigger Rd(m1, y)} :: x + 16 <= y < x + 64 || Rd(m1, y) == Rd(s.mem, y)
  }

  /** The writes that make x a leaf at slot with parent up. */
  function LeafMem(m: Mem, x: int, slot: int, up: int): Mem {
    Wr(Wr(Wr(Wr(m, slot, x), x + PARENT, up), x + FD, x), x + BK, x)
  }

  /** The writes that put x behind t in a ring. */
  function RingMem(m: Mem, x: int, t: int): Mem {
    var f := Rd(m, t + FD);
    Wr(Wr(Wr(Wr(Wr(m, t + FD, x), f + BK, x), x + FD, f), x + BK, t), x + PARENT, 0)
  }

  lemma LeafMemLinks(m: Mem, c: ChunkMap, x: int, slot: int, up: int, i: int)
    requires slot < x + 16 || x + 64 <= slot
    requires Rd(m, x + INDEX) == i && Rd(m, x + CHILD) == 0 && Rd(m, x + CHILD + 8) == 0
    ensures LinkedLeaf(m, LeafMem(m, x, slot, up), c, x, slot, up) && NewNode(LeafMem(m, x, slot, up), c, x, i)
  {
    hide Rd, Wr;
  }

  lemma RingMemLinks(m: Mem, x: int, t: int, i: int)
    requires (x + 64 <= t || t + 64 <= x) && (x + 64 <= Rd(m, t + FD) || Rd(m, t + FD) + 64 <= x)
    requires Rd(m, x + INDEX) == i && Rd(m, x + CHILD) == 0 && Rd(m, x + CHILD + 8) == 0
    ensures LinkedRing(m, RingMem(m, x, t), t, x, i)
  {
    hide Rd, Wr;
  }

  lemma InsertedRoot(s: State, m1: Mem, s': State, x: int, i: int)
    requires Prepared(s, m1, x, i) && !Marked(s.treemap, i)
    requires s' == s.(mem := s'.mem, treemap := Mark(s.treemap, i), nodes := s.nodes[x := Node(i, 0, [x])])
    requires s'.mem == LeafMem(m1, x, TreeBinAt(i), TreeBinAt(i))
    ensures Core(s', NOBODY) && OnlyBinWords(s.c, s.mem, s'.mem) && Gained(s.nodes, s'.nodes, x)
  {
    hide Tagged, RecordsOk, SmallOk, TreesOk, Rd, Wr, TreeIndex, Marked, Mark;
    LeafMemLinks(m1, s.c, x, TreeBinAt(i), TreeBinAt(i), i);
    InsertRoot(m1, s'.mem, s.c, s.segs, s.nodes, s.treemap, x, i);
    TouchesTrees(s, s'.mem, x, TreeBinAt(i), TreeBinAt(i));
    InsertLargeCore(s, s', x);
  }

  lemma InsertedLeaf(s: State, m1: Mem, s': State, x: int, t: int)
    requires CanAttach(m1, s.c, s.nodes, t, x) && Prepared(s, m1, x, s.nodes[t].bin)
    requires s' == s.(mem := s'.mem, nodes := s.nodes[x := Node(s.nodes[t].bin, s.nodes[t].depth + 1, [x])])
    requires s'.mem == LeafMem(m1, x, t + CHILD + 8 * Bit(s.c[x].size, s.nodes[t].bin, s.nodes[t].depth), t)
    ensures Core(s', NOBODY) && OnlyBinWords(s.c, s.mem, s'.mem) && Gained(s.nodes, s'.nodes, x)
  {
    hide Tagged, RecordsOk, SmallOk, TreesOk, Rd, Wr, TreeIndex, Pfx, Bit;
    LargeApart(s.c, s.segs, t, x);
    LeafMemLinks(m1, s.c, x, t + CHILD + 8 * Bit(s.c[x].size, s.nodes[t].bin, s.nodes[t].depth), t, s.nodes[t].bin);
    InsertLeaf(m1, s'.mem, s.c, s.segs, s.nodes, s.treemap, t, x);
    LargeWords(s.c, s.segs, t, t + CHILD);
    LargeWords(s.c, s.segs, t, t + CHILD + 8);
    TouchesTrees(s, s'.mem, x, t + CHILD, t + CHILD + 8);
    InsertLargeCore(s, s', x);
  }

  lemma InsertedRing(s: State, m1: Mem, s': State, x: int, t: int)
    requires t in s.nodes && t in s.c && x in s.c && s.c[t].size == s.c[x].size && Prepared(s, m1, x, s.nodes[t].bin)
    requires s' == s.(mem := s'.mem, nodes := s.nodes[t := s.nodes[t].(ring := Behind(s.nodes[t].ring, x))])
    requires s'.mem == RingMem(m1, x, t)
    ensures Core(s', NOBODY) && OnlyBinWords(s.c, s.mem, s'.mem) && Gained(s.nodes, s'.nodes, x)
  {
    hide Tagged, RecordsOk, SmallOk, TreesOk, Rd, Wr, TreeIndex, Pfx, Bit;
    RingWhere(m1, s.c, s.segs, s.nodes, s.treemap, t, x);
    RingMemLinks(m1, x, t, s.nodes[t].bin);
    InsertRing(m1, s'.mem, s.c, s.segs, s.nodes, s.treemap, t, x);
    TouchesTrees(s, s'.mem, x, t + FD, Rd(m1, t + FD) + BK);
    InsertLargeCore(s, s', x);
  }

  lemma StartSearch(mem: Mem, c: ChunkMap, nodes: Nodes, s: int, i: int, t: int, k: int, treemap: int)
    requires TreesOk(mem, c, nodes, treemap) && MIN_LARGE_SIZE <= s < U64 && 0 <= i < 32 && i == TreeIndex(s)
    requires t == Rd(mem, TreeBinAt(i)) && t != 0 && k == Shl64(s, LeftShift(i))
    ensures SearchAt(c, nodes, s, i, t, k)
  {
    hide Pfx, Bit, TreeIndex;
    assert RootOk(mem, nodes, treemap, i) && NodeOk(c, nodes, t);
    PfxRoot(s, c[t].size, i);
  }

  /** The head of a tree member still tells its size after writes to the links of x. */
  lemma ReadSize(s: State, m1: Mem, x: int, t: int)
    requires Tiled(s.c, s.segs) && Tagged(s.mem, s.c, s.segs) && Large(s.c, x) && Large(s.c, t)
    requires forall y {:trigger Rd(m1, y)} :: x + 16 <= y < x + 64 || Rd(m1, y) == Rd(s.mem, y)
    ensures ChunkSize(Rd(m1, t + HEAD)) == s.c[t].size
  {
    if t != x { LargeApart(s.c, s.segs, t, x); }
    assert TagOk(s.mem, s.c, s.segs, t) && ShapeOk(s.c, s.segs, t);
    Decode(s.c[t]);
  }

  /** The two ring words that an insertion behind t rewrites are tree words. */
  lemma RingWhere(mem: Mem, c: ChunkMap, segs: seq<Segment>, nodes: Nodes, treemap: int, t: int, x: int)
    requires Tiled(c, segs) && TreesOk(mem, c, nodes, treemap) && t in nodes && Large(c, x) && !InTrees(nodes, x)
    ensures TreeWord(c, t + FD) && TreeWord(c, Rd(mem, t + FD) + BK)
    ensures Large(c, t) && (x + 64 <= t || t + 64 <= x)
    ensures var f := Rd(mem, t + FD); x + 64 <= f || f + 64 <= x
  {
    assert NodeOk(c, nodes, t);
    InsertRingPair(mem, c, nodes, t, x);
    PairLarge(mem, c, nodes, t, Rd(mem, t + FD), t, x);
    LargeWords(c, segs, t, t + FD);
    LargeWords(c, segs, Rd(mem, t + FD), Rd(mem, t + FD) + BK);
    LargeApart(c, segs, t, x);
    LargeApart(c, segs, Rd(mem, t + FD), x);
  }

  lemma ChildBelow(mem: Mem, c: ChunkMap, nodes: Nodes, x: int, r: int, b: int)
    requires TrieOk(mem, c, nodes) && x in nodes && NodeOk(c, nodes, x) && 0 <= b <= 1
    requires r == x || Below(c, nodes, x, r)
    requires r in nodes && NodeOk(c, nodes, r) && Child(mem, r, b) != 0
    ensures var y := Child(mem, r, b);
            && Below(c, nodes, x, y) && Slot(mem, c, nodes, y) == r + CHILD + 8 * b
            && nodes[y].depth == nodes[r].depth + 1
  {
    hide Bit, Pfx;
    var y := Child(mem, r, b);
    assert DownOk(mem, c, nodes, r, b);
    assert NodeOk(c, nodes, y) && UpOk(mem, c, nodes, y);
    PfxShorter(c[y].size, c[r].size, nodes[x].bin, nodes[r].depth, nodes[x].depth);
  }

  lemma BelowNonzero(c: ChunkMap, nodes: Nodes, x: int, r: int)
    requires Below(c, nodes, x, r)
    ensures r != 0
  {
  }

  /** The tests of unlink_large_chunk find the word that links to x. */
  lemma WhichSlot(mem: Mem, c: ChunkMap, nodes: Nodes, treemap: int, x: int)
    requires TrieOk(mem, c, nodes) && RootsOk(mem, nodes, treemap) && x in nodes && NodeOk(c, nodes, x)
    ensures var h, xp, s := TreeBinAt(nodes[x].bin), Rd(mem, x + PARENT), Slot(mem, c, nodes, x);
            && (Rd(mem, h) == x <==> nodes[x].depth == 0)
            && s == (if Rd(mem, h) == x then h else if Rd(mem, xp + CHILD) == x then xp + CHILD else xp + CHILD + 8)
  {
    hide Bit, Pfx, Marked;
    SlotWhere(mem, c, nodes, x);
    assert RootOk(mem, nodes, treemap, nodes[x].bin) && UpOk(mem, c, nodes, x);
    if nodes[x].depth > 0 {
      var xp := Rd(mem, x + PARENT);
      assert NodeOk(c, nodes, xp) && DownOk(mem, c, nodes, xp, 0);
    }
  }
  // ---------- removal ----------

  function RelinkedMem(mem: Mem, s: int, x: int, r: int, xp: int): Mem {
    if r == 0 then Wr(mem, s, 0) else RelinkMem(mem, s, r, xp, Child(mem, x, 0), Child(mem, x, 1))
  }

  /** What unlink_large_chunk reads off a ring member. */
  lemma MemberFacts(s: State, n: int, k: int)
    requires Core(s, NOBODY) && n in s.nodes && 0 <= k < |s.nodes[n].ring|
    ensures var x := s.nodes[n].ring[k];
            && NodeOk(s.c, s.nodes, n) && TrieOk(s.mem, s.c, s.nodes)
            && (Rd(s.mem, x + BK) == x <==> |s.nodes[n].ring| == 1)
            && (Rd(s.mem, x + PARENT) == 0 <==> k > 0) && (k == 0 ==> x == n)
  {
    hide UpOk, DownOk, SizesDiffer, Tiled, Tagged, SmallOk, RecordsOk;
    var l := s.nodes[n].ring;
    assert NodeOk(s.c, s.nodes, n) && RingHead(s.nodes, n) && RingAt(s.mem, s.c, s.nodes, n, k);
    NodeNotPlain(s.mem, s.c, s.nodes, n);
    assert RingDistinct(s.nodes, n, k - 1, k) && RingDistinct(s.nodes, n, k, |l| - 1);
  }
  /** The state in which the relinking of x starts. */
  ghost predicate Relinkable(s: State, m1: Mem, ns: Nodes, x: int, r: int) {
    && Tiled(s.c, s.segs) && TrieOk(m1, s.c, ns) && RootsOk(m1, ns, s.treemap)
    && x in ns && NodeOk(s.c, ns, x) && Rd(m1, x + PARENT) == Rd(s.mem, x + PARENT) && Rd(m1, x + INDEX) == ns[x].bin
    && (r != 0 ==> CanSubstitute(m1, s.c, ns, x, r))
  }

  /** The ring of x has been closed behind x. */
  lemma HeadReady(s: State, m1: Mem, x: int)
    requires Core(s, NOBODY) && x in s.nodes && |s.nodes[x].ring| >= 2
    requires var f, r := Rd(s.mem, x + FD), Rd(s.mem, x + BK); m1 == Wr(Wr(s.mem, f + BK, r), r + FD, f)
    ensures Relinkable(s, m1, s.nodes, x, Rd(s.mem, x + BK)) && Rd(s.mem, x + BK) != 0
  {
    hide Rd, Wr, UpOk, DownOk, SizesDiffer, Tagged, SmallOk, RecordsOk, RingAt, CanSubstitute;
    assert NodeOk(s.c, s.nodes, x);
    var f, r := Rd(s.mem, x + FD), Rd(s.mem, x + BK);
    HeadPair(s.mem, s.c, s.nodes, x);
    RingChangeTrie(s.mem, m1, s.c, s.segs, s.nodes, s.treemap, x, f, r, 0, s.nodes);
    PromoteCan(s.mem, m1, s.c, s.segs, s.nodes, s.treemap, x);
    RingChangeMember(s.mem, m1, s.c, s.segs, s.nodes, x, f, r, 0, 0);
    NodeIndex(s, x);
  }

  lemma NodeIndex(s: State, x: int)
    requires Core(s, NOBODY) && x in s.nodes
    ensures Rd(s.mem, x + INDEX) == s.nodes[x].bin
  {
    assert NodeOk(s.c, s.nodes, x) && RingHead(s.nodes, x) && RingAt(s.mem, s.c, s.nodes, x, 0);
  }

  /** A leaf r below x, if there is one, has been taken out of the trie. */
  lemma NodeReady(s: State, m1: Mem, x: int, r: int)
    requires Core(s, NOBODY) && x in s.nodes && NodeOk(s.c, s.nodes, x)
    requires r == 0 ==> IsLeaf(s.mem, s.nodes, x) && m1 == s.mem
    requires r != 0 ==> Below(s.c, s.nodes, x, r) && IsLeaf(s.mem, s.nodes, r)
    requires r != 0 ==> m1 == Wr(s.mem, Slot(s.mem, s.c, s.nodes, r), 0)
    ensures Relinkable(s, m1, s.nodes - {r}, x, r)
  {
    hide Rd, Wr, UpOk, DownOk, SizesDiffer, Tagged, SmallOk, RecordsOk, RingAt, CanSubstitute, Slot, Pfx, RootOk;
    NodeIndex(s, x);
    if r != 0 {
      DetachForSubstitute(s.mem, m1, s.c, s.segs, s.nodes, x, r);
      RootsDetached(s.mem, m1, s.c, s.nodes, s.treemap, x, r);
      SlotAway(s, x, r);
    } else {
      ZeroNotNode(s);
      assert s.nodes - {0} == s.nodes;
    }
  }

  lemma ZeroNotNode(s: State)
    requires Core(s, NOBODY)
    ensures 0 !in s.nodes
  {
    assert NodeOk(s.c, s.nodes, 0);
  }

  /** The slot of a node is neither a parent nor an index word. */
  lemma SlotAway(s: State, x: int, r: int)
    requires Core(s, NOBODY) && x in s.nodes && r in s.nodes && NodeOk(s.c, s.nodes, x) && NodeOk(s.c, s.nodes, r)
    ensures Slot(s.mem, s.c, s.nodes, r) != x + PARENT && Slot(s.mem, s.c, s.nodes, r) != x + INDEX
  {
    hide UpOk, DownOk, SizesDiffer, Tagged, SmallOk, RecordsOk, RingAt, Pfx, Bit, Slot;
    SlotWhere(s.mem, s.c, s.nodes, r);
    if s.nodes[r].depth > 0 {
      var p := Rd(s.mem, r + PARENT);
      if p != x { LargeApart(s.c, s.segs, p, x); }
    }
  }

  /** What the removal of x from the trees leaves behind. */
  ghost predicate Unlinked(s: State, m2: Mem, treemap': int, nodes': Nodes, x: int) {
    TreesOk(m2, s.c, nodes', treemap') && Lost(s.nodes, nodes', x) && OnlyTreeWords(s.mem, m2, s.c)
  }

  lemma TrieWordsAreTree(m1: Mem, m2: Mem, c: ChunkMap, segs: seq<Segment>, heads: set<int>)
    requires Tiled(c, segs) && OnlyTrieWords(m1, m2, heads, 0)
    requires forall t :: t in heads ==> Large(c, t)
    ensures OnlyTreeWords(m1, m2, c)
  {
    forall a | !TreeWord(c, a)
      ensures Rd(m2, a) == Rd(m1, a)
    {
      if t :| t in heads && t + CHILD <= a <= t + PARENT { LargeWords(c, segs, t, a); }
    }
  }

  lemma TreeWordsTrans(m0: Mem, m1: Mem, m2: Mem, c: ChunkMap)
    requires OnlyTreeWords(m0, m1, c) && OnlyTreeWords(m1, m2, c)
    ensures OnlyTreeWords(m0, m2, c)
  {
  }

  /** Closing a ring over one member writes tree words. */
  lemma RingWordsAreTree(s: State, m1: Mem, n: int, f: int, r: int)
    requires Core(s, NOBODY) && RingPair(s.mem, s.c, s.nodes, n, f, r, 0)
    requires m1 == Wr(Wr(s.mem, f + BK, r), r + FD, f)
    ensures OnlyTreeWords(s.mem, m1, s.c)
  {
    hide Rd, Wr, UpOk, DownOk, SizesDiffer, Tagged, SmallOk, RecordsOk, RingAt, TreeWord;
    PairLarge(s.mem, s.c, s.nodes, n, f, r, 0);
    LargeWords(s.c, s.segs, f, f + BK);
    LargeWords(s.c, s.segs, r, r + FD);
  }

  lemma MemberUnlinked(s: State, m1: Mem, n: int, k: int) returns (nodes': Nodes)
    requires Core(s, NOBODY) && n in s.nodes && 0 < k < |s.nodes[n].ring|
    requires var x := s.nodes[n].ring[k];
             var f, r := Rd(s.mem, x + FD), Rd(s.mem, x + BK); m1 == Wr(Wr(s.mem, f + BK, r), r + FD, f)
    ensures Unlinked(s, m1, s.treemap, nodes', s.nodes[n].ring[k])
  {
    hide Rd, Wr, UpOk, DownOk, SizesDiffer, Tagged, SmallOk, RecordsOk, RingAt, TreeWord;
    var x := s.nodes[n].ring[k];
    MemberPair(s.mem, s.c, s.nodes, n, k);
    UnlinkMember(s.mem, m1, s.c, s.segs, s.nodes, s.treemap, n, k);
    RingWordsAreTree(s, m1, n, Rd(s.mem, x + FD), Rd(s.mem, x + BK));
    nodes' := s.nodes[n := s.nodes[n].(ring := Without(s.nodes[n].ring, k))];
  }

  lemma HeadUnlinked(s: State, m1: Mem, m2: Mem, x: int) returns (nodes': Nodes)
    requires Core(s, NOBODY) && x in s.nodes && |s.nodes[x].ring| >= 2 && NodeOk(s.c, s.nodes, x)
    requires var f, r := Rd(s.mem, x + FD), Rd(s.mem, x + BK); m1 == Wr(Wr(s.mem, f + BK, r), r + FD, f)
    requires Relinkable(s, m1, s.nodes, x, Rd(s.mem, x + BK))
    requires m2 == RelinkedMem(m1, Slot(m1, s.c, s.nodes, x), x, Rd(s.mem, x + BK), Rd(s.mem, x + PARENT))
    ensures Unlinked(s, m2, s.treemap, nodes', x)
  {
    hide Rd, Wr, UpOk, DownOk, SizesDiffer, Tagged, SmallOk, RecordsOk, RingAt, TreeWord, CanSubstitute, RelinkMem, Slot,
      Relinked, OnlyTrieWords, RelinkHeads;
    var f, r := Rd(s.mem, x + FD), Rd(s.mem, x + BK);
    HeadPair(s.mem, s.c, s.nodes, x);
    RelinkWrites(m1, s.c, s.segs, s.nodes, x, r);
    UnlinkHead(s.mem, m1, m2, s.c, s.segs, s.nodes, s.treemap, x);
    RelinkScope(m1, m2, s.c, s.nodes, x, r);
    TrieWordsAreTree(m1, m2, s.c, s.segs, RelinkHeads(m1, s.nodes, x, r));
    RingWordsAreTree(s, m1, x, f, r);
    TreeWordsTrans(s.mem, m1, m2, s.c);
    nodes' := Replace(s.nodes, x, r, Promoted(s.nodes[x].ring));
  }

  lemma NodeUnlinked(s: State, m1: Mem, m2: Mem, treemap': int, x: int, r: int) returns (nodes': Nodes)
    requires Core(s, NOBODY) && x in s.nodes && |s.nodes[x].ring| == 1 && NodeOk(s.c, s.nodes, x)
    requires r == 0 ==> IsLeaf(s.mem, s.nodes, x) && m1 == s.mem
    requires r != 0 ==> Below(s.c, s.nodes, x, r) && IsLeaf(s.mem, s.nodes, r)
    requires r != 0 ==> m1 == Wr(s.mem, Slot(s.mem, s.c, s.nodes, r), 0)
    requires Relinkable(s, m1, s.nodes - {r}, x, r)
    requires m2 == RelinkedMem(m1, Slot(m1, s.c, s.nodes - {r}, x), x, r, Rd(s.mem, x + PARENT))
    requires treemap' == (if r == 0 && s.nodes[x].depth == 0 then Clear(s.treemap, s.nodes[x].bin) else s.treemap)
    ensures Unlinked(s, m2, treemap', nodes', x)
  {
    hide Rd, Wr, UpOk, DownOk, SizesDiffer, Tagged, SmallOk, RecordsOk, RingAt, TreeWord, CanSubstitute, RelinkMem, Slot,
      Relinked, OnlyTrieWords, RelinkHeads, Clear, Pfx;
    if r == 0 {
      ZeroNotNode(s);
      assert s.nodes - {0} == s.nodes;
      UnlinkLeaf(s.mem, m2, s.c, s.segs, s.nodes, s.treemap, x);
      SlotIsTree(s, x);
      nodes' := s.nodes - {x};
    } else {
      RelinkWrites(m1, s.c, s.segs, s.nodes - {r}, x, r);
      UnlinkInner(s.mem, m1, m2, s.c, s.segs, s.nodes, s.treemap, x, r);
      RelinkScope(m1, m2, s.c, s.nodes - {r}, x, r);
      TrieWordsAreTree(m1, m2, s.c, s.segs, RelinkHeads(m1, s.nodes - {r}, x, r));
      SlotIsTree(s, r);
      TreeWordsTrans(s.mem, m1, m2, s.c);
      nodes' := Replace(s.nodes - {r}, x, r, s.nodes[r].ring);
    }
  }

  lemma SlotIsTree(s: State, x: int)
    requires Core(s, NOBODY) && x in s.nodes && NodeOk(s.c, s.nodes, x)
    ensures TreeWord(s.c, Slot(s.mem, s.c, s.nodes, x))
  {
    hide UpOk, DownOk, SizesDiffer, Tagged, SmallOk, RecordsOk, RingAt, Pfx, Bit, Slot, TreeWord;
    SlotWhere(s.mem, s.c, s.nodes, x);
    if s.nodes[x].depth > 0 {
      LargeWords(s.c, s.segs, Rd(s.mem, x + PARENT), Slot(s.mem, s.c, s.nodes, x));
    } else {
      RootIsTree(s.c, s.nodes[x].bin);
    }
  }

  lemma RootIsTree(c: ChunkMap, i: int)
    requires 0 <= i < 32
    ensures TreeWord(c, TreeBinAt(i))
  {
  }

  lemma FinishUnlink(s: State, s': State, x: int)
    requires Core(s, NOBODY) && InTrees(s.nodes, x)
    requires s' == s.(mem := s'.mem, treemap := s'.treemap, nodes := s'.nodes)
    requires Unlinked(s, s'.mem, s'.treemap, s'.nodes, x)
    ensures Core(s', x) && OnlyBinWords(s.c, s.mem, s'.mem) && Lost(s.nodes, s'.nodes, x)
  {
    UnlinkLargeCore(s, s', x);
  }
}
