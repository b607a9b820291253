/** Why the two tree searches of malloc end at the smallest chunk that fits. */
module BestFit {
  import opened Words
  import opened Bits
  import opened BinMaps
  import opened Chunks
  import opened SmallBins
  import opened TreeBins
  import opened TreeOps
  import opened TreeSearch
  import opened Mapping
  import opened HeapState

  /** A binned chunk with room for nb bytes. */
  predicate Fit(c: ChunkMap, nb: int, q: int) {
    q in c && c[q].st == Binned && nb <= c[q].size
  }

  /** p is a smallest binned chunk with room for nb bytes. */
  ghost predicate Smallest(c: ChunkMap, nb: int, p: int) {
    Fit(c, nb, p) && forall q {:trigger Fit(c, nb, q)} :: Fit(c, nb, q) ==> c[p].size <= c[q].size
  }

  ghost predicate NoFit(c: ChunkMap, nb: int) {
    forall q {:trigger Fit(c, nb, q)} :: !Fit(c, nb, q)
  }

  // ---------- small bins ----------

  /** The first chunk of the lowest non-empty bin from idx on is a smallest fit. */
  lemma FirstOfBin(s: State, nb: int, i: int, p: int)
    requires Core(s, NOBODY) && 0 <= nb && nb % 8 == 0 && nb / 8 <= i < 32
    requires |s.lists| == 32 && |s.lists[i]| > 0 && p == s.lists[i][0]
    requires forall j: nat {:trigger Marked(s.smallmap, j)} :: nb / 8 <= j < i ==> !Marked(s.smallmap, j)
    ensures Smallest(s.c, nb, p) && s.c[p].size == 8 * i
  {
    hide Marked, Tagged, RecordsOk, TreesOk;
    assert MemberOk(s.c, s.lists, i, 0);
    forall q | Fit(s.c, nb, q)
      ensures s.c[p].size <= s.c[q].size
    {
      assert ListedOk(s, NOBODY, q);
      AboveLow(s.c, s.segs, q);
      if IsSmall(s.c[q].size) {
        var j := s.c[q].size / 8;
        assert BinOk(s.mem, s.lists, s.smallmap, j);
      }
    }
  }

  /** With no bin marked from nb / 8 on, everything that fits is in the trees. */
  lemma OnlyTreesFit(s: State, nb: int, q: int)
    requires Core(s, NOBODY) && 0 <= nb && nb % 8 == 0 && Fit(s.c, nb, q)
    requires forall j: nat {:trigger Marked(s.smallmap, j)} :: nb / 8 <= j < 32 ==> !Marked(s.smallmap, j)
    ensures InTrees(s.nodes, q)
  {
    hide Marked, Tagged, RecordsOk, TreesOk;
    assert ListedOk(s, NOBODY, q);
    AboveLow(s.c, s.segs, q);
    assert BinOk(s.mem, s.lists, s.smallmap, s.c[q].size / 8);
  }

  /** A node stands for every chunk of its ring. */
  lemma NodeFor(s: State, q: int) returns (n: int)
    requires TreesOk(s.mem, s.c, s.nodes, s.treemap) && InTrees(s.nodes, q)
    ensures n in s.nodes && NodeOk(s.c, s.nodes, n) && q in s.c && s.c[q].size == s.c[n].size
  {
    var k;
    n, k := MemberIsNode(s.nodes, q);
    assert NodeOk(s.c, s.nodes, n) && RingAt(s.mem, s.c, s.nodes, n, k);
  }

  // ---------- the leftmost walk ----------

  /** m is no smaller than the choice v, or is still ahead at t or below, or is larger than t. */
  ghost predicate Ahead(c: ChunkMap, nodes: Nodes, v: int, t: int, m: int) {
    || (v in nodes && v in c && m in c && c[v].size <= c[m].size)
    || (t in nodes && t in c && m in c && (InSub(c, nodes, t, m) || c[t].size < c[m].size))
  }

  /** Choosing the smaller of v and t and going to the leftmost child keeps m ahead. */
  lemma AheadStep(mem: Mem, c: ChunkMap, nodes: Nodes, v: int, v': int, t: int, m: int)
    requires TrieOk(mem, c, nodes) && Ahead(c, nodes, v, t, m) && t in nodes && t in c
    requires v' in nodes && v' in c && c[v'].size <= c[t].size
    requires v in nodes && v in c ==> c[v'].size <= c[v].size
    ensures Ahead(c, nodes, v', LeftmostChild(mem, t), m)
  {
    if InSub(c, nodes, t, m) && m != t {
      LeftmostStep(mem, c, nodes, t, m);
    }
  }

  lemma LeftmostWhere(mem: Mem, c: ChunkMap, nodes: Nodes, t: int)
    requires TrieOk(mem, c, nodes) && t in nodes && NodeOk(c, nodes, t)
    ensures var x := LeftmostChild(mem, t);
            x != 0 ==> x in nodes && NodeOk(c, nodes, x) && nodes[x].bin == nodes[t].bin && nodes[x].depth == nodes[t].depth + 1
                       && InSub(c, nodes, t, x)
  {
    hide Pfx, Bit;
    var x := LeftmostChild(mem, t);
    if x != 0 {
      assert DownOk(mem, c, nodes, t, 0) && DownOk(mem, c, nodes, t, 1);
      assert NodeOk(c, nodes, x) && UpOk(mem, c, nodes, x);
    }
  }

  lemma SubTrans(c: ChunkMap, nodes: Nodes, t: int, x: int, m: int)
    requires InSub(c, nodes, t, x) && InSub(c, nodes, x, m)
    ensures InSub(c, nodes, t, m)
  {
    hide Pfx, Bit;
    PfxShorter(c[x].size, c[m].size, nodes[t].bin, nodes[x].depth, nodes[t].depth);
  }

  /** The root of a bin has all its nodes below it. */
  lemma RootCovers(mem: Mem, c: ChunkMap, nodes: Nodes, treemap: int, i: int, m: int)
    requires TrieOk(mem, c, nodes) && RootsOk(mem, nodes, treemap) && 0 <= i < 32
    requires m in nodes && NodeOk(c, nodes, m) && nodes[m].bin == i
    ensures var t := Rd(mem, TreeBinAt(i)); t != 0 && InSub(c, nodes, t, m)
  {
    hide Pfx, Bit, Marked, TreeIndex;
    RootAbove(mem, c, nodes, m);
    assert RootOk(mem, nodes, treemap, i);
    var t := Rd(mem, TreeBinAt(i));
    assert NodeOk(c, nodes, t);
    PfxRoot(c[t].size, c[m].size, i);
  }

  /** Nodes of higher bins are larger. */
  lemma HigherBin(c: ChunkMap, nodes: Nodes, n: int, m: int)
    requires n in nodes && m in nodes && NodeOk(c, nodes, n) && NodeOk(c, nodes, m)
    requires nodes[n].bin < nodes[m].bin
    ensures c[n].size < c[m].size
  {
    TreeIndexMonotone(c[n].size, c[m].size);
  }

  /** Starting from the root of the lowest non-empty bin, every node is ahead. */
  lemma LowestRoot(mem: Mem, c: ChunkMap, nodes: Nodes, treemap: int, i: int, m: int)
    requires TrieOk(mem, c, nodes) && RootsOk(mem, nodes, treemap) && 0 <= i < 32 && Marked(treemap, i)
    requires m in nodes && NodeOk(c, nodes, m)
    requires forall j: nat {:trigger Marked(treemap, j)} :: j < i ==> !Marked(treemap, j)
    ensures Ahead(c, nodes, 0, Rd(mem, TreeBinAt(i)), m)
  {
    hide Marked, Pfx, Bit, TreeIndex;
    assert RootOk(mem, nodes, treemap, i) && RootOk(mem, nodes, treemap, nodes[m].bin);
    var t := Rd(mem, TreeBinAt(i));
    assert NodeOk(c, nodes, t);
    RootAbove(mem, c, nodes, m);
    if nodes[m].bin == i {
      RootCovers(mem, c, nodes, treemap, i, m);
    } else {
      HigherBin(c, nodes, t, m);
    }
  }

  // ---------- the walk along the request ----------

  ghost predicate AllPending(c: ChunkMap, nodes: Nodes, nb: int, i: int, v: int, t: int, rst: int) {
    forall m {:trigger Fits(c, nodes, nb, m)} :: Fits(c, nodes, nb, m) && nodes[m].bin == i ==> Pending(c, nodes, v, t, rst, m)
  }

  ghost predicate AllAhead(c: ChunkMap, nodes: Nodes, nb: int, v: int, t: int) {
    forall m {:trigger Fits(c, nodes, nb, m)} :: Fits(c, nodes, nb, m) ==> Ahead(c, nodes, v, t, m)
  }

  /** Everything at t and below fits. */
  ghost predicate SubFits(c: ChunkMap, nodes: Nodes, nb: int, t: int) {
    t in nodes && NodeOk(c, nodes, t) && forall m {:trigger InSub(c, nodes, t, m)} :: InSub(c, nodes, t, m) ==> nb <= c[m].size
  }

  /** The choice v, or none, with its remainder as the searches compute it. */
  ghost predicate Choice(c: ChunkMap, nodes: Nodes, nb: int, v: int, rsize: int) {
    if v == 0 then rsize == Sub64(0, nb) else Fits(c, nodes, nb, v) && rsize == c[v].size - nb
  }

  /** The wrapped comparison picks t exactly if it fits better than the choice so far. */
  lemma ChoiceTest(c: ChunkMap, nodes: Nodes, nb: int, v: int, rsize: int, t: int)
    requires Choice(c, nodes, nb, v, rsize) && 0 < nb < U64 && t in nodes && NodeOk(c, nodes, t)
    ensures Sub64(c[t].size, nb) < rsize <==> nb <= c[t].size && (v == 0 || c[t].size < c[v].size)
    ensures nb <= c[t].size ==> Sub64(c[t].size, nb) == c[t].size - nb
  {
  }

  /** Below the last level of the trie of bin i the path holds nb itself. */
  lemma PathEnd(c: ChunkMap, nodes: Nodes, nb: int, i: int, t: int)
    requires 0 <= nb && 0 <= i < 32 && OnPath(c, nodes, nb, i, t) && c[t].size != nb
    ensures nodes[t].depth <= TopBit(i)
  {
  }

  /** One step of the walk, in terms of the words read. */
  lemma WalkStep(mem: Mem, c: ChunkMap, nodes: Nodes, nb: int, i: int, v: int, v': int, t: int, rst: int, k: int)
    requires TrieOk(mem, c, nodes) && 0 < nb < U64 && 0 <= i < 32
    requires OnPath(c, nodes, nb, i, t) && Aligned(k, nb, i, nodes[t].depth) && c[t].size != nb
    requires rst != 0 ==> PassedRight(c, nodes, nb, i, nodes[t].depth, rst)
    requires AllPending(c, nodes, nb, i, v, t, rst) && 0 !in nodes
    requires v != 0 ==> v in nodes && v' in nodes && v in c && v' in c && c[v'].size <= c[v].size
    requires nb <= c[t].size ==> v' in nodes && v' in c && c[v'].size <= c[t].size
    ensures SignBit(k) == 0 || SignBit(k) == 1
    ensures var t', rt := Child(mem, t, SignBit(k)), Child(mem, t, 1);
            var rst' := if rt != 0 && rt != t' then rt else rst;
            && AllPending(c, nodes, nb, i, v', t', rst')
            && (t' != 0 ==> OnPath(c, nodes, nb, i, t') && nodes[t'].depth == nodes[t].depth + 1
                            && Aligned(Double(k), nb, i, nodes[t'].depth)
                            && (rst' != 0 ==> PassedRight(c, nodes, nb, i, nodes[t'].depth, rst')))
            && (rst' != 0 ==> rst' in nodes && NodeOk(c, nodes, rst') && nodes[rst'].bin == i
                              && Pfx(c[rst'].size, i, nodes[rst'].depth) > Pfx(nb, i, nodes[rst'].depth))
  {
    hide Pfx, Bit, SignBit, Double, Aligned;
    PathEnd(c, nodes, nb, i, t);
    AlignedSignBit(k, nb, i, nodes[t].depth);
    PathChildren(mem, c, nodes, nb, i, t);
    var t', rt := Child(mem, t, SignBit(k)), Child(mem, t, 1);
    var rst' := if rt != 0 && rt != t' then rt else rst;
    forall m | Fits(c, nodes, nb, m) && nodes[m].bin == i
      ensures Pending(c, nodes, v', t', rst', m)
    {
      assert v in nodes ==> v != 0;
      PathPending(mem, c, nodes, nb, i, v, v', t, rst, m);
    }
  }

  /** The walk starts at the root. */
  lemma WalkStart(s: State, nb: int, i: int)
    requires TreesOk(s.mem, s.c, s.nodes, s.treemap) && MIN_LARGE_SIZE <= nb < U64 && i == TreeIndex(nb) && 0 <= i < 32
    ensures var t := Rd(s.mem, TreeBinAt(i));
            && 0 !in s.nodes && Sub64(0, nb) != 0
            && (t != 0 ==> OnPath(s.c, s.nodes, nb, i, t) && DepthOf(s.nodes, t) == 0
                           && AllPending(s.c, s.nodes, nb, i, 0, t, 0))
            && (t == 0 ==> AllPending(s.c, s.nodes, nb, i, 0, 0, 0))
  {
    hide Pfx, Bit, Marked, TreeIndex;
    var t := Rd(s.mem, TreeBinAt(i));
    assert RootOk(s.mem, s.nodes, s.treemap, i) && NodeOk(s.c, s.nodes, 0);
    if t != 0 {
      assert NodeOk(s.c, s.nodes, t);
      PfxRoot(nb, s.c[t].size, i);
    }
    forall m | Fits(s.c, s.nodes, nb, m) && s.nodes[m].bin == i
      ensures Pending(s.c, s.nodes, 0, t, 0, m)
    {
      RootCovers(s.mem, s.c, s.nodes, s.treemap, i, m);
    }
  }

  function DepthOf(nodes: Nodes, t: int): int {
    if t in nodes then nodes[t].depth else -1
  }

  /** After the walk, with t the deepest right subtree passed over: what is ahead there. */
  lemma WalkDone(s: State, nb: int, i: int, v: int, t: int)
    requires TreesOk(s.mem, s.c, s.nodes, s.treemap) && MIN_LARGE_SIZE <= nb < U64 && i == TreeIndex(nb) && 0 <= i < 32
    requires AllPending(s.c, s.nodes, nb, i, v, 0, t) && (v != 0 || t != 0) && 0 !in s.nodes
    requires v != 0 ==> Fits(s.c, s.nodes, nb, v) && s.nodes[v].bin == i
    requires t != 0 ==> t in s.nodes && NodeOk(s.c, s.nodes, t) && s.nodes[t].bin == i
                        && Pfx(s.c[t].size, i, s.nodes[t].depth) > Pfx(nb, i, s.nodes[t].depth)
    ensures AllAhead(s.c, s.nodes, nb, v, t)
    ensures t != 0 ==> SubFits(s.c, s.nodes, nb, t)
  {
    hide Pfx, Bit, Marked, TreeIndex;
    forall m | Fits(s.c, s.nodes, nb, m)
      ensures Ahead(s.c, s.nodes, v, t, m)
    {
      BinOfFit(s, nb, i, m);
      if s.nodes[m].bin != i { HigherBin(s.c, s.nodes, if v != 0 then v else t, m); }
    }
    if t != 0 {
      forall m | InSub(s.c, s.nodes, t, m)
        ensures nb <= s.c[m].size
      {
        PassedLarger(s.c, s.nodes, nb, i, s.nodes[t].depth, t, m);
      }
    }
  }

  lemma BinOfFit(s: State, nb: int, i: int, m: int)
    requires MIN_LARGE_SIZE <= nb < U64 && i == TreeIndex(nb) && Fits(s.c, s.nodes, nb, m)
    ensures s.nodes[m].bin >= i
  {
    if s.nodes[m].bin < i { TreeIndexMonotone(s.c[m].size, nb); }
  }

  /** The walk met the exact size. */
  lemma WalkExact(s: State, nb: int, v: int, t: int)
    requires Fits(s.c, s.nodes, nb, v) && s.c[v].size == nb
    ensures AllAhead(s.c, s.nodes, nb, v, t)
  {
  }

  /** No fit in bin i: the root of the next non-empty bin is where the smallest is. */
  lemma NextBin(s: State, nb: int, i: int, left: int)
    requires TreesOk(s.mem, s.c, s.nodes, s.treemap) && MIN_LARGE_SIZE <= nb < U64 && i == TreeIndex(nb) && 0 <= i < 32
    requires AllPending(s.c, s.nodes, nb, i, 0, 0, 0) && 0 !in s.nodes
    requires 0 <= Idx2Bit(i) < U32 && 0 <= LeftBits(Idx2Bit(i)) && left == And(LeftBits(Idx2Bit(i)), s.treemap)
    ensures left == 0 ==> AllAhead(s.c, s.nodes, nb, 0, 0)
    ensures left != 0 ==> left < U32 && 0 <= Bit2Idx(LeastBit(left)) < 32
    ensures left != 0 ==> var t := Rd(s.mem, TreeBinAt(Bit2Idx(LeastBit(left))));
              t in s.nodes && NodeOk(s.c, s.nodes, t) && AllAhead(s.c, s.nodes, nb, 0, t) && SubFits(s.c, s.nodes, nb, t)
  {
    hide Pfx, Bit, Marked, TreeIndex, And, LeftBits, Idx2Bit, Bit2Idx, LeastBit;
    NextMarked(s.treemap, i);
    forall m | Fits(s.c, s.nodes, nb, m)
      ensures s.nodes[m].bin > i && Marked(s.treemap, s.nodes[m].bin)
    {
      BinOfFit(s, nb, i, m);
      RootAbove(s.mem, s.c, s.nodes, m);
      assert RootOk(s.mem, s.nodes, s.treemap, s.nodes[m].bin);
    }
    if left != 0 {
      var j := Bit2Idx(LeastBit(left));
      assert RootOk(s.mem, s.nodes, s.treemap, j);
      var t := Rd(s.mem, TreeBinAt(j));
      assert NodeOk(s.c, s.nodes, t);
      forall m | Fits(s.c, s.nodes, nb, m)
        ensures Ahead(s.c, s.nodes, 0, t, m)
      {
        if s.nodes[m].bin == j {
          RootCovers(s.mem, s.c, s.nodes, s.treemap, j, m);
        } else {
          HigherBin(s.c, s.nodes, t, m);
        }
      }
      forall m | InSub(s.c, s.nodes, t, m)
        ensures nb <= s.c[m].size
      {
        HigherBinFits(s, nb, i, m);
      }
    }
  }

  lemma HigherBinFits(s: State, nb: int, i: int, m: int)
    requires MIN_LARGE_SIZE <= nb < U64 && i == TreeIndex(nb) && m in s.nodes && NodeOk(s.c, s.nodes, m) && s.nodes[m].bin > i
    ensures nb <= s.c[m].size
  {
    TreeIndexMonotone(nb, s.c[m].size);
  }

  /** At the end of the leftmost walk the choice is a smallest fit of the whole heap. */
  lemma SearchDone(s: State, nb: int, v: int)
    requires Core(s, NOBODY) && 0 <= nb && AllAhead(s.c, s.nodes, nb, v, 0) && 0 !in s.nodes
    requires forall q {:trigger Fit(s.c, nb, q)} :: Fit(s.c, nb, q) ==> InTrees(s.nodes, q)
    requires v != 0 ==> Fits(s.c, s.nodes, nb, v)
    ensures v == 0 ==> NoFit(s.c, nb)
    ensures v != 0 ==> Smallest(s.c, nb, v)
  {
    hide Tagged, RecordsOk, SmallOk, TreesOk;
    forall q | Fit(s.c, nb, q)
      ensures v != 0 && s.c[v].size <= s.c[q].size
    {
      var n := NodeFor(s, q);
      assert Fits(s.c, s.nodes, nb, n);
    }
  }

  // ---------- the loops ----------

  function LevelsBelow(nodes: Nodes, t: int): int {
    if t in nodes && 0 <= nodes[t].bin < 32 then TopBit(nodes[t].bin) + 2 - nodes[t].depth else 0
  }

  lemma SizeOfNode(s: State, t: int)
    requires Core(s, NOBODY) && t in s.nodes
    ensures t in s.c && ChunkSize(Rd(s.mem, t + HEAD)) == s.c[t].size && NodeOk(s.c, s.nodes, t) && t != 0
  {
    assert NodeOk(s.c, s.nodes, t) && TagOk(s.mem, s.c, s.segs, t) && ShapeOk(s.c, s.segs, t);
    Decode(s.c[t]);
  }

  lemma AllAheadStep(mem: Mem, c: ChunkMap, nodes: Nodes, nb: int, v: int, v': int, t: int)
    requires TrieOk(mem, c, nodes) && AllAhead(c, nodes, nb, v, t) && t in nodes && t in c
    requires v' in nodes && v' in c && c[v'].size <= c[t].size
    requires v in nodes && v in c ==> c[v'].size <= c[v].size
    ensures AllAhead(c, nodes, nb, v', LeftmostChild(mem, t))
  {
    forall m | Fits(c, nodes, nb, m)
      ensures Ahead(c, nodes, v', LeftmostChild(mem, t), m)
    {
      AheadStep(mem, c, nodes, v, v', t, m);
    }
  }

  /** The leftmost child, if any, lies one level further down and fits as t does. */
  lemma LeftmostFits(s: State, nb: int, t: int)
    requires Core(s, NOBODY) && t in s.nodes && NodeOk(s.c, s.nodes, t)
    ensures var x := LeftmostChild(s.mem, t);
            && (x != 0 ==> x in s.nodes && NodeOk(s.c, s.nodes, x) && (SubFits(s.c, s.nodes, nb, t) ==> SubFits(s.c, s.nodes, nb, x)))
            && LevelsBelow(s.nodes, x) < LevelsBelow(s.nodes, t)
    ensures LevelsBelow(s.nodes, t) >= 0
  {
    hide Pfx, Bit, TreeIndex, LeftmostChild;
    LeftmostWhere(s.mem, s.c, s.nodes, t);
    var x := LeftmostChild(s.mem, t);
    assert NodeOk(s.c, s.nodes, 0);
    if x != 0 && SubFits(s.c, s.nodes, nb, t) {
      forall m | InSub(s.c, s.nodes, x, m)
        ensures nb <= s.c[m].size
      {
        SubTrans(s.c, s.nodes, t, x, m);
      }
    }
  }

  /** One round of the leftmost walk when everything at t and below fits. */
  lemma LeftStep(s: State, nb: int, v: int, v': int, rsize: int, t: int)
    requires Core(s, NOBODY) && 0 <= nb && AllAhead(s.c, s.nodes, nb, v, t) && SubFits(s.c, s.nodes, nb, t)
    requires v != 0 ==> Fits(s.c, s.nodes, nb, v)
    requires v' == t || (v' == v && v != 0 && t in s.nodes && t in s.c && v in s.c && s.c[v].size <= s.c[t].size)
    requires v' == t && v != 0 && t in s.c && v in s.c ==> s.c[t].size <= s.c[v].size
    requires v' in s.c && rsize == s.c[v'].size - nb
    ensures Choice(s.c, s.nodes, nb, v', rsize) && v' != 0
    ensures var x := LeftmostChild(s.mem, t);
            && AllAhead(s.c, s.nodes, nb, v', x) && (x != 0 ==> SubFits(s.c, s.nodes, nb, x))
            && LevelsBelow(s.nodes, x) < LevelsBelow(s.nodes, t)
    ensures LevelsBelow(s.nodes, t) >= 0
  {
    hide Pfx, Bit, TreeIndex, LeftmostChild, AllAhead, Tagged, SmallOk, RecordsOk, RingsOk, RootsOk, UpOk, DownOk, SizesDiffer;
    assert NodeOk(s.c, s.nodes, 0);
    assert SubFits(s.c, s.nodes, nb, t) ==> InSub(s.c, s.nodes, t, t);
    AllAheadStep(s.mem, s.c, s.nodes, nb, v, v', t);
    LeftmostFits(s, nb, t);
  }

  /** One round of the leftmost walk of tmalloc_large. */
  lemma LeftStepLarge(s: State, nb: int, v: int, rsize: int, v': int, rsize': int, t: int)
    requires Core(s, NOBODY) && 0 < nb < U64 && AllAhead(s.c, s.nodes, nb, v, t) && t in s.nodes && NodeOk(s.c, s.nodes, t)
    requires Choice(s.c, s.nodes, nb, v, rsize) && ((v != 0 && rsize == 0) || SubFits(s.c, s.nodes, nb, t))
    requires if nb <= s.c[t].size && (v == 0 || s.c[t].size < s.c[v].size) then v' == t && rsize' == s.c[t].size - nb
             else v' == v && rsize' == rsize
    ensures Choice(s.c, s.nodes, nb, v', rsize')
    ensures var x := LeftmostChild(s.mem, t);
            && AllAhead(s.c, s.nodes, nb, v', x)
            && (x != 0 ==> x in s.nodes && NodeOk(s.c, s.nodes, x) && ((v' != 0 && rsize' == 0) || SubFits(s.c, s.nodes, nb, x)))
            && LevelsBelow(s.nodes, x) < LevelsBelow(s.nodes, t)
    ensures LevelsBelow(s.nodes, t) >= 0
  {
    hide Pfx, Bit, TreeIndex, LeftmostChild, AllAhead, Tagged, SmallOk, RecordsOk, RingsOk, RootsOk, UpOk, DownOk, SizesDiffer;
    assert NodeOk(s.c, s.nodes, 0);
    LeftmostFits(s, nb, t);
    if v != 0 && rsize == 0 {
      WalkExact(s, nb, v, LeftmostChild(s.mem, t));
    } else {
      assert InSub(s.c, s.nodes, t, t);
      AllAheadStep(s.mem, s.c, s.nodes, nb, v, v', t);
    }
  }

  /** tmalloc_small starts at the root of the lowest non-empty bin. */
  lemma SmallStart(s: State, nb: int)
    requires Core(s, NOBODY) && s.treemap != 0 && 0 < nb < MIN_LARGE_SIZE
    ensures 0 < s.treemap < U32 && 0 <= Bit2Idx(LeastBit(s.treemap)) < 32
    ensures var t := Rd(s.mem, TreeBinAt(Bit2Idx(LeastBit(s.treemap))));
            t in s.nodes && AllAhead(s.c, s.nodes, nb, 0, t) && SubFits(s.c, s.nodes, nb, t)
    ensures 0 !in s.nodes
  {
    hide Pfx, Bit, Marked, TreeIndex, Bit2Idx, LeastBit, Tagged, SmallOk, RecordsOk, RingsOk, Tiled;
    LowestMarked(s.treemap);
    var i := Bit2Idx(LeastBit(s.treemap));
    var t := Rd(s.mem, TreeBinAt(i));
    assert RootOk(s.mem, s.nodes, s.treemap, i) && NodeOk(s.c, s.nodes, t) && NodeOk(s.c, s.nodes, 0);
    forall m | Fits(s.c, s.nodes, nb, m)
      ensures Ahead(s.c, s.nodes, 0, t, m)
    {
      LowestRoot(s.mem, s.c, s.nodes, s.treemap, i, m);
    }
  }

  lemma NodeIn(s: State, nb: int, v: int)
    requires Core(s, NOBODY) && Fits(s.c, s.nodes, nb, v)
    ensures InTrees(s.nodes, v)
  {
    NodeIsMember(s.mem, s.c, s.nodes, v);
  }

  lemma AlignedStart(nb: int, i: int)
    requires 0 <= nb && 0 <= i < 32
    ensures Aligned(Shl64(nb, LeftShift(i)), nb, i, 0)
  {
  }

  lemma TreemapRange(s: State, i: int)
    requires Core(s, NOBODY) && 0 <= i < 32
    ensures 0 <= s.treemap < U32 && 0 <= Idx2Bit(i) < U32 && 0 <= LeftBits(Idx2Bit(i))
  {
    NextMarked(s.treemap, i);
  }

  /** What fits a large request is in the trees. */
  lemma LargeFits(s: State, nb: int)
    requires Core(s, NOBODY) && MIN_LARGE_SIZE <= nb
    ensures forall q {:trigger Fit(s.c, nb, q)} :: Fit(s.c, nb, q) ==> InTrees(s.nodes, q)
  {
    forall q | Fit(s.c, nb, q)
      ensures InTrees(s.nodes, q)
    {
      assert ListedOk(s, NOBODY, q);
      AboveLow(s.c, s.segs, q);
    }
  }

  lemma ChoiceResult(s: State, nb: int, v: int, rsize: int)
    requires Core(s, NOBODY) && 0 < nb < U64 && Choice(s.c, s.nodes, nb, v, rsize)
    ensures v != 0 ==> v in s.c && InTrees(s.nodes, v)
    ensures rsize == if v == 0 then U64 - nb else s.c[v].size - nb
  {
    if v != 0 { NodeIn(s, nb, v); }
  }

  /** The wrapped comparison turns down the smallest fit only for a victim that fits no worse. */
  lemma VictimBetter(s: State, nb: int, v: int, rsize: int, dvsize: int)
    requires Core(s, NOBODY) && 0 < nb < U64 && 0 <= dvsize < U64 && Smallest(s.c, nb, v) && InTrees(s.nodes, v)
    requires rsize == s.c[v].size - nb && rsize >= Sub64(dvsize, nb)
    ensures forall q {:trigger Fit(s.c, nb, q)} :: Fit(s.c, nb, q) ==> nb <= dvsize <= s.c[q].size
  {
    TreesHoldLarge(s.mem, s.c, s.nodes, s.treemap);
    assert Large(s.c, v);
    forall q | Fit(s.c, nb, q)
      ensures nb <= dvsize <= s.c[q].size
    {
    }
  }

  // ---------- which chunk malloc takes ----------

  /** A binned chunk that malloc takes rather than the victim: any fit when the victim is too
      small; otherwise, for a small request, one of exactly the size or the next, and for a
      large one, a smaller one than the victim. */
  predicate Preferred(c: ChunkMap, dvsize: int, nb: int, q: int) {
    Fit(c, nb, q) && (dvsize < nb || if IsSmall(nb) then c[q].size <= nb + 8 && IsSmall(c[q].size) else c[q].size < dvsize)
  }

  ghost predicate SomePreferred(c: ChunkMap, dvsize: int, nb: int) {
    exists q {:trigger Preferred(c, dvsize, nb, q)} :: Preferred(c, dvsize, nb, q)
  }

  /** The smallest fit is preferred if any chunk is. */
  lemma SmallestPreferred(c: ChunkMap, dvsize: int, nb: int, p: int)
    requires Smallest(c, nb, p)
    requires dvsize < nb || (if IsSmall(nb) then c[p].size <= nb + 8 && IsSmall(c[p].size) else c[p].size < dvsize)
    ensures SomePreferred(c, dvsize, nb)
  {
    assert Preferred(c, dvsize, nb, p);
  }

  /** With the two lowest bins empty no small chunk is near enough. */
  lemma NoneNear(s: State, dvsize: int, nb: int)
    requires Core(s, NOBODY) && nb % 8 == 0 && 0 <= nb <= dvsize && IsSmall(nb)
    requires 0 <= s.smallmap && !Marked(s.smallmap, nb / 8) && !Marked(s.smallmap, nb / 8 + 1)
    ensures !SomePreferred(s.c, dvsize, nb)
  {
    hide Marked, Tagged, RecordsOk, TreesOk;
    forall q
      ensures !Preferred(s.c, dvsize, nb, q)
    {
      assert ListedOk(s, NOBODY, q);
      if Preferred(s.c, dvsize, nb, q) { NearBin(s, nb, q); }
    }
  }

  lemma NearBin(s: State, nb: int, q: int)
    requires Core(s, NOBODY) && nb % 8 == 0 && 0 <= nb && Fit(s.c, nb, q) && s.c[q].size <= nb + 8 && IsSmall(s.c[q].size)
    ensures 0 <= s.smallmap && (Marked(s.smallmap, nb / 8) || Marked(s.smallmap, nb / 8 + 1))
  {
    hide Marked, Tagged, RecordsOk, TreesOk;
    AboveLow(s.c, s.segs, q);
    assert ListedOk(s, NOBODY, q) && ShapeOk(s.c, s.segs, q);
    assert BinOk(s.mem, s.lists, s.smallmap, s.c[q].size / 8);
  }

  /** Without trees nothing is kept in trees. */
  lemma NoTrees(s: State, q: int)
    requires Core(s, NOBODY) && s.treemap == 0
    ensures !InTrees(s.nodes, q)
  {
    hide Marked, Tagged, RecordsOk, SmallOk, Pfx, Bit;
    if InTrees(s.nodes, q) {
      var n := NodeFor(s, q);
      RootAbove(s.mem, s.c, s.nodes, n);
      assert RootOk(s.mem, s.nodes, s.treemap, s.nodes[n].bin);
      EmptyMap(0);
      assert false;
    }
  }

  /** Nothing binned fits a small request. */
  lemma NothingSmall(s: State, dvsize: int, nb: int)
    requires Core(s, NOBODY) && s.treemap == 0 && 0 <= nb && nb % 8 == 0 && 0 <= s.smallmap
    requires forall j: nat {:trigger Marked(s.smallmap, j)} :: nb / 8 <= j < 32 ==> !Marked(s.smallmap, j)
    ensures !SomePreferred(s.c, dvsize, nb)
  {
    forall q
      ensures !Preferred(s.c, dvsize, nb, q)
    {
      NoTrees(s, q);
      if Fit(s.c, nb, q) { OnlyTreesFit(s, nb, q); }
    }
  }

  lemma NothingLarge(s: State, dvsize: int, nb: int)
    requires Core(s, NOBODY) && s.treemap == 0 && MIN_LARGE_SIZE <= nb
    ensures !SomePreferred(s.c, dvsize, nb)
  {
    LargeFits(s, nb);
    forall q
      ensures !Preferred(s.c, dvsize, nb, q)
    {
      NoTrees(s, q);
    }
  }

  /** Sizes are multiples of 8 below 2^64 - 1. */
  /** Nothing in the heap serves a request of nearly the whole address space. */
  lemma NothingHuge(s: State, dv: int, dvsize: int, top: int, topsize: int, nb: int)
    requires Core(s, NOBODY) && PointersOk(s, dv, dvsize, top, topsize) && nb >= U64 - LOW
    ensures OnlySystem(s.c, dvsize, topsize, nb)
  {
    forall q
      ensures !Preferred(s.c, dvsize, nb, q)
    {
      if q in s.c {
        assert ShapeOk(s.c, s.segs, q);
        AboveLow(s.c, s.segs, q);
        InsideOwnSegment(s, q);
      }
    }
    if dvsize != 0 { InsideOwnSegment(s, dv); }
    if |s.segs| > 0 { InsideOwnSegment(s, top); }
  }

  lemma InsideOwnSegment(s: State, q: int)
    requires Core(s, NOBODY) && q in s.c
    ensures s.c[q].size < U64 - LOW
  {
    InsideSegment(s.c, s.segs, q);
    AboveLow(s.c, s.segs, q);
    assert SegmentOk(s.segs, s.c[q].sid);
  }

  lemma SmallmapRange(s: State)
    requires Core(s, NOBODY)
    ensures 0 <= s.smallmap < U32 && 0 <= s.treemap < U32
    ensures !Marked(s.smallmap, 32)
  {
    Scale32();
    HighUnmarked(s.smallmap, 32, 32);
  }

  lemma VictimBound(s: State, dv: int, dvsize: int, top: int, topsize: int)
    requires Core(s, NOBODY) && PointersOk(s, dv, dvsize, top, topsize)
    ensures 0 <= dvsize < U64 - 1 && dvsize % 8 == 0 && 0 <= topsize < U64 - 1
    ensures top % 8 == 0 && dv % 8 == 0 && dv >= 0 && top >= 0
  {
    if dvsize != 0 {
      assert ShapeOk(s.c, s.segs, dv);
      InsideOwnSegment(s, dv);
      AboveLow(s.c, s.segs, dv);
    }
    if |s.segs| > 0 {
      assert ShapeOk(s.c, s.segs, top);
      InsideOwnSegment(s, top);
      AboveLow(s.c, s.segs, top);
      assert PointerOk(s.c, dv, dvsize, top, top);
    }
  }

  lemma SmallestThere(s: State, nb: int, p: int)
    requires Core(s, NOBODY) && Smallest(s.c, nb, p)
    ensures p in s.c && LOW <= p && p % 8 == 0
  {
    AboveLow(s.c, s.segs, p);
    assert ShapeOk(s.c, s.segs, p);
  }

  /** Neither bins nor victim nor top can serve the request. */
  ghost predicate OnlySystem(c: ChunkMap, dvsize: int, topsize: int, nb: int) {
    !SomePreferred(c, dvsize, nb) && dvsize < nb && topsize <= nb
  }

  /** Padding, where it is computed. */
  lemma PaddingFits(bytes: int)
    requires 0 <= bytes < U64
    ensures Request2Size(bytes) >= bytes + CHUNK_OVERHEAD && Request2Size(bytes) % 8 == 0 && MIN_CHUNK_SIZE <= Request2Size(bytes)
    ensures bytes < MAX_REQUEST ==> Request2Size(bytes) < U64 - 1
    ensures bytes <= MAX_SMALL_REQUEST ==> Request2Size(bytes) < MIN_LARGE_SIZE
    ensures MAX_SMALL_REQUEST < bytes ==> MIN_LARGE_SIZE <= Request2Size(bytes)
  {
    Request2SizeFits(bytes);
  }
}
