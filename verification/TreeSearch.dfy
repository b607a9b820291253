/** Why the two walks through a trie find the best fit: the path along the bits of the
    request, with the deepest right subtree not taken, and the leftmost path. */
module TreeSearch {
  import opened Words
  import opened Bits
  import opened Chunks
  import opened TreeBins

  /** m lies at or below the position of t. */
  ghost predicate InSub(c: ChunkMap, nodes: Nodes, t: int, m: int) {
    && t in nodes && m in nodes && NodeOk(c, nodes, t) && NodeOk(c, nodes, m)
    && nodes[m].bin == nodes[t].bin && nodes[m].depth >= nodes[t].depth
    && Pfx(c[m].size, nodes[t].bin, nodes[t].depth) == Pfx(c[t].size, nodes[t].bin, nodes[t].depth)
  }

  function LeftmostChild(mem: Mem, t: int): int {
    if Child(mem, t, 0) != 0 then Child(mem, t, 0) else Child(mem, t, 1)
  }

  lemma SmallerPrefix(s: int, t: int, i: int, d: nat)
    requires 0 <= s && 0 <= t && 0 <= i < 32 && Pfx(s, i, d) < Pfx(t, i, d)
    ensures s < t
  {
    if t <= s { PfxMonotone(t, s, i, d); }
  }

  /** Everything below t lies below the child that t has on the side of its next bit. */
  lemma SubChild(mem: Mem, c: ChunkMap, nodes: Nodes, t: int, m: int)
    requires TrieOk(mem, c, nodes) && InSub(c, nodes, t, m) && m != t
    ensures var i, d := nodes[t].bin, nodes[t].depth;
            d <= TopBit(i) && InSub(c, nodes, Child(mem, t, Bit(c[m].size, i, d)), m)
  {
    hide Pfx, Bit;
    if nodes[m].depth == nodes[t].depth { SamePosition(mem, c, nodes, m, t); }
    Descend(mem, c, nodes, t, m);
    assert NodeOk(c, nodes, Child(mem, t, Bit(c[m].size, nodes[t].bin, nodes[t].depth)));
  }

  /** A child of t agrees with t on the prefix of t, and its next bit is its side. */
  lemma ChildPrefix(mem: Mem, c: ChunkMap, nodes: Nodes, t: int, b: int)
    requires TrieOk(mem, c, nodes) && t in nodes && NodeOk(c, nodes, t) && 0 <= b <= 1 && Child(mem, t, b) != 0
    ensures var x, i, d := Child(mem, t, b), nodes[t].bin, nodes[t].depth;
            && d <= TopBit(i) && x in nodes && NodeOk(c, nodes, x) && nodes[x].bin == i && nodes[x].depth == d + 1
            && Pfx(c[x].size, i, d + 1) == 2 * Pfx(c[t].size, i, d) + b
  {
    hide Pfx, Bit;
    assert DownOk(mem, c, nodes, t, b);
    var x := Child(mem, t, b);
    assert NodeOk(c, nodes, x) && UpOk(mem, c, nodes, x);
    PfxStep(c[x].size, nodes[t].bin, nodes[t].depth);
  }

  /** The leftmost child of t precedes everything below t that is not below itself. */
  lemma LeftmostStep(mem: Mem, c: ChunkMap, nodes: Nodes, t: int, m: int)
    requires TrieOk(mem, c, nodes) && InSub(c, nodes, t, m) && m != t
    ensures var x := LeftmostChild(mem, t);
            x != 0 && x in nodes && NodeOk(c, nodes, x) && (InSub(c, nodes, x, m) || c[x].size < c[m].size)
  {
    hide Pfx, Bit;
    SubChild(mem, c, nodes, t, m);
    var i, d := nodes[t].bin, nodes[t].depth;
    var x, y := LeftmostChild(mem, t), Child(mem, t, Bit(c[m].size, i, d));
    if x != y {
      ChildPrefix(mem, c, nodes, t, 0);
      ChildPrefix(mem, c, nodes, t, 1);
      SmallerPrefix(c[x].size, c[m].size, i, d + 1);
    }
  }

  /** A chunk in the trees with room for nb bytes. */
  ghost predicate Fits(c: ChunkMap, nodes: Nodes, nb: int, m: int) {
    m in nodes && NodeOk(c, nodes, m) && nb <= c[m].size
  }

  // ---------- the walk along the bits of the request ----------

  /** t is on the path of nb in bin i. */
  ghost predicate OnPath(c: ChunkMap, nodes: Nodes, nb: int, i: int, t: int)
    requires 0 <= nb && 0 <= i < 32
  {
    t in nodes && NodeOk(c, nodes, t) && nodes[t].bin == i
    && Pfx(c[t].size, i, nodes[t].depth) == Pfx(nb, i, nodes[t].depth)
  }

  /** rst is a right subtree passed over at or above depth d. */
  ghost predicate PassedRight(c: ChunkMap, nodes: Nodes, nb: int, i: int, d: int, rst: int)
    requires 0 <= nb && 0 <= i < 32
  {
    rst in nodes && NodeOk(c, nodes, rst) && nodes[rst].bin == i && nodes[rst].depth <= d
    && Pfx(c[rst].size, i, nodes[rst].depth) > Pfx(nb, i, nodes[rst].depth)
  }

  /** Everything in a passed right subtree is larger than nb, and than every later node on the path. */
  lemma PassedLarger(c: ChunkMap, nodes: Nodes, nb: int, i: int, d: int, rst: int, m: int)
    requires 0 <= nb && 0 <= i < 32 && PassedRight(c, nodes, nb, i, d, rst) && InSub(c, nodes, rst, m)
    ensures nb < c[m].size
    ensures forall t {:trigger OnPath(c, nodes, nb, i, t)} ::
              OnPath(c, nodes, nb, i, t) && nodes[t].depth >= d ==> c[t].size < c[m].size
  {
    hide Pfx;
    var e := nodes[rst].depth;
    SmallerPrefix(nb, c[m].size, i, e);
    forall t | OnPath(c, nodes, nb, i, t) && nodes[t].depth >= d
      ensures c[t].size < c[m].size
    {
      PfxShorter(c[t].size, nb, i, nodes[t].depth, e);
      SmallerPrefix(c[t].size, c[m].size, i, e);
    }
  }

  /** One step down the path: a fitting m below t is t, or below the next node, or below the
      right child that the step passes over. */
  lemma PathStep(mem: Mem, c: ChunkMap, nodes: Nodes, nb: int, i: int, t: int, m: int)
    requires TrieOk(mem, c, nodes) && 0 <= nb && 0 <= i < 32
    requires OnPath(c, nodes, nb, i, t) && InSub(c, nodes, t, m) && nb <= c[m].size && m != t
    ensures var b := Bit(nb, i, nodes[t].depth);
            || (Child(mem, t, b) != 0 && InSub(c, nodes, Child(mem, t, b), m))
            || (b == 0 && Child(mem, t, 1) != 0 && InSub(c, nodes, Child(mem, t, 1), m))
  {
    hide Pfx, Bit;
    SubChild(mem, c, nodes, t, m);
    var d := nodes[t].depth;
    var b, e := Bit(nb, i, d), Bit(c[m].size, i, d);
    PfxStep(nb, i, d);
    PfxStep(c[m].size, i, d);
    if b == 1 && e == 0 { SmallerPrefix(c[m].size, nb, i, d + 1); }
  }

  /** The next node is on the path, and a right child passed over is to the right of it. */
  lemma PathChildren(mem: Mem, c: ChunkMap, nodes: Nodes, nb: int, i: int, t: int)
    requires TrieOk(mem, c, nodes) && 0 <= nb && 0 <= i < 32 && OnPath(c, nodes, nb, i, t)
    ensures var d := nodes[t].depth;
            var b := Bit(nb, i, d);
            && (Child(mem, t, b) != 0 ==> OnPath(c, nodes, nb, i, Child(mem, t, b)) && nodes[Child(mem, t, b)].depth == d + 1)
            && (b == 0 && Child(mem, t, 1) != 0 ==>
                  PassedRight(c, nodes, nb, i, d + 1, Child(mem, t, 1)) && Child(mem, t, 1) != Child(mem, t, 0)
                  && nodes[Child(mem, t, 1)].depth == d + 1)
  {
    hide Pfx, Bit;
    var d := nodes[t].depth;
    var b := Bit(nb, i, d);
    if Child(mem, t, 0) != 0 { ChildPrefix(mem, c, nodes, t, 0); }
    if Child(mem, t, 1) != 0 { ChildPrefix(mem, c, nodes, t, 1); }
    if d <= TopBit(i) { PfxStep(nb, i, d); }
  }

  /** In the walk below t with the subtree rst passed over, m has been met, or is still to
      come, or is larger than something still to come. */
  ghost predicate Pending(c: ChunkMap, nodes: Nodes, v: int, t: int, rst: int, m: int) {
    || (v in nodes && v in c && m in c && c[v].size <= c[m].size)
    || InSub(c, nodes, t, m)
    || (rst in nodes && rst in c && m in c && (InSub(c, nodes, rst, m) || c[rst].size < c[m].size))
  }

  /** The choice made at t, the step to the next node t' and the update of rst keep every
      fitting chunk of the bin pending. */
  lemma PathPending(mem: Mem, c: ChunkMap, nodes: Nodes, nb: int, i: int, v: int, v': int, t: int, rst: int, m: int)
    requires TrieOk(mem, c, nodes) && 0 <= nb && 0 <= i < 32
    requires OnPath(c, nodes, nb, i, t) && Fits(c, nodes, nb, m) && nodes[m].bin == i
    requires rst in nodes ==> PassedRight(c, nodes, nb, i, nodes[t].depth, rst)
    requires Pending(c, nodes, v, t, rst, m)
    requires v in nodes ==> v' in nodes && v in c && v' in c && c[v'].size <= c[v].size
    requires nb <= c[t].size ==> v' in nodes && v' in c && c[v'].size <= c[t].size
    ensures var b := Bit(nb, i, nodes[t].depth);
            var t', rt := Child(mem, t, b), Child(mem, t, 1);
            Pending(c, nodes, v', t', if rt != 0 && rt != t' then rt else rst, m)
  {
    hide Pfx, Bit;
    var d := nodes[t].depth;
    var b := Bit(nb, i, d);
    var t', rt := Child(mem, t, b), Child(mem, t, 1);
    PathChildren(mem, c, nodes, nb, i, t);
    if InSub(c, nodes, t, m) {
      if m != t { PathStep(mem, c, nodes, nb, i, t, m); }
    } else if rst in nodes && (InSub(c, nodes, rst, m) || c[rst].size < c[m].size) && rt != 0 && rt != t' {
      RightBelowPassed(mem, c, nodes, nb, i, t, rst);
    }
  }

  /** A right child of the path is smaller than any right subtree passed over before. */
  lemma RightBelowPassed(mem: Mem, c: ChunkMap, nodes: Nodes, nb: int, i: int, t: int, rst: int)
    requires TrieOk(mem, c, nodes) && 0 <= nb && 0 <= i < 32 && OnPath(c, nodes, nb, i, t)
    requires PassedRight(c, nodes, nb, i, nodes[t].depth, rst) && Child(mem, t, 1) != 0
    ensures var rt := Child(mem, t, 1);
            && rt in nodes && NodeOk(c, nodes, rt) && c[rt].size < c[rst].size
            && forall m {:trigger InSub(c, nodes, rst, m)} :: InSub(c, nodes, rst, m) ==> c[rt].size < c[m].size
  {
    hide Pfx, Bit;
    var rt := Child(mem, t, 1);
    var d, e := nodes[t].depth, nodes[rst].depth;
    ChildPrefix(mem, c, nodes, t, 1);
    PfxShorter(c[t].size, nb, i, d, e);
    ChildShares(mem, c, nodes, t, 1, e);
    assert InSub(c, nodes, rst, rst);
    forall m | InSub(c, nodes, rst, m)
      ensures c[rt].size < c[m].size
    {
      SmallerPrefix(c[rt].size, c[m].size, i, e);
    }
  }

  lemma ChildShares(mem: Mem, c: ChunkMap, nodes: Nodes, t: int, b: int, e: nat)
    requires TrieOk(mem, c, nodes) && t in nodes && NodeOk(c, nodes, t) && 0 <= b <= 1 && Child(mem, t, b) != 0
    requires e <= nodes[t].depth
    ensures Child(mem, t, b) in nodes && NodeOk(c, nodes, Child(mem, t, b))
    ensures Pfx(c[Child(mem, t, b)].size, nodes[t].bin, e) == Pfx(c[t].size, nodes[t].bin, e)
  {
    hide Pfx, Bit;
    assert DownOk(mem, c, nodes, t, b);
    var x := Child(mem, t, b);
    assert NodeOk(c, nodes, x) && UpOk(mem, c, nodes, x);
    PfxShorter(c[x].size, c[t].size, nodes[t].bin, nodes[t].depth, e);
  }

  // ---------- the search for a place to insert ----------

  /** The walk of an insertion has reached t: it is on the path of s, k shows the next bit of
      s on top, and no node above has size s. */
  ghost predicate SearchAt(c: ChunkMap, nodes: Nodes, s: int, i: int, t: int, k: int)
    requires 0 <= s && 0 <= i < 32
  {
    && OnPath(c, nodes, s, i, t) && Aligned(k, s, i, nodes[t].depth)
    && forall n {:trigger NodeOk(c, nodes, n)} ::
         n in nodes && NodeOk(c, nodes, n) && nodes[n].bin == i && nodes[n].depth < nodes[t].depth ==> c[n].size != s
  }

  /** One step of an insertion below a node of another size: go on, or attach here. */
  lemma SearchStep(mem: Mem, c: ChunkMap, nodes: Nodes, s: int, i: int, t: int, k: int, x: int)
    requires TrieOk(mem, c, nodes) && MIN_LARGE_SIZE <= s < U64 && 0 <= i < 32 && i == TreeIndex(s)
    requires SearchAt(c, nodes, s, i, t, k) && c[t].size != s
    requires Large(c, x) && c[x].size == s && x !in nodes
    ensures var d := nodes[t].depth;
            && d <= TopBit(i) && SignBit(k) == Bit(s, i, d)
            && (Child(mem, t, SignBit(k)) != 0 ==>
                  SearchAt(c, nodes, s, i, Child(mem, t, SignBit(k)), Double(k))
                  && nodes[Child(mem, t, SignBit(k))].depth == d + 1)
            && (Child(mem, t, SignBit(k)) == 0 ==> CanAttach(mem, c, nodes, t, x))
  {
    hide Bit, Double, SignBit, Aligned;
    var d := nodes[t].depth;
    assert d <= TopBit(i);
    AlignedSignBit(k, s, i, d);
    PathChildren(mem, c, nodes, s, i, t);
    forall n | n in nodes && NodeOk(c, nodes, n) && nodes[n].bin == i && nodes[n].depth <= d
      ensures c[n].size != s
    {
      if nodes[n].depth == d && c[n].size == s { SamePosition(mem, c, nodes, n, t); }
    }
    if Child(mem, t, Bit(s, i, d)) == 0 {
      forall n | n in nodes && n in c
        ensures c[n].size != s
      {
        assert NodeOk(c, nodes, n);
        if c[n].size == s { AbsentBelow(mem, c, nodes, s, i, t, n); }
      }
    }
  }

  /** A node of size s below the position of t would be reached through the empty slot. */
  lemma AbsentBelow(mem: Mem, c: ChunkMap, nodes: Nodes, s: int, i: int, t: int, n: int)
    requires TrieOk(mem, c, nodes) && 0 <= s && 0 <= i < 32 && i == TreeIndex(s) && OnPath(c, nodes, s, i, t)
    requires n in nodes && NodeOk(c, nodes, n) && c[n].size == s
    requires Child(mem, t, Bit(s, i, nodes[t].depth)) == 0
    ensures nodes[n].depth <= nodes[t].depth
  {
    hide Pfx, Bit;
    if nodes[n].depth > nodes[t].depth { Descend(mem, c, nodes, t, n); }
  }
}
