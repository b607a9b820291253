/** The tree bins: bitwise tries of distinct sizes, each node heading a ring of all free
    chunks of its size.

    The invariant of a trie is local: a node at depth d agrees with its parent on the first
    d - 1 undecided bits of the size and hangs on the side its next bit says. That the tree
    positions are unique and that every subtree is reachable follow (SamePosition, Descend). */
module TreeBins {
  import opened Words
  import opened Bits
  import opened BinMaps
  import opened Chunks

  /** A tree member: its bin, its depth, and its ring of same-sized chunks, itself first. */
  datatype Node = Node(bin: int, depth: int, ring: seq<int>)

  type Nodes = map<int, Node>

  // ---------- words ----------

  predicate TreeLink(c: ChunkMap, q: int, a: int) {
    LinkWord(c, q, a) && !IsSmall(c[q].size)
  }

  ghost predicate TreeWord(c: ChunkMap, a: int) {
    TREEBINS <= a < SEG_HEAD || exists q {:trigger TreeLink(c, q, a)} :: TreeLink(c, q, a)
  }

  ghost predicate OnlyTreeWords(mem: Mem, mem': Mem, c: ChunkMap) {
    forall a {:trigger Rd(mem', a)} :: !TreeWord(c, a) ==> Rd(mem', a) == Rd(mem, a)
  }

  /** A chunk that may be kept in a tree bin. */
  predicate Large(c: ChunkMap, x: int) {
    LOW <= x && x in c && c[x].st == Binned && MIN_LARGE_SIZE <= c[x].size < U64
  }

  lemma LargeApart(c: ChunkMap, segs: seq<Segment>, x: int, y: int)
    requires Tiled(c, segs) && Large(c, x) && Large(c, y) && x != y
    ensures x + 256 <= y || y + 256 <= x
  {
    Distinct(c, segs, x, y);
    assert ShapeOk(c, segs, x) && ShapeOk(c, segs, y);
  }

  lemma LargeWords(c: ChunkMap, segs: seq<Segment>, x: int, a: int)
    requires Tiled(c, segs) && Large(c, x) && x + 16 <= a < x + 64
    ensures TreeWord(c, a) && x >= LOW
  {
    assert TreeLink(c, x, a);
    AboveLow(c, segs, x);
  }

  // ---------- the trie ----------

  predicate NodeOk(c: ChunkMap, nodes: Nodes, n: int) {
    n in nodes ==>
      && Large(c, n)
      && 0 <= nodes[n].bin < 32 && nodes[n].bin == TreeIndex(c[n].size)
      && 0 <= nodes[n].depth <= TopBit(nodes[n].bin) + 1
  }

  /** The address of the word that links to a node: the root pointer or a child slot. */
  function Slot(mem: Mem, c: ChunkMap, nodes: Nodes, n: int): int
    requires n in nodes && NodeOk(c, nodes, n)
  {
    var d := nodes[n];
    if d.depth == 0 then TreeBinAt(d.bin)
    else Rd(mem, n + PARENT) + CHILD + 8 * Bit(c[n].size, d.bin, d.depth - 1)
  }

  predicate UpOk(mem: Mem, c: ChunkMap, nodes: Nodes, n: int) {
    n in nodes && NodeOk(c, nodes, n) ==>
      var d := nodes[n];
      var p := Rd(mem, n + PARENT);
      && Rd(mem, Slot(mem, c, nodes, n)) == n
      && (if d.depth == 0 then
            p == TreeBinAt(d.bin)
          else
            && p in nodes && nodes[p].bin == d.bin && nodes[p].depth == d.depth - 1
            && Large(c, p)
            && Pfx(c[p].size, d.bin, d.depth - 1) == Pfx(c[n].size, d.bin, d.depth - 1))
  }

  function Child(mem: Mem, n: int, b: int): int {
    Rd(mem, n + CHILD + 8 * b)
  }

  predicate DownOk(mem: Mem, c: ChunkMap, nodes: Nodes, n: int, b: int) {
    n in nodes && NodeOk(c, nodes, n) && 0 <= b <= 1 && Child(mem, n, b) != 0 ==>
      var d := nodes[n];
      var x := Child(mem, n, b);
      && d.depth <= TopBit(d.bin)
      && x in nodes && nodes[x].bin == d.bin && nodes[x].depth == d.depth + 1
      && Large(c, x)
      && Rd(mem, x + PARENT) == n && Bit(c[x].size, d.bin, d.depth) == b
  }

  predicate SizesDiffer(c: ChunkMap, nodes: Nodes, n: int, m: int) {
    n in nodes && m in nodes && n in c && m in c && n != m ==> c[n].size != c[m].size
  }

  predicate RootOk(mem: Mem, nodes: Nodes, treemap: int, i: int) {
    0 <= i < 32 && 0 <= treemap ==>
      var r := Rd(mem, TreeBinAt(i));
      && (Marked(treemap, i) <==> r != 0)
      && (r != 0 ==> r in nodes && nodes[r].bin == i && nodes[r].depth == 0)
  }

  /** All tries, without their rings and the bin map. */
  ghost predicate TrieOk(mem: Mem, c: ChunkMap, nodes: Nodes) {
    && (forall n {:trigger NodeOk(c, nodes, n)} :: NodeOk(c, nodes, n))
    && (forall n {:trigger UpOk(mem, c, nodes, n)} :: UpOk(mem, c, nodes, n))
    && (forall n, b {:trigger DownOk(mem, c, nodes, n, b)} :: DownOk(mem, c, nodes, n, b))
    && (forall n, m {:trigger SizesDiffer(c, nodes, n, m)} :: SizesDiffer(c, nodes, n, m))
  }

  ghost predicate RootsOk(mem: Mem, nodes: Nodes, treemap: int) {
    && 0 <= treemap < U32
    && forall i {:trigger RootOk(mem, nodes, treemap, i)} :: RootOk(mem, nodes, treemap, i)
  }

  // ---------- positions are unique ----------

  /** Two nodes of one bin at the same depth whose sizes share that many bits are the same node. */
  lemma {:induction false} SamePosition(mem: Mem, c: ChunkMap, nodes: Nodes, n: int, m: int)
    requires TrieOk(mem, c, nodes) && n in nodes && m in nodes
    requires NodeOk(c, nodes, n) && NodeOk(c, nodes, m)
    requires nodes[n].bin == nodes[m].bin && nodes[n].depth == nodes[m].depth
    requires Pfx(c[n].size, nodes[n].bin, nodes[n].depth) == Pfx(c[m].size, nodes[n].bin, nodes[n].depth)
    ensures n == m
    decreases nodes[n].depth
  {
    hide Pfx, Bit;
    var i, d := nodes[n].bin, nodes[n].depth;
    assert UpOk(mem, c, nodes, n) && UpOk(mem, c, nodes, m);
    if d > 0 {
      var p, q := Rd(mem, n + PARENT), Rd(mem, m + PARENT);
      assert NodeOk(c, nodes, p) && NodeOk(c, nodes, q);
      PfxStep(c[n].size, i, d - 1);
      PfxStep(c[m].size, i, d - 1);
      SamePosition(mem, c, nodes, p, q);
    }
  }

  /** A node below the position of t lies below the child of t on the side of its next bit. */
  lemma {:induction false} Descend(mem: Mem, c: ChunkMap, nodes: Nodes, t: int, m: int)
    requires TrieOk(mem, c, nodes) && t in nodes && m in nodes
    requires NodeOk(c, nodes, t) && NodeOk(c, nodes, m)
    requires nodes[m].bin == nodes[t].bin && nodes[m].depth > nodes[t].depth
    requires Pfx(c[m].size, nodes[t].bin, nodes[t].depth) == Pfx(c[t].size, nodes[t].bin, nodes[t].depth)
    ensures var d := nodes[t].depth;
            var x := Child(mem, t, Bit(c[m].size, nodes[t].bin, d));
            && x != 0 && x in nodes && Large(c, x)
            && nodes[x].bin == nodes[t].bin && nodes[x].depth == d + 1 && d <= TopBit(nodes[t].bin)
            && Pfx(c[x].size, nodes[t].bin, d + 1) == Pfx(c[m].size, nodes[t].bin, d + 1)
    decreases nodes[m].depth
  {
    hide Pfx, Bit;
    var i, d, e := nodes[t].bin, nodes[t].depth, nodes[m].depth;
    assert UpOk(mem, c, nodes, m);
    var p := Rd(mem, m + PARENT);
    assert NodeOk(c, nodes, p);
    if e == d + 1 {
      SamePosition(mem, c, nodes, p, t);
    } else {
      PfxShorter(c[p].size, c[m].size, i, e - 1, d);
      PfxShorter(c[p].size, c[m].size, i, e - 1, d + 1);
      PfxStep(c[p].size, i, d);
      PfxStep(c[m].size, i, d);
      Descend(mem, c, nodes, t, p);
    }
  }

  // ---------- attaching, detaching and replacing nodes ----------

  /** Attaching x as a leaf below t, whose slot for x is empty. */
  ghost predicate CanAttach(mem: Mem, c: ChunkMap, nodes: Nodes, t: int, x: int) {
    && Large(c, x) && x !in nodes
    && t in nodes && NodeOk(c, nodes, t)
    && nodes[t].depth <= TopBit(nodes[t].bin)
    && nodes[t].bin == TreeIndex(c[x].size)
    && Pfx(c[t].size, nodes[t].bin, nodes[t].depth) == Pfx(c[x].size, nodes[t].bin, nodes[t].depth)
    && Child(mem, t, Bit(c[x].size, nodes[t].bin, nodes[t].depth)) == 0
    && forall n {:trigger SizesDiffer(c, nodes, n, x)} :: n in nodes && n in c ==> c[n].size != c[x].size
  }

  /** x has become a leaf at the address slot, with parent up; nothing else of any trie has changed. */
  ghost predicate LinkedLeaf(mem: Mem, mem': Mem, c: ChunkMap, x: int, slot: int, up: int) {
    && Rd(mem', slot) == x && Rd(mem', x + PARENT) == up
    && Rd(mem', x + CHILD) == 0 && Rd(mem', x + CHILD + 8) == 0
    && (forall a {:trigger Rd(mem', a)} :: a != slot && !(x + 16 <= a < x + 64) ==> Rd(mem', a) == Rd(mem, a))
  }

  lemma AttachLeaf(mem: Mem, mem': Mem, c: ChunkMap, segs: seq<Segment>, nodes: Nodes, t: int, x: int)
    requires Tiled(c, segs) && TrieOk(mem, c, nodes) && CanAttach(mem, c, nodes, t, x)
    requires var d := nodes[t]; LinkedLeaf(mem, mem', c, x, t + CHILD + 8 * Bit(c[x].size, d.bin, d.depth), t)
    ensures TrieOk(mem', c, nodes[x := Node(nodes[t].bin, nodes[t].depth + 1, [x])])
  {
    hide Pfx, Bit;
    var i, d := nodes[t].bin, nodes[t].depth;
    var nodes' := nodes[x := Node(i, d + 1, [x])];
    LargeApart(c, segs, t, x);
    forall n
      ensures NodeOk(c, nodes', n)
    {
      assert NodeOk(c, nodes, n);
    }
    forall n
      ensures UpOk(mem', c, nodes', n)
    {
      assert NodeOk(c, nodes, n) && UpOk(mem, c, nodes, n) && SizesDiffer(c, nodes, n, x);
      if n in nodes {
        LargeApart(c, segs, n, x);
        var p := Rd(mem, n + PARENT);
        assert n != t ==> n + 256 <= t || t + 256 <= n by { if n != t { LargeApart(c, segs, n, t); } }
        if nodes[n].depth > 0 {
          LargeApart(c, segs, p, x);
          assert p != t ==> p + 256 <= t || t + 256 <= p by { if p != t { LargeApart(c, segs, p, t); } }
        }
      }
    }
    forall n, b
      ensures DownOk(mem', c, nodes', n, b)
    {
      AttachDown(mem, mem', c, segs, nodes, t, x, n, b);
    }
    forall n, m
      ensures SizesDiffer(c, nodes', n, m)
    {
      assert SizesDiffer(c, nodes, n, m) && SizesDiffer(c, nodes, n, x) && SizesDiffer(c, nodes, m, x);
    }
  }

  lemma AttachDown(mem: Mem, mem': Mem, c: ChunkMap, segs: seq<Segment>, nodes: Nodes, t: int, x: int, n: int, b: int)
    requires Tiled(c, segs) && TrieOk(mem, c, nodes) && CanAttach(mem, c, nodes, t, x)
    requires var d := nodes[t]; LinkedLeaf(mem, mem', c, x, t + CHILD + 8 * Bit(c[x].size, d.bin, d.depth), t)
    ensures DownOk(mem', c, nodes[x := Node(nodes[t].bin, nodes[t].depth + 1, [x])], n, b)
  {
    hide Pfx, Bit;
    LargeApart(c, segs, t, x);
    assert NodeOk(c, nodes, n) && DownOk(mem, c, nodes, n, b);
    if n in nodes && n != x && 0 <= b <= 1 {
      LargeApart(c, segs, n, x);
      if n != t { LargeApart(c, segs, n, t); }
      var y := Child(mem, n, b);
      if y != 0 {
        LargeApart(c, segs, y, x);
        if y != t { LargeApart(c, segs, y, t); }
      }
    }
  }

  /** A bin with any node has a root. */
  lemma {:induction false} RootAbove(mem: Mem, c: ChunkMap, nodes: Nodes, n: int)
    requires TrieOk(mem, c, nodes) && n in nodes && NodeOk(c, nodes, n)
    ensures Rd(mem, TreeBinAt(nodes[n].bin)) != 0
    decreases nodes[n].depth
  {
    hide Pfx, Bit;
    assert UpOk(mem, c, nodes, n);
    if nodes[n].depth > 0 {
      var p := Rd(mem, n + PARENT);
      assert NodeOk(c, nodes, p);
      RootAbove(mem, c, nodes, p);
    }
  }

  /** Starting a new trie. */
  lemma AttachRoot(mem: Mem, mem': Mem, c: ChunkMap, segs: seq<Segment>, nodes: Nodes, x: int, i: int)
    requires Tiled(c, segs) && TrieOk(mem, c, nodes) && Large(c, x) && x !in nodes
    requires 0 <= i < 32 && i == TreeIndex(c[x].size) && Rd(mem, TreeBinAt(i)) == 0
    requires LinkedLeaf(mem, mem', c, x, TreeBinAt(i), TreeBinAt(i))
    ensures TrieOk(mem', c, nodes[x := Node(i, 0, [x])])
  {
    hide Pfx, Bit;
    var nodes' := nodes[x := Node(i, 0, [x])];
    forall n
      ensures NodeOk(c, nodes', n)
      ensures n in nodes ==> nodes[n].bin != i
    {
      assert NodeOk(c, nodes, n);
      if n in nodes { RootAbove(mem, c, nodes, n); }
    }
    forall n
      ensures UpOk(mem', c, nodes', n)
    {
      assert NodeOk(c, nodes, n) && UpOk(mem, c, nodes, n);
      if n in nodes {
        LargeApart(c, segs, n, x);
        if nodes[n].depth > 0 { LargeApart(c, segs, Rd(mem, n + PARENT), x); }
      }
    }
    forall n, b
      ensures DownOk(mem', c, nodes', n, b)
    {
      assert NodeOk(c, nodes, n) && DownOk(mem, c, nodes, n, b);
      if n in nodes && 0 <= b <= 1 {
        LargeApart(c, segs, n, x);
        var y := Child(mem, n, b);
        if y != 0 { LargeApart(c, segs, y, x); }
      }
    }
    forall n, m
      ensures SizesDiffer(c, nodes', n, m)
    {
      assert SizesDiffer(c, nodes, n, m);
    }
  }

  ghost predicate IsLeaf(mem: Mem, nodes: Nodes, r: int) {
    r in nodes && Child(mem, r, 0) == 0 && Child(mem, r, 1) == 0
  }

  /** Clearing the slot of a leaf removes it from its trie. */
  lemma DetachLeaf(mem: Mem, mem': Mem, c: ChunkMap, segs: seq<Segment>, nodes: Nodes, r: int)
    requires Tiled(c, segs) && TrieOk(mem, c, nodes) && IsLeaf(mem, nodes, r)
    requires NodeOk(c, nodes, r)
    requires Rd(mem', Slot(mem, c, nodes, r)) == 0
    requires forall a {:trigger Rd(mem', a)} :: a != Slot(mem, c, nodes, r) ==> Rd(mem', a) == Rd(mem, a)
    ensures TrieOk(mem', c, nodes - {r})
  {
    hide Pfx, Bit;
    var nodes' := nodes - {r};
    assert UpOk(mem, c, nodes, r);
    forall n
      ensures NodeOk(c, nodes', n)
    {
      assert NodeOk(c, nodes, n);
    }
    forall n
      ensures UpOk(mem', c, nodes', n)
    {
      DetachUp(mem, mem', c, segs, nodes, r, n);
    }
    forall n, b
      ensures DownOk(mem', c, nodes', n, b)
    {
      DetachDown(mem, mem', c, segs, nodes, r, n, b);
    }
    forall n, m
      ensures SizesDiffer(c, nodes', n, m)
    {
      assert SizesDiffer(c, nodes, n, m);
    }
  }

  /** The slot of a node lies in the root area or in the child words of its parent. */
  lemma SlotWhere(mem: Mem, c: ChunkMap, nodes: Nodes, n: int)
    requires TrieOk(mem, c, nodes) && n in nodes && NodeOk(c, nodes, n)
    ensures var s := Slot(mem, c, nodes, n);
            if nodes[n].depth == 0 then s == TreeBinAt(nodes[n].bin)
            else
              var p := Rd(mem, n + PARENT);
              p in nodes && Large(c, p) && nodes[p].bin == nodes[n].bin && nodes[p].depth == nodes[n].depth - 1
              && (s == p + CHILD || s == p + CHILD + 8)
              && s == p + CHILD + 8 * Bit(c[n].size, nodes[n].bin, nodes[n].depth - 1)
    ensures Rd(mem, Slot(mem, c, nodes, n)) == n
  {
    hide Pfx;
    assert UpOk(mem, c, nodes, n);
  }

  lemma DetachUp(mem: Mem, mem': Mem, c: ChunkMap, segs: seq<Segment>, nodes: Nodes, r: int, n: int)
    requires Tiled(c, segs) && TrieOk(mem, c, nodes) && IsLeaf(mem, nodes, r)
    requires NodeOk(c, nodes, r)
    requires forall a {:trigger Rd(mem', a)} :: a != Slot(mem, c, nodes, r) ==> Rd(mem', a) == Rd(mem, a)
    ensures UpOk(mem', c, nodes - {r}, n)
  {
    hide Pfx, Bit, Slot;
    assert NodeOk(c, nodes, n) && UpOk(mem, c, nodes, n);
    SlotWhere(mem, c, nodes, r);
    if n in nodes && n != r {
      SlotWhere(mem, c, nodes, n);
      var s := Slot(mem, c, nodes, r);
      assert Slot(mem, c, nodes, n) != s;
      if nodes[r].depth > 0 {
        var q := Rd(mem, r + PARENT);
        if n != q { LargeApart(c, segs, n, q); }
      }
      if nodes[n].depth > 0 {
        var p := Rd(mem, n + PARENT);
        assert Child(mem, p, 0) == n || Child(mem, p, 1) == n;
      }
      assert Rd(mem', n + PARENT) == Rd(mem, n + PARENT);
      SlotDef(mem, c, nodes, n);
      if n in nodes - {r} && NodeOk(c, nodes - {r}, n) { SlotDef(mem', c, nodes - {r}, n); }
    }
  }

  lemma SlotDef(mem: Mem, c: ChunkMap, nodes: Nodes, n: int)
    requires n in nodes && NodeOk(c, nodes, n)
    ensures Slot(mem, c, nodes, n) ==
            if nodes[n].depth == 0 then TreeBinAt(nodes[n].bin)
            else Rd(mem, n + PARENT) + CHILD + 8 * Bit(c[n].size, nodes[n].bin, nodes[n].depth - 1)
  {
  }

  lemma DetachDown(mem: Mem, mem': Mem, c: ChunkMap, segs: seq<Segment>, nodes: Nodes, r: int, n: int, b: int)
    requires Tiled(c, segs) && TrieOk(mem, c, nodes) && IsLeaf(mem, nodes, r)
    requires NodeOk(c, nodes, r)
    requires Rd(mem', Slot(mem, c, nodes, r)) == 0
    requires forall a {:trigger Rd(mem', a)} :: a != Slot(mem, c, nodes, r) ==> Rd(mem', a) == Rd(mem, a)
    ensures DownOk(mem', c, nodes - {r}, n, b)
  {
    hide Pfx, Bit;
    assert NodeOk(c, nodes, n) && DownOk(mem, c, nodes, n, b);
    SlotWhere(mem, c, nodes, r);
    if n in nodes && n != r && 0 <= b <= 1 {
      var s := Slot(mem, c, nodes, r);
      var y := Child(mem, n, b);
      if nodes[r].depth > 0 {
        var q := Rd(mem, r + PARENT);
        if n != q { LargeApart(c, segs, n, q); }
        if y != 0 && y != q { LargeApart(c, segs, y, q); }
      }
    }
  }

  /** r may take the place of x: it is loose, childless, and its size has the prefix of x. */
  ghost predicate CanSubstitute(mem: Mem, c: ChunkMap, nodes: Nodes, x: int, r: int) {
    && x in nodes && NodeOk(c, nodes, x)
    && r !in nodes && Large(c, r) && TreeIndex(c[r].size) == nodes[x].bin
    && Pfx(c[r].size, nodes[x].bin, nodes[x].depth) == Pfx(c[x].size, nodes[x].bin, nodes[x].depth)
    && Child(mem, r, 0) == 0 && Child(mem, r, 1) == 0
    && forall n {:trigger SizesDiffer(c, nodes, n, r)} :: n in nodes && n in c && n != x ==> c[n].size != c[r].size
  }

  /** The links of x now lead to and from r. */
  ghost predicate Relinked(mem: Mem, mem': Mem, c: ChunkMap, nodes: Nodes, x: int, r: int)
    requires x in nodes && NodeOk(c, nodes, x)
  {
    var s, c0, c1 := Slot(mem, c, nodes, x), Child(mem, x, 0), Child(mem, x, 1);
    && Rd(mem', s) == r && Rd(mem', r + PARENT) == Rd(mem, x + PARENT)
    && Child(mem', r, 0) == c0 && Child(mem', r, 1) == c1
    && (c0 != 0 ==> Rd(mem', c0 + PARENT) == r)
    && (c1 != 0 ==> Rd(mem', c1 + PARENT) == r)
    && (forall a {:trigger Rd(mem', a)} ::
          a == s || r + CHILD <= a <= r + PARENT || (c0 != 0 && a == c0 + PARENT) || (c1 != 0 && a == c1 + PARENT)
          || Rd(mem', a) == Rd(mem, a))
  }

  function Replace(nodes: Nodes, x: int, r: int, ring: seq<int>): Nodes
    requires x in nodes
  {
    (nodes - {x})[r := nodes[x].(ring := ring)]
  }

  lemma Substitute(mem: Mem, mem': Mem, c: ChunkMap, segs: seq<Segment>, nodes: Nodes, x: int, r: int, ring: seq<int>)
    requires Tiled(c, segs) && TrieOk(mem, c, nodes) && CanSubstitute(mem, c, nodes, x, r)
    requires Relinked(mem, mem', c, nodes, x, r)
    ensures TrieOk(mem', c, Replace(nodes, x, r, ring))
  {
    hide Pfx, Bit, Slot, UpOk, DownOk;
    var nodes' := Replace(nodes, x, r, ring);
    forall n
      ensures NodeOk(c, nodes', n)
    {
      assert NodeOk(c, nodes, n);
    }
    forall n { SubstituteUp(mem, mem', c, segs, nodes, x, r, ring, n); }
    forall n, b { SubstituteDown(mem, mem', c, segs, nodes, x, r, ring, n, b); }
    forall n, m
      ensures SizesDiffer(c, nodes', n, m)
    {
      assert SizesDiffer(c, nodes, n, m) && SizesDiffer(c, nodes, n, r) && SizesDiffer(c, nodes, m, r);
    }
  }

  /** What the relinking does to the words of another node n. */
  lemma SubstituteWords(mem: Mem, mem': Mem, c: ChunkMap, segs: seq<Segment>, nodes: Nodes, x: int, r: int, n: int)
    requires Tiled(c, segs) && TrieOk(mem, c, nodes) && CanSubstitute(mem, c, nodes, x, r)
    requires Relinked(mem, mem', c, nodes, x, r)
    requires n in nodes && n != x && NodeOk(c, nodes, n)
    ensures Rd(mem', n + PARENT) == if n == Child(mem, x, 0) || n == Child(mem, x, 1) then r else Rd(mem, n + PARENT)
    ensures forall b :: 0 <= b <= 1 ==>
              Child(mem', n, b) == if n + CHILD + 8 * b == Slot(mem, c, nodes, x) then r else Child(mem, n, b)
  {
    hide Pfx, Bit, Slot;
    SlotWhere(mem, c, nodes, x);
    var c0, c1 := Child(mem, x, 0), Child(mem, x, 1);
    assert DownOk(mem, c, nodes, x, 0) && DownOk(mem, c, nodes, x, 1);
    LargeApart(c, segs, n, r);
    if c0 != 0 && c0 != n { LargeApart(c, segs, n, c0); }
    if c1 != 0 && c1 != n { LargeApart(c, segs, n, c1); }
    if nodes[x].depth > 0 {
      var q := Rd(mem, x + PARENT);
      if q != n { LargeApart(c, segs, n, q); }
    }
  }

  lemma SubstituteUp(mem: Mem, mem': Mem, c: ChunkMap, segs: seq<Segment>, nodes: Nodes, x: int, r: int, ring: seq<int>, n: int)
    requires Tiled(c, segs) && TrieOk(mem, c, nodes) && CanSubstitute(mem, c, nodes, x, r)
    requires Relinked(mem, mem', c, nodes, x, r)
    ensures UpOk(mem', c, Replace(nodes, x, r, ring), n)
  {
    hide Pfx, Bit, Slot;
    var nodes' := Replace(nodes, x, r, ring);
    if n in nodes' && NodeOk(c, nodes', n) {
      SlotDef(mem', c, nodes', n);
      SlotWhere(mem, c, nodes, x);
      assert UpOk(mem, c, nodes, x);
      if n == r {
        SubstituteRoot(mem, mem', c, segs, nodes, x, r, ring);
      } else {
        SubstituteUpOther(mem, mem', c, segs, nodes, x, r, ring, n);
      }
    }
  }

  lemma SubstituteRoot(mem: Mem, mem': Mem, c: ChunkMap, segs: seq<Segment>, nodes: Nodes, x: int, r: int, ring: seq<int>)
    requires Tiled(c, segs) && TrieOk(mem, c, nodes) && CanSubstitute(mem, c, nodes, x, r)
    requires Relinked(mem, mem', c, nodes, x, r)
    requires NodeOk(c, Replace(nodes, x, r, ring), r)
    ensures UpOk(mem', c, Replace(nodes, x, r, ring), r)
  {
    hide Pfx, Bit, Slot;
    var nodes' := Replace(nodes, x, r, ring);
    var i, d := nodes[x].bin, nodes[x].depth;
    SlotDef(mem', c, nodes', r);
    SlotWhere(mem, c, nodes, x);
    assert UpOk(mem, c, nodes, x);
    if d > 0 {
      SameSide(c[x].size, c[r].size, i, d);
    }
  }

  lemma SubstituteUpOther(mem: Mem, mem': Mem, c: ChunkMap, segs: seq<Segment>, nodes: Nodes, x: int, r: int, ring: seq<int>, n: int)
    requires Tiled(c, segs) && TrieOk(mem, c, nodes) && CanSubstitute(mem, c, nodes, x, r)
    requires Relinked(mem, mem', c, nodes, x, r)
    requires n in nodes && n != x && n != r && NodeOk(c, Replace(nodes, x, r, ring), n)
    ensures UpOk(mem', c, Replace(nodes, x, r, ring), n)
  {
    hide Pfx, Bit, Slot;
    var nodes' := Replace(nodes, x, r, ring);
    assert NodeOk(c, nodes, n) && UpOk(mem, c, nodes, n);
    SlotDef(mem', c, nodes', n);
    SlotDef(mem, c, nodes, n);
    SlotWhere(mem, c, nodes, n);
    SlotWhere(mem, c, nodes, x);
    SubstituteWords(mem, mem', c, segs, nodes, x, r, n);
    assert DownOk(mem, c, nodes, x, 0) && DownOk(mem, c, nodes, x, 1);
    if nodes[n].depth == 0 {
      assert n != Child(mem, x, 0) && n != Child(mem, x, 1);
      RootWords(mem, mem', c, nodes, x, r, nodes[n].bin);
    } else {
      var p := Rd(mem, n + PARENT);
      var b := Bit(c[n].size, nodes[n].bin, nodes[n].depth - 1);
      assert Child(mem, p, b) == n;
      if p != x {
        assert NodeOk(c, nodes, p);
        SubstituteWords(mem, mem', c, segs, nodes, x, r, p);
        assert Child(mem', p, b) == n;
      } else {
        assert b == 0 || b == 1;
        assert n == Child(mem, x, 0) || n == Child(mem, x, 1);
        assert Child(mem', r, b) == n;
      }
    }
  }

  /** A root pointer other than the slot of x is not touched. */
  lemma RootWords(mem: Mem, mem': Mem, c: ChunkMap, nodes: Nodes, x: int, r: int, i: int)
    requires TrieOk(mem, c, nodes) && CanSubstitute(mem, c, nodes, x, r)
    requires Relinked(mem, mem', c, nodes, x, r)
    requires 0 <= i < 32
    ensures TreeBinAt(i) != Slot(mem, c, nodes, x) ==> Rd(mem', TreeBinAt(i)) == Rd(mem, TreeBinAt(i))
  {
    hide Pfx, Bit, Slot;
    assert DownOk(mem, c, nodes, x, 0) && DownOk(mem, c, nodes, x, 1);
  }

  lemma SubstituteDown(mem: Mem, mem': Mem, c: ChunkMap, segs: seq<Segment>, nodes: Nodes, x: int, r: int, ring: seq<int>, n: int, b: int)
    requires Tiled(c, segs) && TrieOk(mem, c, nodes) && CanSubstitute(mem, c, nodes, x, r)
    requires Relinked(mem, mem', c, nodes, x, r)
    ensures DownOk(mem', c, Replace(nodes, x, r, ring), n, b)
  {
    hide Pfx, Bit, Slot;
    var nodes' := Replace(nodes, x, r, ring);
    if n in nodes' && NodeOk(c, nodes', n) && 0 <= b <= 1 && Child(mem', n, b) != 0 {
      SlotWhere(mem, c, nodes, x);
      assert DownOk(mem, c, nodes, x, b);
      if n == r {
        var y := Child(mem, x, b);
        assert y != x by { assert nodes[y].depth == nodes[x].depth + 1; }
      } else {
        SubstituteDownOther(mem, mem', c, segs, nodes, x, r, ring, n, b);
      }
    }
  }

  /** Sizes that share the prefix of x go to the same side of its parent. */
  lemma SameSide(s: int, t: int, i: int, d: nat)
    requires 0 <= s && 0 <= t && 0 <= i < 32 && 0 < d <= TopBit(i) + 1
    requires Pfx(s, i, d) == Pfx(t, i, d)
    ensures Bit(s, i, d - 1) == Bit(t, i, d - 1) && Pfx(s, i, d - 1) == Pfx(t, i, d - 1)
  {
    PfxStep(s, i, d - 1);
    PfxStep(t, i, d - 1);
    PfxShorter(s, t, i, d, d - 1);
  }

  lemma SubstituteDownOther(mem: Mem, mem': Mem, c: ChunkMap, segs: seq<Segment>, nodes: Nodes, x: int, r: int, ring: seq<int>, n: int, b: int)
    requires Tiled(c, segs) && TrieOk(mem, c, nodes) && CanSubstitute(mem, c, nodes, x, r)
    requires Relinked(mem, mem', c, nodes, x, r)
    requires n in nodes && n != x && n != r && 0 <= b <= 1 && Child(mem', n, b) != 0
    ensures DownOk(mem', c, Replace(nodes, x, r, ring), n, b)
  {
    hide Pfx, Bit, Slot;
    assert NodeOk(c, nodes, n) && DownOk(mem, c, nodes, n, b);
    SlotWhere(mem, c, nodes, x);
    SubstituteWords(mem, mem', c, segs, nodes, x, r, n);
    if n + CHILD + 8 * b == Slot(mem, c, nodes, x) {
      SlotParent(mem, c, segs, nodes, x, n, b);
      SameSide(c[x].size, c[r].size, nodes[x].bin, nodes[x].depth);
    } else {
      SubstituteDownFar(mem, mem', c, segs, nodes, x, r, ring, n, b);
    }
  }

  lemma SubstituteDownFar(mem: Mem, mem': Mem, c: ChunkMap, segs: seq<Segment>, nodes: Nodes, x: int, r: int, ring: seq<int>, n: int, b: int)
    requires Tiled(c, segs) && TrieOk(mem, c, nodes) && CanSubstitute(mem, c, nodes, x, r)
    requires Relinked(mem, mem', c, nodes, x, r)
    requires n in nodes && n != x && n != r && 0 <= b <= 1 && Child(mem', n, b) != 0
    requires n + CHILD + 8 * b != Slot(mem, c, nodes, x)
    ensures DownOk(mem', c, Replace(nodes, x, r, ring), n, b)
  {
    hide Pfx, Bit, Slot;
    assert NodeOk(c, nodes, n) && DownOk(mem, c, nodes, n, b);
    SlotWhere(mem, c, nodes, x);
    SubstituteWords(mem, mem', c, segs, nodes, x, r, n);
    var y := Child(mem, n, b);
    SlotDef(mem, c, nodes, x);
    assert y != x;
    assert NodeOk(c, nodes, y);
    SubstituteWords(mem, mem', c, segs, nodes, x, r, y);
    assert DownOk(mem, c, nodes, x, 0) && DownOk(mem, c, nodes, x, 1);
  }

  /** Only the parent of x has a child word that is the slot of x. */
  lemma SlotParent(mem: Mem, c: ChunkMap, segs: seq<Segment>, nodes: Nodes, x: int, n: int, b: int)
    requires Tiled(c, segs) && TrieOk(mem, c, nodes) && x in nodes && NodeOk(c, nodes, x)
    requires n in nodes && NodeOk(c, nodes, n) && 0 <= b <= 1
    requires n + CHILD + 8 * b == Slot(mem, c, nodes, x)
    ensures nodes[x].depth > 0 && n == Rd(mem, x + PARENT) && b == Bit(c[x].size, nodes[x].bin, nodes[x].depth - 1)
    ensures nodes[n].bin == nodes[x].bin && nodes[n].depth == nodes[x].depth - 1
  {
    hide Pfx, Bit, Slot;
    SlotWhere(mem, c, nodes, x);
    var p := Rd(mem, x + PARENT);
    if nodes[x].depth > 0 && n != p { LargeApart(c, segs, n, p); }
  }

  // ---------- rings ----------

  /** Element j of a circular list points to both its neighbours. */
  predicate CycAt(mem: Mem, l: seq<int>, j: int) {
    0 <= j < |l| ==>
      && Rd(mem, l[j] + FD) == (if j + 1 < |l| then l[j + 1] else l[0])
      && Rd(mem, l[j] + BK) == (if j > 0 then l[j - 1] else l[|l| - 1])
  }

  /** A ring member that is not in the trie has no parent and no children. */
  predicate Plain(mem: Mem, x: int) {
    Rd(mem, x + PARENT) == 0 && Child(mem, x, 0) == 0 && Child(mem, x, 1) == 0
  }

  predicate RingAt(mem: Mem, c: ChunkMap, nodes: Nodes, n: int, k: int) {
    n in nodes && n in c && 0 <= k < |nodes[n].ring| ==>
      var l := nodes[n].ring;
      && Large(c, l[k]) && c[l[k]].size == c[n].size
      && CycAt(mem, l, k)
      && Rd(mem, l[k] + INDEX) == nodes[n].bin
      && (k > 0 ==> Plain(mem, l[k]))
  }

  predicate RingHead(nodes: Nodes, n: int) {
    n in nodes ==> |nodes[n].ring| > 0 && nodes[n].ring[0] == n
  }

  predicate RingDistinct(nodes: Nodes, n: int, j: int, k: int) {
    n in nodes && 0 <= j < k < |nodes[n].ring| ==> nodes[n].ring[j] != nodes[n].ring[k]
  }

  /** Every node heads a ring of distinct chunks of its size, of which it alone is in the trie. */
  ghost predicate RingsOk(mem: Mem, c: ChunkMap, nodes: Nodes) {
    && (forall n {:trigger RingHead(nodes, n)} :: RingHead(nodes, n))
    && (forall n, k {:trigger RingAt(mem, c, nodes, n, k)} :: RingAt(mem, c, nodes, n, k))
    && (forall n, j, k {:trigger RingDistinct(nodes, n, j, k)} :: RingDistinct(nodes, n, j, k))
  }

  /** The tree bins as a whole. */
  ghost predicate TreesOk(mem: Mem, c: ChunkMap, nodes: Nodes, treemap: int) {
    TrieOk(mem, c, nodes) && RingsOk(mem, c, nodes) && RootsOk(mem, nodes, treemap)
  }

  /** x is kept somewhere in the trees. */
  ghost predicate InTrees(nodes: Nodes, x: int) {
    exists n {:trigger RingHead(nodes, n)} :: n in nodes && x in nodes[n].ring
  }

  lemma NodeInTrees(nodes: Nodes, n: int, k: int)
    requires n in nodes && 0 <= k < |nodes[n].ring|
    ensures InTrees(nodes, nodes[n].ring[k])
  {
    assert RingHead(nodes, n) || !RingHead(nodes, n);
  }

  /** A tree member has a parent word, so it is told apart from the rest of its ring. */
  lemma NodeNotPlain(mem: Mem, c: ChunkMap, nodes: Nodes, n: int)
    requires TrieOk(mem, c, nodes) && n in nodes
    ensures Rd(mem, n + PARENT) != 0
  {
    assert NodeOk(c, nodes, n) && UpOk(mem, c, nodes, n);
  }

  /** mem' differs from mem at most in root pointers, in parent and child words of heads,
      and in the link words of x, if x is not 0. */
  ghost predicate OnlyTrieWords(mem: Mem, mem': Mem, heads: set<int>, x: int) {
    forall a {:trigger Rd(mem', a)} ::
      || TREEBINS <= a < SEG_HEAD
      || (exists t :: t in heads && t + CHILD <= a <= t + PARENT)
      || (x != 0 && x + 16 <= a < x + 64)
      || Rd(mem', a) == Rd(mem, a)
  }

  lemma RingFrame(mem: Mem, mem': Mem, c: ChunkMap, segs: seq<Segment>, nodes: Nodes, heads: set<int>, x: int, n: int, k: int)
    requires Tiled(c, segs) && RingAt(mem, c, nodes, n, k) && OnlyTrieWords(mem, mem', heads, x)
    requires forall t :: t in heads ==> Large(c, t)
    requires n in nodes && n in c && 0 <= k < |nodes[n].ring|
    requires k > 0 ==> nodes[n].ring[k] !in heads
    requires x != 0 ==> Large(c, x) && nodes[n].ring[k] != x
    ensures RingAt(mem', c, nodes, n, k)
  {
    var y := nodes[n].ring[k];
    forall t | t in heads && t != y
      ensures t + 256 <= y || y + 256 <= t
    {
      LargeApart(c, segs, t, y);
    }
    if x != 0 { LargeApart(c, segs, x, y); }
    assert Rd(mem', y + FD) == Rd(mem, y + FD);
    assert Rd(mem', y + BK) == Rd(mem, y + BK);
    assert Rd(mem', y + INDEX) == Rd(mem, y + INDEX);
    if k > 0 {
      assert Rd(mem', y + PARENT) == Rd(mem, y + PARENT);
      assert Rd(mem', y + CHILD) == Rd(mem, y + CHILD);
      assert Rd(mem', y + CHILD + 8) == Rd(mem, y + CHILD + 8);
    }
  }

  /** The tries depend only on root pointers and on the parent and child words of nodes. */
  lemma TrieFrame(mem: Mem, mem': Mem, c: ChunkMap, nodes: Nodes, nodes': Nodes)
    requires TrieOk(mem, c, nodes) && nodes'.Keys == nodes.Keys
    requires forall n :: n in nodes ==> nodes'[n].bin == nodes[n].bin && nodes'[n].depth == nodes[n].depth
    requires forall n :: n in nodes ==> Rd(mem', n + PARENT) == Rd(mem, n + PARENT)
    requires forall n :: n in nodes ==> Child(mem', n, 0) == Child(mem, n, 0) && Child(mem', n, 1) == Child(mem, n, 1)
    requires forall i :: 0 <= i < 32 ==> Rd(mem', TreeBinAt(i)) == Rd(mem, TreeBinAt(i))
    ensures TrieOk(mem', c, nodes')
  {
    hide Pfx, Bit;
    forall n
      ensures NodeOk(c, nodes', n)
    {
      assert NodeOk(c, nodes, n);
    }
    forall n
      ensures UpOk(mem', c, nodes', n)
    {
      assert NodeOk(c, nodes, n) && UpOk(mem, c, nodes, n);
      if n in nodes && nodes[n].depth > 0 {
        var p := Rd(mem, n + PARENT);
        SlotWhere(mem, c, nodes, n);
        assert Child(mem', p, Bit(c[n].size, nodes[n].bin, nodes[n].depth - 1)) == n;
      }
    }
    forall n, b
      ensures DownOk(mem', c, nodes', n, b)
    {
      assert NodeOk(c, nodes, n) && DownOk(mem, c, nodes, n, b);
    }
    forall n, m
      ensures SizesDiffer(c, nodes', n, m)
    {
      assert SizesDiffer(c, nodes, n, m);
    }
  }

  // ---------- circular lists ----------

  ghost predicate Cyclic(mem: Mem, c: ChunkMap, l: seq<int>) {
    && (forall j {:trigger CycAt(mem, l, j)} :: CycAt(mem, l, j))
    && (forall j :: 0 <= j < |l| ==> Large(c, l[j]))
    && (forall j, k :: 0 <= j < k < |l| ==> l[j] != l[k])
  }

  /** The two links of element y after removing element k: its neighbours skip k. */
  lemma CycRemoveLinks(mem: Mem, mem': Mem, c: ChunkMap, segs: seq<Segment>, l: seq<int>, k: int, y: int)
    requires Tiled(c, segs) && Cyclic(mem, c, l) && 0 <= k < |l| && |l| >= 2 && 0 <= y < |l| && y != k
    requires var f, r := Rd(mem, l[k] + FD), Rd(mem, l[k] + BK); mem' == Wr(Wr(mem, f + BK, r), r + FD, f)
    ensures var next := if y + 1 < |l| then y + 1 else 0;
            var next2 := if k + 1 < |l| then k + 1 else 0;
            Rd(mem', l[y] + FD) == if next == k then l[next2] else l[next]
    ensures var prev := if y > 0 then y - 1 else |l| - 1;
            var prev2 := if k > 0 then k - 1 else |l| - 1;
            Rd(mem', l[y] + BK) == if prev == k then l[prev2] else l[prev]
  {
    hide Rd, Wr;
    var f, r := Rd(mem, l[k] + FD), Rd(mem, l[k] + BK);
    assert CycAt(mem, l, k) && CycAt(mem, l, y);
    if l[y] != f { LargeApart(c, segs, l[y], f); }
    if l[y] != r { LargeApart(c, segs, l[y], r); }
    if f != r { LargeApart(c, segs, f, r); }
  }

  lemma CycRemoveAt(mem: Mem, mem': Mem, c: ChunkMap, segs: seq<Segment>, l: seq<int>, k: int, j: int)
    requires Tiled(c, segs) && Cyclic(mem, c, l) && 0 <= k < |l| && |l| >= 2 && 0 <= j < |l| - 1
    requires var f, r := Rd(mem, l[k] + FD), Rd(mem, l[k] + BK); mem' == Wr(Wr(mem, f + BK, r), r + FD, f)
    ensures CycAt(mem', l[..k] + l[k + 1..], j)
  {
    hide Rd, Wr, Cyclic, Tiled;
    CycRemoveLinks(mem, mem', c, segs, l, k, if j < k then j else j + 1);
  }

  lemma CycRemove(mem: Mem, mem': Mem, c: ChunkMap, segs: seq<Segment>, l: seq<int>, k: int)
    requires Tiled(c, segs) && Cyclic(mem, c, l) && 0 <= k < |l| && |l| >= 2
    requires var f, r := Rd(mem, l[k] + FD), Rd(mem, l[k] + BK); mem' == Wr(Wr(mem, f + BK, r), r + FD, f)
    ensures Cyclic(mem', c, l[..k] + l[k + 1..])
  {
    hide Rd, Wr, CycAt;
    var l' := l[..k] + l[k + 1..];
    forall j
      ensures CycAt(mem', l', j)
    {
      if 0 <= j < |l'| { CycRemoveAt(mem, mem', c, segs, l, k, j); } else { CycOutside(mem', l', j); }
    }
  }

  lemma CycOutside(mem: Mem, l: seq<int>, j: int)
    requires !(0 <= j < |l|)
    ensures CycAt(mem, l, j)
  {
  }

  /** Moving the last element of a circular list to the front. */
  lemma CycRotate(mem: Mem, c: ChunkMap, l: seq<int>)
    requires Cyclic(mem, c, l) && |l| > 0
    ensures Cyclic(mem, c, [l[|l| - 1]] + l[..|l| - 1])
  {
    var l' := [l[|l| - 1]] + l[..|l| - 1];
    forall j
      ensures CycAt(mem, l', j)
    {
      assert CycAt(mem, l, if j == 0 then |l| - 1 else j - 1);
    }
  }

  /** Inserting x behind the first element. */
  lemma CycInsert(mem: Mem, mem': Mem, c: ChunkMap, segs: seq<Segment>, l: seq<int>, x: int)
    requires Tiled(c, segs) && Cyclic(mem, c, l) && |l| > 0 && Large(c, x) && x !in l
    requires var f := Rd(mem, l[0] + FD);
             && Rd(mem', l[0] + FD) == x && Rd(mem', f + BK) == x && Rd(mem', x + FD) == f && Rd(mem', x + BK) == l[0]
             && forall a {:trigger Rd(mem', a)} :: a == l[0] + FD || a == f + BK || x + 16 <= a < x + 64 || Rd(mem', a) == Rd(mem, a)
    ensures Cyclic(mem', c, [l[0], x] + l[1..])
  {
    var l' := [l[0], x] + l[1..];
    var f := Rd(mem, l[0] + FD);
    assert CycAt(mem, l, 0);
    forall j
      ensures CycAt(mem', l', j)
    {
      if 0 <= j < |l'| && j != 1 {
        var y := if j == 0 then 0 else j - 1;
        assert CycAt(mem, l, y);
        LargeApart(c, segs, l[y], x);
        if y > 0 { LargeApart(c, segs, l[y], l[0]); }
        if l[y] != f { LargeApart(c, segs, l[y], f); }
      }
    }
  }
}
