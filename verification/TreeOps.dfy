/** insert_large_chunk and unlink_large_chunk as changes of the words of the tree bins:
    each refines adding or removing one chunk of the set that the trees hold. */
module TreeOps {
  import opened Words
  import opened Bits
  import opened BinMaps
  import opened Chunks
  import opened TreeBins

  /** The trees hold the same chunks, and x besides. */
  ghost predicate Gained(nodes: Nodes, nodes': Nodes, x: int) {
    forall q {:trigger InTrees(nodes', q)} {:trigger InTrees(nodes, q)} :: InTrees(nodes', q) <==> InTrees(nodes, q) || q == x
  }

  /** The trees hold the same chunks, except x. */
  ghost predicate Lost(nodes: Nodes, nodes': Nodes, x: int) {
    forall q {:trigger InTrees(nodes', q)} {:trigger InTrees(nodes, q)} :: InTrees(nodes', q) <==> InTrees(nodes, q) && q != x
  }

  lemma MemberIsNode(nodes: Nodes, q: int) returns (n: int, k: int)
    requires InTrees(nodes, q)
    ensures n in nodes && 0 <= k < |nodes[n].ring| && nodes[n].ring[k] == q
  {
    n :| n in nodes && q in nodes[n].ring;
    k :| 0 <= k < |nodes[n].ring| && nodes[n].ring[k] == q;
  }

  lemma NodeIsMember(mem: Mem, c: ChunkMap, nodes: Nodes, n: int)
    requires RingsOk(mem, c, nodes) && n in nodes
    ensures InTrees(nodes, n)
  {
    assert RingHead(nodes, n);
    NodeInTrees(nodes, n, 0);
  }

  /** Writing to the link words of a chunk outside the trees disturbs nothing. */
  lemma FreshWords(mem: Mem, mem': Mem, c: ChunkMap, segs: seq<Segment>, nodes: Nodes, treemap: int, x: int)
    requires Tiled(c, segs) && TreesOk(mem, c, nodes, treemap) && Large(c, x) && !InTrees(nodes, x)
    requires forall a {:trigger Rd(mem', a)} :: x + 16 <= a < x + 64 || Rd(mem', a) == Rd(mem, a)
    ensures TreesOk(mem', c, nodes, treemap)
  {
    forall n | n in nodes
      ensures n + 256 <= x || x + 256 <= n
    {
      NodeIsMember(mem, c, nodes, n);
      assert NodeOk(c, nodes, n);
      LargeApart(c, segs, n, x);
    }
    TrieFrame(mem, mem', c, nodes, nodes);
    forall n, k
      ensures RingAt(mem', c, nodes, n, k)
    {
      if n in nodes && n in c && 0 <= k < |nodes[n].ring| {
        NodeInTrees(nodes, n, k);
        assert RingAt(mem, c, nodes, n, k);
        RingFrame(mem, mem', c, segs, nodes, {}, x, n, k);
      }
    }
    forall i
      ensures RootOk(mem', nodes, treemap, i)
    {
      assert RootOk(mem, nodes, treemap, i);
    }
  }

  // ---------- insertion ----------

  /** x has become the only member of a new node. */
  ghost predicate NewNode(mem': Mem, c: ChunkMap, x: int, i: int) {
    Rd(mem', x + FD) == x && Rd(mem', x + BK) == x && Rd(mem', x + INDEX) == i
  }

  /** The rings after a node has been added whose ring is x alone. */
  lemma NewRing(mem: Mem, mem': Mem, c: ChunkMap, segs: seq<Segment>, nodes: Nodes, treemap: int, x: int, i: int, d: int, heads: set<int>)
    requires Tiled(c, segs) && TreesOk(mem, c, nodes, treemap) && Large(c, x) && !InTrees(nodes, x)
    requires NewNode(mem', c, x, i) && OnlyTrieWords(mem, mem', heads, x)
    requires forall t :: t in heads ==> t in nodes
    ensures RingsOk(mem', c, nodes[x := Node(i, d, [x])])
    ensures Gained(nodes, nodes[x := Node(i, d, [x])], x)
  {
    var nodes' := nodes[x := Node(i, d, [x])];
    if x in nodes { NodeIsMember(mem, c, nodes, x); }
    forall n
      ensures RingHead(nodes', n)
    {
      assert RingHead(nodes, n);
    }
    forall n, j, k
      ensures RingDistinct(nodes', n, j, k)
    {
      assert RingDistinct(nodes, n, j, k);
    }
    forall t | t in heads
      ensures Large(c, t) && Rd(mem, t + PARENT) != 0
    {
      assert NodeOk(c, nodes, t);
      NodeNotPlain(mem, c, nodes, t);
    }
    forall n, k
      ensures RingAt(mem', c, nodes', n, k)
    {
      if n in nodes && n in c && 0 <= k < |nodes[n].ring| {
        NodeInTrees(nodes, n, k);
        assert RingAt(mem, c, nodes, n, k);
        RingFrame(mem, mem', c, segs, nodes, heads, x, n, k);
        assert RingAt(mem', c, nodes, n, k);
      }
    }
    GainedNode(nodes, x, Node(i, d, [x]));
  }

  lemma GainedNode(nodes: Nodes, x: int, d: Node)
    requires x !in nodes && d.ring == [x]
    ensures Gained(nodes, nodes[x := d], x)
  {
    var nodes' := nodes[x := d];
    forall q
      ensures InTrees(nodes', q) <==> InTrees(nodes, q) || q == x
    {
      if InTrees(nodes', q) {
        var n, k := MemberIsNode(nodes', q);
        if n != x { NodeInTrees(nodes, n, k); }
      }
      if InTrees(nodes, q) {
        var n, k := MemberIsNode(nodes, q);
        NodeInTrees(nodes', n, k);
      }
      NodeInTrees(nodes', x, 0);
    }
  }

  /** Insertion into an empty bin. */
  lemma InsertRoot(mem: Mem, mem': Mem, c: ChunkMap, segs: seq<Segment>, nodes: Nodes, treemap: int, x: int, i: int)
    requires Tiled(c, segs) && TreesOk(mem, c, nodes, treemap) && Large(c, x) && !InTrees(nodes, x)
    requires 0 <= i < 32 && i == TreeIndex(c[x].size) && !Marked(treemap, i)
    requires LinkedLeaf(mem, mem', c, x, TreeBinAt(i), TreeBinAt(i)) && NewNode(mem', c, x, i)
    ensures TreesOk(mem', c, nodes[x := Node(i, 0, [x])], Mark(treemap, i))
    ensures Gained(nodes, nodes[x := Node(i, 0, [x])], x)
  {
    hide Marked, Mark;
    var nodes' := nodes[x := Node(i, 0, [x])];
    if x in nodes { NodeIsMember(mem, c, nodes, x); }
    assert RootOk(mem, nodes, treemap, i);
    AttachRoot(mem, mem', c, segs, nodes, x, i);
    NewRing(mem, mem', c, segs, nodes, treemap, x, i, 0, {});
    MarkClear(treemap, i);
    forall j
      ensures RootOk(mem', nodes', Mark(treemap, i), j)
    {
      assert RootOk(mem, nodes, treemap, j);
    }
  }

  /** Insertion of a new size below a node t of its path with a free slot. */
  lemma InsertLeaf(mem: Mem, mem': Mem, c: ChunkMap, segs: seq<Segment>, nodes: Nodes, treemap: int, t: int, x: int)
    requires Tiled(c, segs) && TreesOk(mem, c, nodes, treemap) && !InTrees(nodes, x)
    requires CanAttach(mem, c, nodes, t, x)
    requires var d := nodes[t]; LinkedLeaf(mem, mem', c, x, t + CHILD + 8 * Bit(c[x].size, d.bin, d.depth), t)
    requires NewNode(mem', c, x, nodes[t].bin)
    ensures var nodes' := nodes[x := Node(nodes[t].bin, nodes[t].depth + 1, [x])];
            TreesOk(mem', c, nodes', treemap) && Gained(nodes, nodes', x)
  {
    hide Pfx, Bit;
    var i, d := nodes[t].bin, nodes[t].depth;
    var nodes' := nodes[x := Node(i, d + 1, [x])];
    AttachLeaf(mem, mem', c, segs, nodes, t, x);
    NewRing(mem, mem', c, segs, nodes, treemap, x, i, d + 1, {t});
    assert NodeOk(c, nodes, t);
    forall j
      ensures RootOk(mem', nodes', treemap, j)
    {
      assert RootOk(mem, nodes, treemap, j);
    }
  }

  /** x has been linked into the ring behind its head t. */
  ghost predicate LinkedRing(mem: Mem, mem': Mem, t: int, x: int, i: int) {
    var f := Rd(mem, t + FD);
    && Rd(mem', t + FD) == x && Rd(mem', f + BK) == x && Rd(mem', x + FD) == f && Rd(mem', x + BK) == t
    && Rd(mem', x + INDEX) == i && Plain(mem', x)
    && forall a {:trigger Rd(mem', a)} :: a == t + FD || a == f + BK || x + 16 <= a < x + 64 || Rd(mem', a) == Rd(mem, a)
  }

  lemma RingCyclic(mem: Mem, c: ChunkMap, nodes: Nodes, n: int)
    requires RingsOk(mem, c, nodes) && n in nodes && NodeOk(c, nodes, n)
    ensures Cyclic(mem, c, nodes[n].ring) && |nodes[n].ring| > 0 && nodes[n].ring[0] == n
  {
    var l := nodes[n].ring;
    assert RingHead(nodes, n);
    forall j
      ensures CycAt(mem, l, j)
      ensures 0 <= j < |l| ==> Large(c, l[j])
    {
      assert RingAt(mem, c, nodes, n, j);
    }
    forall j, k | 0 <= j < k < |l|
      ensures l[j] != l[k]
    {
      assert RingDistinct(nodes, n, j, k);
    }
  }

  /** The rings of different nodes have no member in common. */
  lemma RingsDisjoint(mem: Mem, c: ChunkMap, nodes: Nodes, n: int, m: int, j: int, k: int)
    requires TrieOk(mem, c, nodes) && RingsOk(mem, c, nodes) && n in nodes && m in nodes
    requires 0 <= j < |nodes[n].ring| && 0 <= k < |nodes[m].ring|
    requires nodes[n].ring[j] == nodes[m].ring[k]
    ensures n == m && j == k
  {
    assert NodeOk(c, nodes, n) && NodeOk(c, nodes, m);
    assert RingAt(mem, c, nodes, n, j) && RingAt(mem, c, nodes, m, k);
    assert SizesDiffer(c, nodes, n, m);
    assert RingDistinct(nodes, n, j, k) && RingDistinct(nodes, n, k, j);
  }

  /** A ring with x inserted behind its head. */
  function Behind(l: seq<int>, x: int): seq<int> {
    if |l| == 0 then [x] else [l[0], x] + l[1..]
  }

  /** Insertion of a size that the trie already has. */
  lemma InsertRing(mem: Mem, mem': Mem, c: ChunkMap, segs: seq<Segment>, nodes: Nodes, treemap: int, t: int, x: int)
    requires Tiled(c, segs) && TreesOk(mem, c, nodes, treemap) && Large(c, x) && !InTrees(nodes, x)
    requires t in nodes && t in c && c[t].size == c[x].size
    requires LinkedRing(mem, mem', t, x, nodes[t].bin)
    ensures var nodes' := nodes[t := nodes[t].(ring := Behind(nodes[t].ring, x))];
            TreesOk(mem', c, nodes', treemap) && Gained(nodes, nodes', x)
  {
    hide RingAt, CycAt;
    var l := nodes[t].ring;
    var nodes' := nodes[t := nodes[t].(ring := Behind(l, x))];
    var f := Rd(mem, t + FD);
    InsertRingPair(mem, c, nodes, t, x);
    RingChangeTrie(mem, mem', c, segs, nodes, treemap, t, f, t, x, nodes');
    forall n
      ensures RingHead(nodes', n)
    {
      assert RingHead(nodes, n);
    }
    forall n, j, k
      ensures RingDistinct(nodes', n, j, k)
    {
      assert RingDistinct(nodes, n, j, k);
      assert RingDistinct(nodes, n, if j == 0 then 0 else j - 1, k - 1);
    }
    forall n, k
      ensures RingAt(mem', c, nodes', n, k)
    {
      InsertRingAt(mem, mem', c, segs, nodes, treemap, t, x, n, k);
    }
    GainedInRing(nodes, t, x);
  }

  lemma InsertRingPair(mem: Mem, c: ChunkMap, nodes: Nodes, t: int, x: int)
    requires TrieOk(mem, c, nodes) && RingsOk(mem, c, nodes) && Large(c, x) && !InTrees(nodes, x) && t in nodes
    ensures RingPair(mem, c, nodes, t, Rd(mem, t + FD), t, x)
    ensures x !in nodes[t].ring && |nodes[t].ring| > 0 && nodes[t].ring[0] == t
  {
    var l := nodes[t].ring;
    assert NodeOk(c, nodes, t) && RingHead(nodes, t);
    assert RingAt(mem, c, nodes, t, 0);
  }

  lemma InsertRingAt(mem: Mem, mem': Mem, c: ChunkMap, segs: seq<Segment>, nodes: Nodes, treemap: int, t: int, x: int, n: int, k: int)
    requires Tiled(c, segs) && TreesOk(mem, c, nodes, treemap) && Large(c, x) && !InTrees(nodes, x)
    requires t in nodes && t in c && c[t].size == c[x].size
    requires LinkedRing(mem, mem', t, x, nodes[t].bin)
    ensures RingAt(mem', c, nodes[t := nodes[t].(ring := Behind(nodes[t].ring, x))], n, k)
  {
    hide CycAt;
    var l := nodes[t].ring;
    var f := Rd(mem, t + FD);
    InsertRingPair(mem, c, nodes, t, x);
    if n == t {
      assert NodeOk(c, nodes, t);
      RingCyclic(mem, c, nodes, t);
      CycInsert(mem, mem', c, segs, l, x);
      assert CycAt(mem', Behind(l, x), k);
      if 0 <= k <= |l| && k != 1 {
        var y := if k == 0 then 0 else k - 1;
        assert RingAt(mem, c, nodes, t, y);
        RingChangeMember(mem, mem', c, segs, nodes, t, f, t, x, y);
      }
    } else if n in nodes && 0 <= k < |nodes[n].ring| {
      RingChangeOther(mem, mem', c, segs, nodes, t, f, t, x, n, k);
      assert RingAt(mem', c, nodes, n, k);
    }
  }

  lemma GainedInRing(nodes: Nodes, t: int, x: int)
    requires t in nodes && |nodes[t].ring| > 0 && nodes[t].ring[0] == t
    ensures Gained(nodes, nodes[t := nodes[t].(ring := Behind(nodes[t].ring, x))], x)
  {
    var l := nodes[t].ring;
    var nodes' := nodes[t := nodes[t].(ring := Behind(l, x))];
    forall q
      ensures InTrees(nodes', q) <==> InTrees(nodes, q) || q == x
    {
      if InTrees(nodes', q) {
        var n, k := MemberIsNode(nodes', q);
        if n == t {
          if k != 1 { NodeInTrees(nodes, t, if k == 0 then 0 else k - 1); }
        } else {
          NodeInTrees(nodes, n, k);
        }
      }
      if InTrees(nodes, q) {
        var n, k := MemberIsNode(nodes, q);
        NodeInTrees(nodes', n, if n == t && k > 0 then k + 1 else k);
      }
      NodeInTrees(nodes', t, 1);
    }
  }

  /** mem' differs from mem only in the back link of f, the forward link of r and, if x is
      not 0, the link words of x. */
  ghost predicate OnlyRingWords(mem: Mem, mem': Mem, f: int, r: int, x: int) {
    forall a {:trigger Rd(mem', a)} ::
      a == f + BK || a == r + FD || (x != 0 && x + 16 <= a < x + 64) || Rd(mem', a) == Rd(mem, a)
  }

  ghost predicate RingPair(mem: Mem, c: ChunkMap, nodes: Nodes, t: int, f: int, r: int, x: int) {
    && t in nodes && f in nodes[t].ring && r in nodes[t].ring
    && (x != 0 ==> Large(c, x) && !InTrees(nodes, x))
  }

  lemma RingChangeMember(mem: Mem, mem': Mem, c: ChunkMap, segs: seq<Segment>, nodes: Nodes, t: int, f: int, r: int, x: int, k: int)
    requires Tiled(c, segs) && RingsOk(mem, c, nodes) && RingPair(mem, c, nodes, t, f, r, x) && t in c
    requires OnlyRingWords(mem, mem', f, r, x) && 0 <= k < |nodes[t].ring|
    ensures var y := nodes[t].ring[k];
            && Rd(mem', y + INDEX) == Rd(mem, y + INDEX) && Rd(mem', y + PARENT) == Rd(mem, y + PARENT)
            && Child(mem', y, 0) == Child(mem, y, 0) && Child(mem', y, 1) == Child(mem, y, 1)
  {
    var l := nodes[t].ring;
    var y := l[k];
    var i :| 0 <= i < |l| && l[i] == f;
    var j :| 0 <= j < |l| && l[j] == r;
    assert RingAt(mem, c, nodes, t, k) && RingAt(mem, c, nodes, t, i) && RingAt(mem, c, nodes, t, j);
    NodeInTrees(nodes, t, k);
    if x != 0 { LargeApart(c, segs, y, x); }
    if y != f { LargeApart(c, segs, y, f); }
    if y != r { LargeApart(c, segs, y, r); }
  }

  /** The chunks of the pair are ring members, of the size of t. */
  lemma PairLarge(mem: Mem, c: ChunkMap, nodes: Nodes, t: int, f: int, r: int, x: int)
    requires TrieOk(mem, c, nodes) && RingsOk(mem, c, nodes) && RingPair(mem, c, nodes, t, f, r, x)
    ensures t in c && Large(c, f) && Large(c, r) && c[f].size == c[t].size && c[r].size == c[t].size
  {
    var l := nodes[t].ring;
    var i :| 0 <= i < |l| && l[i] == f;
    var j :| 0 <= j < |l| && l[j] == r;
    assert NodeOk(c, nodes, t) && RingAt(mem, c, nodes, t, i) && RingAt(mem, c, nodes, t, j);
  }

  lemma RingChangeOther(mem: Mem, mem': Mem, c: ChunkMap, segs: seq<Segment>, nodes: Nodes, t: int, f: int, r: int, x: int, n: int, k: int)
    requires Tiled(c, segs) && TrieOk(mem, c, nodes) && RingsOk(mem, c, nodes) && RingPair(mem, c, nodes, t, f, r, x)
    requires OnlyRingWords(mem, mem', f, r, x)
    requires n in nodes && n != t && 0 <= k < |nodes[n].ring|
    ensures RingAt(mem', c, nodes, n, k)
  {
    var y := nodes[n].ring[k];
    PairLarge(mem, c, nodes, t, f, r, x);
    assert NodeOk(c, nodes, n);
    assert RingAt(mem, c, nodes, n, k);
    assert SizesDiffer(c, nodes, n, t);
    NodeInTrees(nodes, n, k);
    if x != 0 { LargeApart(c, segs, y, x); }
    LargeApart(c, segs, y, f);
    LargeApart(c, segs, y, r);
  }

  lemma RingChangeNode(mem: Mem, mem': Mem, c: ChunkMap, segs: seq<Segment>, nodes: Nodes, t: int, f: int, r: int, x: int, n: int)
    requires Tiled(c, segs) && TrieOk(mem, c, nodes) && RingsOk(mem, c, nodes) && RingPair(mem, c, nodes, t, f, r, x)
    requires OnlyRingWords(mem, mem', f, r, x) && n in nodes
    ensures Rd(mem', n + PARENT) == Rd(mem, n + PARENT)
    ensures Child(mem', n, 0) == Child(mem, n, 0) && Child(mem', n, 1) == Child(mem, n, 1)
  {
    PairLarge(mem, c, nodes, t, f, r, x);
    assert NodeOk(c, nodes, n);
    NodeIsMember(mem, c, nodes, n);
    if x != 0 { LargeApart(c, segs, n, x); }
    if n != f { LargeApart(c, segs, n, f); }
    if n != r { LargeApart(c, segs, n, r); }
  }

  /** Changing one ring leaves the tries and the roots alone. */
  lemma RingChangeTrie(mem: Mem, mem': Mem, c: ChunkMap, segs: seq<Segment>, nodes: Nodes, treemap: int, t: int, f: int, r: int, x: int, nodes': Nodes)
    requires Tiled(c, segs) && TreesOk(mem, c, nodes, treemap) && RingPair(mem, c, nodes, t, f, r, x)
    requires OnlyRingWords(mem, mem', f, r, x)
    requires nodes'.Keys == nodes.Keys
    requires forall n :: n in nodes ==> nodes'[n].bin == nodes[n].bin && nodes'[n].depth == nodes[n].depth
    ensures TrieOk(mem', c, nodes') && RootsOk(mem', nodes', treemap)
  {
    hide RingAt, UpOk, DownOk, NodeOk, SizesDiffer, Marked;
    PairLarge(mem, c, nodes, t, f, r, x);
    forall n | n in nodes
      ensures Rd(mem', n + PARENT) == Rd(mem, n + PARENT)
      ensures Child(mem', n, 0) == Child(mem, n, 0) && Child(mem', n, 1) == Child(mem, n, 1)
    {
      RingChangeNode(mem, mem', c, segs, nodes, t, f, r, x, n);
    }
    TrieFrame(mem, mem', c, nodes, nodes');
    forall b
      ensures RootOk(mem', nodes', treemap, b)
    {
      assert RootOk(mem, nodes, treemap, b);
    }
  }

  // ---------- removal ----------

  /** Rings of nodes that stay, when only trie words change. */
  lemma RingsKept(mem: Mem, mem': Mem, c: ChunkMap, segs: seq<Segment>, nodes: Nodes, nodes': Nodes, heads: set<int>)
    requires Tiled(c, segs) && TrieOk(mem, c, nodes) && RingsOk(mem, c, nodes) && OnlyTrieWords(mem, mem', heads, 0)
    requires heads <= nodes.Keys && nodes'.Keys <= nodes.Keys
    requires forall n :: n in nodes' ==> nodes'[n].ring == nodes[n].ring && nodes'[n].bin == nodes[n].bin
    ensures RingsOk(mem', c, nodes')
  {
    forall n
      ensures RingHead(nodes', n)
    {
      assert RingHead(nodes, n);
    }
    forall n, j, k
      ensures RingDistinct(nodes', n, j, k)
    {
      assert RingDistinct(nodes, n, j, k);
    }
    forall t | t in heads
      ensures Large(c, t) && Rd(mem, t + PARENT) != 0
    {
      assert NodeOk(c, nodes, t);
      NodeNotPlain(mem, c, nodes, t);
    }
    forall n, k
      ensures RingAt(mem', c, nodes', n, k)
    {
      assert RingAt(mem, c, nodes, n, k);
      if n in nodes' && n in c && 0 <= k < |nodes[n].ring| {
        RingFrame(mem, mem', c, segs, nodes, heads, 0, n, k);
      }
    }
  }

  /** Replacing a single-member node: the other rings are untouched. */
  lemma LostNode(mem: Mem, c: ChunkMap, nodes: Nodes, nodes': Nodes, x: int)
    requires TrieOk(mem, c, nodes) && RingsOk(mem, c, nodes) && x in nodes && |nodes[x].ring| == 1
    requires nodes'.Keys == nodes.Keys - {x}
    requires forall n :: n in nodes' ==> nodes'[n].ring == nodes[n].ring
    ensures Lost(nodes, nodes', x)
  {
    assert RingHead(nodes, x);
    forall q
      ensures InTrees(nodes', q) <==> InTrees(nodes, q) && q != x
    {
      if InTrees(nodes', q) {
        var n, k := MemberIsNode(nodes', q);
        NodeInTrees(nodes, n, k);
        if q == x { RingsDisjoint(mem, c, nodes, n, x, k, 0); }
      }
      if InTrees(nodes, q) && q != x {
        var n, k := MemberIsNode(nodes, q);
        NodeInTrees(nodes', n, k);
      }
    }
  }

  /** Removing a node that has no children and no other ring member. */
  lemma UnlinkLeaf(mem: Mem, mem': Mem, c: ChunkMap, segs: seq<Segment>, nodes: Nodes, treemap: int, x: int)
    requires Tiled(c, segs) && TreesOk(mem, c, nodes, treemap) && IsLeaf(mem, nodes, x)
    requires NodeOk(c, nodes, x) && |nodes[x].ring| == 1
    requires Rd(mem', Slot(mem, c, nodes, x)) == 0
    requires forall a {:trigger Rd(mem', a)} :: a == Slot(mem, c, nodes, x) || Rd(mem', a) == Rd(mem, a)
    ensures TreesOk(mem', c, nodes - {x}, if nodes[x].depth == 0 then Clear(treemap, nodes[x].bin) else treemap)
    ensures Lost(nodes, nodes - {x}, x)
  {
    hide Pfx, Bit, Slot, Clear, Marked, RingAt;
    DetachLeaf(mem, mem', c, segs, nodes, x);
    SlotWhere(mem, c, nodes, x);
    var heads := if nodes[x].depth == 0 then {} else {Rd(mem, x + PARENT)};
    RingsKept(mem, mem', c, segs, nodes, nodes - {x}, heads);
    LostNode(mem, c, nodes, nodes - {x}, x);
    UnlinkRoots(mem, mem', c, nodes, treemap, x);
  }

  lemma UnlinkRoots(mem: Mem, mem': Mem, c: ChunkMap, nodes: Nodes, treemap: int, x: int)
    requires TreesOk(mem, c, nodes, treemap) && x in nodes && NodeOk(c, nodes, x)
    requires Rd(mem', Slot(mem, c, nodes, x)) == 0
    requires forall a {:trigger Rd(mem', a)} :: a == Slot(mem, c, nodes, x) || Rd(mem', a) == Rd(mem, a)
    ensures RootsOk(mem', nodes - {x}, if nodes[x].depth == 0 then Clear(treemap, nodes[x].bin) else treemap)
  {
    hide Pfx, Bit, Slot, Clear, Marked;
    var map' := if nodes[x].depth == 0 then Clear(treemap, nodes[x].bin) else treemap;
    SlotWhere(mem, c, nodes, x);
    MarkClear(treemap, nodes[x].bin);
    forall i
      ensures RootOk(mem', nodes - {x}, map', i)
    {
      assert RootOk(mem, nodes, treemap, i);
    }
  }

  /** The writes that give r the parent and the children of the node it replaces. */
  function AdoptMem(mem: Mem, r: int, xp: int, c0: int, c1: int): Mem {
    var m1 := Wr(mem, r + PARENT, xp);
    var m2 := if c0 != 0 then Wr(Wr(m1, r + CHILD, c0), c0 + PARENT, r) else m1;
    if c1 != 0 then Wr(Wr(m2, r + CHILD + 8, c1), c1 + PARENT, r) else m2
  }

  /** The link writes that put r in the place of x. */
  function RelinkMem(mem: Mem, s: int, r: int, xp: int, c0: int, c1: int): Mem {
    AdoptMem(Wr(mem, s, r), r, xp, c0, c1)
  }

  /** The slot, the replacement and the children of x are different places. */
  lemma RelinkApart(mem: Mem, c: ChunkMap, segs: seq<Segment>, nodes: Nodes, x: int, r: int)
    requires Tiled(c, segs) && TrieOk(mem, c, nodes) && CanSubstitute(mem, c, nodes, x, r)
    ensures var s, c0, c1 := Slot(mem, c, nodes, x), Child(mem, x, 0), Child(mem, x, 1);
            && s != 0 && s % 8 == 0 && !(r + 16 <= s < r + 64) && !(x + 16 <= s < x + 64)
            && (x + 64 <= r || r + 64 <= x)
            && (c0 != 0 ==> c0 in nodes && (c0 + 64 <= r || r + 64 <= c0) && s != c0 + PARENT && (c0 + 64 <= x || x + 64 <= c0))
            && (c1 != 0 ==> c1 in nodes && (c1 + 64 <= r || r + 64 <= c1) && s != c1 + PARENT && (c1 + 64 <= x || x + 64 <= c1))
            && (c0 != 0 && c1 != 0 ==> c0 + 64 <= c1 || c1 + 64 <= c0)
  {
    hide Pfx, Bit, Slot;
    var c0, c1 := Child(mem, x, 0), Child(mem, x, 1);
    SlotWhere(mem, c, nodes, x);
    assert DownOk(mem, c, nodes, x, 0) && DownOk(mem, c, nodes, x, 1);
    LargeApart(c, segs, x, r);
    if c0 != 0 { LargeApart(c, segs, c0, r); LargeApart(c, segs, c0, x); }
    if c1 != 0 { LargeApart(c, segs, c1, r); LargeApart(c, segs, c1, x); }
    if c0 != 0 && c1 != 0 { LargeApart(c, segs, c0, c1); }
    if nodes[x].depth > 0 {
      var p := Rd(mem, x + PARENT);
      LargeApart(c, segs, p, r);
      LargeApart(c, segs, p, x);
      if c0 != 0 { LargeApart(c, segs, c0, p); }
      if c1 != 0 { LargeApart(c, segs, c1, p); }
      assert ShapeOk(c, segs, p);
    }
  }

  lemma RelinkWrites(mem: Mem, c: ChunkMap, segs: seq<Segment>, nodes: Nodes, x: int, r: int)
    requires Tiled(c, segs) && TrieOk(mem, c, nodes) && CanSubstitute(mem, c, nodes, x, r)
    ensures var s, c0, c1 := Slot(mem, c, nodes, x), Child(mem, x, 0), Child(mem, x, 1);
            Relinked(mem, RelinkMem(mem, s, r, Rd(mem, x + PARENT), c0, c1), c, nodes, x, r)
  {
    hide Pfx, Bit, Slot, Rd, Wr, TrieOk, Tiled;
    RelinkApart(mem, c, segs, nodes, x, r);
  }

  /** The heads whose words the relinking touches. */
  function RelinkHeads(mem: Mem, nodes: Nodes, x: int, r: int): set<int>
    requires x in nodes
  {
    var c0, c1 := Child(mem, x, 0), Child(mem, x, 1);
    {r} + (if nodes[x].depth > 0 then {Rd(mem, x + PARENT)} else {})
    + (if c0 != 0 then {c0} else {}) + (if c1 != 0 then {c1} else {})
  }

  lemma RelinkScope(mem: Mem, mem': Mem, c: ChunkMap, nodes: Nodes, x: int, r: int)
    requires TrieOk(mem, c, nodes) && CanSubstitute(mem, c, nodes, x, r) && Relinked(mem, mem', c, nodes, x, r)
    ensures OnlyTrieWords(mem, mem', RelinkHeads(mem, nodes, x, r), 0)
    ensures RelinkHeads(mem, nodes, x, r) <= nodes.Keys + {r}
    ensures forall t :: t in RelinkHeads(mem, nodes, x, r) ==> Large(c, t)
  {
    hide Pfx, Bit, Slot;
    SlotWhere(mem, c, nodes, x);
    assert DownOk(mem, c, nodes, x, 0) && DownOk(mem, c, nodes, x, 1);
    var heads := RelinkHeads(mem, nodes, x, r);
    forall a | !(TREEBINS <= a < SEG_HEAD) && !(exists t :: t in heads && t + CHILD <= a <= t + PARENT)
      ensures Rd(mem', a) == Rd(mem, a)
    {
      assert r in heads;
    }
  }

  lemma SubstituteRoots(mem: Mem, mem': Mem, c: ChunkMap, nodes: Nodes, treemap: int, x: int, r: int, ring: seq<int>)
    requires TrieOk(mem, c, nodes) && RootsOk(mem, nodes, treemap)
    requires CanSubstitute(mem, c, nodes, x, r) && Relinked(mem, mem', c, nodes, x, r)
    ensures RootsOk(mem', Replace(nodes, x, r, ring), treemap)
  {
    hide Pfx, Bit, Slot, Marked;
    var nodes' := Replace(nodes, x, r, ring);
    SlotWhere(mem, c, nodes, x);
    forall i
      ensures RootOk(mem', nodes', treemap, i)
    {
      assert RootOk(mem, nodes, treemap, i);
      if 0 <= i < 32 {
        RootWords(mem, mem', c, nodes, x, r, i);
        if nodes[x].depth > 0 || nodes[x].bin != i {
          SlotNotRoot(mem, c, nodes, x, i);
        }
      }
    }
  }

  lemma SlotNotRoot(mem: Mem, c: ChunkMap, nodes: Nodes, x: int, i: int)
    requires TrieOk(mem, c, nodes) && x in nodes && NodeOk(c, nodes, x) && 0 <= i < 32
    requires nodes[x].depth > 0 || nodes[x].bin != i
    ensures Slot(mem, c, nodes, x) != TreeBinAt(i)
  {
    hide Pfx, Bit;
    SlotWhere(mem, c, nodes, x);
  }

  /** r lies in the subtree of x. */
  ghost predicate Below(c: ChunkMap, nodes: Nodes, x: int, r: int) {
    && x in nodes && r in nodes && NodeOk(c, nodes, x) && NodeOk(c, nodes, r)
    && nodes[r].bin == nodes[x].bin && nodes[r].depth > nodes[x].depth
    && Pfx(c[r].size, nodes[x].bin, nodes[x].depth) == Pfx(c[x].size, nodes[x].bin, nodes[x].depth)
  }

  /** Detaching a leaf r below x makes it a candidate for the place of x. */
  lemma DetachForSubstitute(mem: Mem, mem': Mem, c: ChunkMap, segs: seq<Segment>, nodes: Nodes, x: int, r: int)
    requires Tiled(c, segs) && TrieOk(mem, c, nodes) && Below(c, nodes, x, r) && IsLeaf(mem, nodes, r)
    requires mem' == Wr(mem, Slot(mem, c, nodes, r), 0)
    ensures TrieOk(mem', c, nodes - {r}) && CanSubstitute(mem', c, nodes - {r}, x, r)
    ensures Rd(mem, r + PARENT) in nodes
    ensures OnlyTrieWords(mem, mem', {Rd(mem, r + PARENT)}, 0)
    ensures forall i :: 0 <= i < 32 ==> Rd(mem', TreeBinAt(i)) == Rd(mem, TreeBinAt(i))
  {
    hide Pfx, Bit, Slot, Rd, Wr, UpOk, DownOk;
    DetachLeaf(mem, mem', c, segs, nodes, r);
    SlotWhere(mem, c, nodes, r);
    var q := Rd(mem, r + PARENT);
    LargeApart(c, segs, q, r);
    assert NodeOk(c, nodes, x);
    forall n | n in nodes && n in c && n != r
      ensures c[n].size != c[r].size
    {
      assert SizesDiffer(c, nodes, n, r);
    }
    forall i | 0 <= i < 32
      ensures Rd(mem', TreeBinAt(i)) == Rd(mem, TreeBinAt(i))
    {
      SlotNotRoot(mem, c, nodes, r, i);
    }
  }

  lemma OnlyTrieWordsTrans(m0: Mem, m1: Mem, m2: Mem, h1: set<int>, h2: set<int>)
    requires OnlyTrieWords(m0, m1, h1, 0) && OnlyTrieWords(m1, m2, h2, 0)
    ensures OnlyTrieWords(m0, m2, h1 + h2, 0)
  {
    hide Rd;
    forall a | !(TREEBINS <= a < SEG_HEAD) && !(exists t :: t in h1 + h2 && t + CHILD <= a <= t + PARENT)
      ensures Rd(m2, a) == Rd(m0, a)
    {
      assert forall t :: t in h1 ==> t in h1 + h2;
      assert forall t :: t in h2 ==> t in h1 + h2;
      assert Rd(m2, a) == Rd(m1, a);
    }
  }

  /** Removing an inner node with no other ring member: a leaf below takes its place. */
  lemma UnlinkInner(mem: Mem, m1: Mem, m2: Mem, c: ChunkMap, segs: seq<Segment>, nodes: Nodes, treemap: int, x: int, r: int)
    requires Tiled(c, segs) && TreesOk(mem, c, nodes, treemap)
    requires Below(c, nodes, x, r) && IsLeaf(mem, nodes, r) && |nodes[x].ring| == 1
    requires m1 == Wr(mem, Slot(mem, c, nodes, r), 0)
    requires Relinked(m1, m2, c, nodes - {r}, x, r)
    ensures var nodes' := Replace(nodes - {r}, x, r, nodes[r].ring);
            TreesOk(m2, c, nodes', treemap) && Lost(nodes, nodes', x)
  {
    hide Pfx, Bit, Slot, Rd, Wr, UpOk, DownOk, Marked, RingAt, Relinked;
    var nodes1 := nodes - {r};
    var nodes' := Replace(nodes1, x, r, nodes[r].ring);
    DetachForSubstitute(mem, m1, c, segs, nodes, x, r);
    Substitute(m1, m2, c, segs, nodes1, x, r, nodes[r].ring);
    RelinkScope(m1, m2, c, nodes1, x, r);
    OnlyTrieWordsTrans(mem, m1, m2, {Rd(mem, r + PARENT)}, RelinkHeads(m1, nodes1, x, r));
    RingsKept(mem, m2, c, segs, nodes, nodes', {Rd(mem, r + PARENT)} + RelinkHeads(m1, nodes1, x, r));
    LostNode(mem, c, nodes, nodes', x);
    RootsDetached(mem, m1, c, nodes, treemap, x, r);
    SubstituteRoots(m1, m2, c, nodes1, treemap, x, r, nodes[r].ring);
  }

  lemma RootsDetached(mem: Mem, m1: Mem, c: ChunkMap, nodes: Nodes, treemap: int, x: int, r: int)
    requires TreesOk(mem, c, nodes, treemap) && Below(c, nodes, x, r)
    requires forall i :: 0 <= i < 32 ==> Rd(m1, TreeBinAt(i)) == Rd(mem, TreeBinAt(i))
    ensures RootsOk(m1, nodes - {r}, treemap)
  {
    hide Pfx, Bit, Marked;
    forall i
      ensures RootOk(m1, nodes - {r}, treemap, i)
    {
      assert RootOk(mem, nodes, treemap, i);
    }
  }

  /** A ring with its last member moved to the front and its old head dropped. */
  function Promoted(l: seq<int>): seq<int>
    requires |l| >= 2
  {
    [l[|l| - 1]] + l[1..|l| - 1]
  }

  /** Removing the head of a larger ring: the member behind it in the ring takes its place. */
  lemma UnlinkHead(mem: Mem, m1: Mem, m2: Mem, c: ChunkMap, segs: seq<Segment>, nodes: Nodes, treemap: int, x: int)
    requires Tiled(c, segs) && TreesOk(mem, c, nodes, treemap) && x in nodes && NodeOk(c, nodes, x) && |nodes[x].ring| >= 2
    requires var f, r := Rd(mem, x + FD), Rd(mem, x + BK);
             m1 == Wr(Wr(mem, f + BK, r), r + FD, f) && Relinked(m1, m2, c, nodes, x, r)
    ensures var nodes' := Replace(nodes, x, Rd(mem, x + BK), Promoted(nodes[x].ring));
            TreesOk(m2, c, nodes', treemap) && Lost(nodes, nodes', x)
  {
    hide Pfx, Bit, Slot, Rd, Wr, UpOk, DownOk, Marked, RingAt, Relinked;
    var f, r := Rd(mem, x + FD), Rd(mem, x + BK);
    var l := nodes[x].ring;
    var nodes' := Replace(nodes, x, r, Promoted(l));
    HeadPair(mem, c, nodes, x);
    RingChangeTrie(mem, m1, c, segs, nodes, treemap, x, f, r, 0, nodes);
    PromoteCan(mem, m1, c, segs, nodes, treemap, x);
    Substitute(m1, m2, c, segs, nodes, x, r, Promoted(l));
    SubstituteRoots(m1, m2, c, nodes, treemap, x, r, Promoted(l));
    forall n
      ensures RingHead(nodes', n)
    {
      assert RingHead(nodes, n);
    }
    forall n, j, k
      ensures RingDistinct(nodes', n, j, k)
    {
      assert RingDistinct(nodes, n, j, k);
      assert RingDistinct(nodes, x, j, |l| - 1) && RingDistinct(nodes, x, k, |l| - 1) && RingDistinct(nodes, x, j, k);
    }
    forall n, k
      ensures RingAt(m2, c, nodes', n, k)
    {
      PromoteRingAt(mem, m1, m2, c, segs, nodes, treemap, x, n, k);
    }
    LostHead(mem, c, nodes, x, r);
  }

  lemma HeadPair(mem: Mem, c: ChunkMap, nodes: Nodes, x: int)
    requires TrieOk(mem, c, nodes) && RingsOk(mem, c, nodes) && x in nodes && NodeOk(c, nodes, x) && |nodes[x].ring| >= 2
    ensures var l := nodes[x].ring;
            && l[0] == x && Rd(mem, x + FD) == l[1] && Rd(mem, x + BK) == l[|l| - 1]
            && RingPair(mem, c, nodes, x, l[1], l[|l| - 1], 0)
            && l[|l| - 1] != x && l[|l| - 1] !in nodes && Plain(mem, l[|l| - 1])
            && Large(c, l[|l| - 1]) && c[l[|l| - 1]].size == c[x].size
  {
    var l := nodes[x].ring;
    assert RingHead(nodes, x) && RingAt(mem, c, nodes, x, 0) && RingAt(mem, c, nodes, x, |l| - 1);
    assert RingDistinct(nodes, x, 0, |l| - 1);
    if l[|l| - 1] in nodes { NodeNotPlain(mem, c, nodes, l[|l| - 1]); }
  }

  lemma PromoteCan(mem: Mem, m1: Mem, c: ChunkMap, segs: seq<Segment>, nodes: Nodes, treemap: int, x: int)
    requires Tiled(c, segs) && TreesOk(mem, c, nodes, treemap) && x in nodes && NodeOk(c, nodes, x) && |nodes[x].ring| >= 2
    requires var f, r := Rd(mem, x + FD), Rd(mem, x + BK); m1 == Wr(Wr(mem, f + BK, r), r + FD, f)
    ensures CanSubstitute(m1, c, nodes, x, Rd(mem, x + BK))
  {
    hide Pfx, Bit, Rd, Wr, UpOk, DownOk, RingAt;
    var f, r := Rd(mem, x + FD), Rd(mem, x + BK);
    HeadPair(mem, c, nodes, x);
    RingChangeMember(mem, m1, c, segs, nodes, x, f, r, 0, |nodes[x].ring| - 1);
    forall n | n in nodes && n in c && n != x
      ensures c[n].size != c[r].size
    {
      assert SizesDiffer(c, nodes, n, x);
    }
  }

  lemma PromoteRingAt(mem: Mem, m1: Mem, m2: Mem, c: ChunkMap, segs: seq<Segment>, nodes: Nodes, treemap: int, x: int, n: int, k: int)
    requires Tiled(c, segs) && TreesOk(mem, c, nodes, treemap) && x in nodes && NodeOk(c, nodes, x) && |nodes[x].ring| >= 2
    requires var f, r := Rd(mem, x + FD), Rd(mem, x + BK);
             m1 == Wr(Wr(mem, f + BK, r), r + FD, f) && Relinked(m1, m2, c, nodes, x, r)
    ensures RingAt(m2, c, Replace(nodes, x, Rd(mem, x + BK), Promoted(nodes[x].ring)), n, k)
  {
    hide Pfx, Bit, Slot, Rd, Wr, UpOk, DownOk, Marked, Relinked, CycAt, RootOk, SizesDiffer;
    var f, r := Rd(mem, x + FD), Rd(mem, x + BK);
    var l := nodes[x].ring;
    var nodes1 := nodes[x := nodes[x].(ring := Promoted(l))];
    var nodes' := Replace(nodes, x, r, Promoted(l));
    HeadPair(mem, c, nodes, x);
    RingChangeTrie(mem, m1, c, segs, nodes, treemap, x, f, r, 0, nodes);
    PromoteCan(mem, m1, c, segs, nodes, treemap, x);
    RelinkScope(m1, m2, c, nodes, x, r);
    var heads := RelinkHeads(m1, nodes, x, r);
    if n in nodes' && n in c && 0 <= k < |nodes'[n].ring| {
      if n == r {
        PromotedMember(mem, m1, c, segs, nodes, x, k);
        assert RingAt(m1, c, nodes', r, k);
        if k > 0 { NotHead(m1, c, nodes, heads, x, r, Promoted(l)[k]); RingDistinctFrom(nodes, x, k); }
        RingFrame(m1, m2, c, segs, nodes', heads, 0, r, k);
      } else {
        RingChangeOther(mem, m1, c, segs, nodes, x, f, r, 0, n, k);
        if k > 0 {
          NotHead(m1, c, nodes, heads, x, r, nodes[n].ring[k]);
          RingsDisjointFrom(mem, c, nodes, n, x, k, |l| - 1);
        }
        RingFrame(m1, m2, c, segs, nodes, heads, 0, n, k);
        assert RingAt(m2, c, nodes, n, k);
      }
    }
  }

  lemma RingsDisjointFrom(mem: Mem, c: ChunkMap, nodes: Nodes, n: int, m: int, j: int, k: int)
    requires TrieOk(mem, c, nodes) && RingsOk(mem, c, nodes) && n in nodes && m in nodes && n != m
    requires 0 <= j < |nodes[n].ring| && 0 <= k < |nodes[m].ring|
    ensures nodes[n].ring[j] != nodes[m].ring[k]
  {
    if nodes[n].ring[j] == nodes[m].ring[k] { RingsDisjoint(mem, c, nodes, n, m, j, k); }
  }

  lemma RingDistinctFrom(nodes: Nodes, x: int, k: int)
    requires x in nodes && |nodes[x].ring| >= 2 && 0 < k < |nodes[x].ring| - 1
    requires RingDistinct(nodes, x, k, |nodes[x].ring| - 1)
    ensures Promoted(nodes[x].ring)[k] != nodes[x].ring[|nodes[x].ring| - 1]
  {
  }

  /** A member that is plain is not among the touched heads, unless it is r. */
  lemma NotHead(mem: Mem, c: ChunkMap, nodes: Nodes, heads: set<int>, x: int, r: int, y: int)
    requires TrieOk(mem, c, nodes) && heads <= nodes.Keys + {r} && Plain(mem, y)
    ensures y != r ==> y !in heads
  {
    if y in nodes { NodeNotPlain(mem, c, nodes, y); }
  }

  lemma PromotedMember(mem: Mem, m1: Mem, c: ChunkMap, segs: seq<Segment>, nodes: Nodes, x: int, k: int)
    requires Tiled(c, segs) && TrieOk(mem, c, nodes) && RingsOk(mem, c, nodes)
    requires x in nodes && NodeOk(c, nodes, x) && |nodes[x].ring| >= 2
    requires var f, r := Rd(mem, x + FD), Rd(mem, x + BK); m1 == Wr(Wr(mem, f + BK, r), r + FD, f)
    requires 0 <= k < |Promoted(nodes[x].ring)|
    ensures var l := Promoted(nodes[x].ring);
            && Large(c, l[k]) && c[l[k]].size == c[x].size && CycAt(m1, l, k)
            && Rd(m1, l[k] + INDEX) == nodes[x].bin && (k > 0 ==> Plain(m1, l[k]))
  {
    hide Rd, Wr, CycAt, UpOk, DownOk, Cyclic;
    var f, r := Rd(mem, x + FD), Rd(mem, x + BK);
    var l := nodes[x].ring;
    HeadPair(mem, c, nodes, x);
    RingCyclic(mem, c, nodes, x);
    PromotedCyclic(mem, m1, c, segs, l, k);
    var y := if k == 0 then |l| - 1 else k;
    assert RingAt(mem, c, nodes, x, y);
    RingChangeMember(mem, m1, c, segs, nodes, x, f, r, 0, y);
  }

  lemma PromotedCyclic(mem: Mem, m1: Mem, c: ChunkMap, segs: seq<Segment>, l: seq<int>, k: int)
    requires Tiled(c, segs) && |l| >= 2 && Cyclic(mem, c, l)
    requires var f, r := Rd(mem, l[0] + FD), Rd(mem, l[0] + BK); m1 == Wr(Wr(mem, f + BK, r), r + FD, f)
    ensures CycAt(m1, Promoted(l), k)
  {
    hide Rd, Wr, CycAt, Tiled;
    CycRemove(mem, m1, c, segs, l, 0);
    assert l[..0] + l[1..] == l[1..];
    CycRotate(m1, c, l[1..]);
    assert Promoted(l) == [l[1..][|l[1..]| - 1]] + l[1..][..|l[1..]| - 1];
  }

  lemma WithoutCyclic(mem: Mem, m1: Mem, c: ChunkMap, segs: seq<Segment>, l: seq<int>, k: int, j: int)
    requires Tiled(c, segs) && |l| >= 2 && Cyclic(mem, c, l) && 0 <= k < |l|
    requires var f, r := Rd(mem, l[k] + FD), Rd(mem, l[k] + BK); m1 == Wr(Wr(mem, f + BK, r), r + FD, f)
    ensures CycAt(m1, Without(l, k), j)
  {
    hide Rd, Wr, CycAt, Tiled;
    CycRemove(mem, m1, c, segs, l, k);
  }

  lemma LostHead(mem: Mem, c: ChunkMap, nodes: Nodes, x: int, r: int)
    requires TrieOk(mem, c, nodes) && RingsOk(mem, c, nodes) && x in nodes && |nodes[x].ring| >= 2 && r !in nodes
    ensures Lost(nodes, Replace(nodes, x, r, Promoted(nodes[x].ring)), x)
  {
    var l := nodes[x].ring;
    var nodes' := Replace(nodes, x, r, Promoted(l));
    assert RingHead(nodes, x);
    forall q
      ensures InTrees(nodes', q) <==> InTrees(nodes, q) && q != x
    {
      if InTrees(nodes', q) {
        var n, k := MemberIsNode(nodes', q);
        if n == r {
          var y := if k == 0 then |l| - 1 else k;
          NodeInTrees(nodes, x, y);
          assert RingDistinct(nodes, x, 0, y);
        } else {
          NodeInTrees(nodes, n, k);
          RingsDisjointFrom(mem, c, nodes, n, x, k, 0);
        }
      }
      if InTrees(nodes, q) && q != x {
        var n, k := MemberIsNode(nodes, q);
        if n == x {
          NodeInTrees(nodes', r, if k == |l| - 1 then 0 else k);
        } else {
          NodeInTrees(nodes', n, k);
        }
      }
    }
  }

  function Without(l: seq<int>, k: int): seq<int>
    requires 0 <= k < |l|
  {
    l[..k] + l[k + 1..]
  }

  /** Removing a ring member that is not in the trie. */
  lemma UnlinkMember(mem: Mem, m1: Mem, c: ChunkMap, segs: seq<Segment>, nodes: Nodes, treemap: int, n: int, k: int)
    requires Tiled(c, segs) && TreesOk(mem, c, nodes, treemap) && n in nodes && 0 < k < |nodes[n].ring|
    requires var x := nodes[n].ring[k];
             var f, r := Rd(mem, x + FD), Rd(mem, x + BK); m1 == Wr(Wr(mem, f + BK, r), r + FD, f)
    ensures var nodes' := nodes[n := nodes[n].(ring := Without(nodes[n].ring, k))];
            TreesOk(m1, c, nodes', treemap) && Lost(nodes, nodes', nodes[n].ring[k])
  {
    hide Rd, Wr, CycAt, UpOk, DownOk, RingAt, Marked;
    var l := nodes[n].ring;
    var x := l[k];
    var f, r := Rd(mem, x + FD), Rd(mem, x + BK);
    var nodes' := nodes[n := nodes[n].(ring := Without(l, k))];
    MemberPair(mem, c, nodes, n, k);
    RingChangeTrie(mem, m1, c, segs, nodes, treemap, n, f, r, 0, nodes');
    forall m
      ensures RingHead(nodes', m)
    {
      assert RingHead(nodes, m);
    }
    forall m, i, j
      ensures RingDistinct(nodes', m, i, j)
    {
      assert RingDistinct(nodes, m, i, j);
      assert RingDistinct(nodes, n, if i < k then i else i + 1, if j < k then j else j + 1);
    }
    forall m, j
      ensures RingAt(m1, c, nodes', m, j)
    {
      UnlinkMemberAt(mem, m1, c, segs, nodes, treemap, n, k, m, j);
    }
    LostMember(mem, c, nodes, n, k);
  }

  lemma MemberPair(mem: Mem, c: ChunkMap, nodes: Nodes, n: int, k: int)
    requires TrieOk(mem, c, nodes) && RingsOk(mem, c, nodes) && n in nodes && 0 < k < |nodes[n].ring|
    ensures var x := nodes[n].ring[k]; RingPair(mem, c, nodes, n, Rd(mem, x + FD), Rd(mem, x + BK), 0)
  {
    assert NodeOk(c, nodes, n) && RingAt(mem, c, nodes, n, k);
  }

  lemma UnlinkMemberAt(mem: Mem, m1: Mem, c: ChunkMap, segs: seq<Segment>, nodes: Nodes, treemap: int, n: int, k: int, m: int, j: int)
    requires Tiled(c, segs) && TreesOk(mem, c, nodes, treemap) && n in nodes && 0 < k < |nodes[n].ring|
    requires var x := nodes[n].ring[k];
             var f, r := Rd(mem, x + FD), Rd(mem, x + BK); m1 == Wr(Wr(mem, f + BK, r), r + FD, f)
    ensures RingAt(m1, c, nodes[n := nodes[n].(ring := Without(nodes[n].ring, k))], m, j)
  {
    hide Rd, Wr, CycAt, UpOk, DownOk, Marked, Cyclic;
    var l := nodes[n].ring;
    var x := l[k];
    var f, r := Rd(mem, x + FD), Rd(mem, x + BK);
    MemberPair(mem, c, nodes, n, k);
    if m == n && 0 <= j < |l| - 1 {
      assert NodeOk(c, nodes, n);
      RingCyclic(mem, c, nodes, n);
      WithoutCyclic(mem, m1, c, segs, l, k, j);
      var y := if j < k then j else j + 1;
      assert RingAt(mem, c, nodes, n, y);
      RingChangeMember(mem, m1, c, segs, nodes, n, f, r, 0, y);
    } else if m in nodes && m != n && 0 <= j < |nodes[m].ring| {
      RingChangeOther(mem, m1, c, segs, nodes, n, f, r, 0, m, j);
      assert RingAt(m1, c, nodes, m, j);
    }
  }

  lemma LostMember(mem: Mem, c: ChunkMap, nodes: Nodes, n: int, k: int)
    requires TrieOk(mem, c, nodes) && RingsOk(mem, c, nodes) && n in nodes && 0 < k < |nodes[n].ring|
    ensures Lost(nodes, nodes[n := nodes[n].(ring := Without(nodes[n].ring, k))], nodes[n].ring[k])
  {
    var l := nodes[n].ring;
    var nodes' := nodes[n := nodes[n].(ring := Without(l, k))];
    forall q
      ensures InTrees(nodes', q) <==> InTrees(nodes, q) && q != l[k]
    {
      if InTrees(nodes', q) {
        var m, j := MemberIsNode(nodes', q);
        if m == n {
          var y := if j < k then j else j + 1;
          NodeInTrees(nodes, n, y);
          assert RingDistinct(nodes, n, y, k) && RingDistinct(nodes, n, k, y);
        } else {
          NodeInTrees(nodes, m, j);
          RingsDisjointFrom(mem, c, nodes, m, n, j, k);
        }
      }
      if InTrees(nodes, q) && q != l[k] {
        var m, j := MemberIsNode(nodes, q);
        NodeInTrees(nodes', m, if m == n && j > k then j - 1 else j);
      }
    }
  }

  // ---------- frame ----------

  /** The trees depend on nothing but their own words and the chunks they hold. */
  lemma TreesFrame(mem: Mem, mem': Mem, c: ChunkMap, c': ChunkMap, segs: seq<Segment>, nodes: Nodes, treemap: int)
    requires Tiled(c, segs) && TreesOk(mem, c, nodes, treemap) && SameTrees(mem, mem', c, c', nodes)
    ensures TreesOk(mem', c', nodes, treemap)
  {
    forall n | n in nodes
      ensures Large(c, n) && InTrees(nodes, n)
    {
      NodeIsMember(mem, c, nodes, n);
      assert NodeOk(c, nodes, n);
    }
    forall n
      ensures NodeOk(c', nodes, n)
      ensures n in nodes ==> Large(c', n)
    {
      assert NodeOk(c, nodes, n);
    }
    forall n
      ensures UpOk(mem', c', nodes, n)
    {
      if n in nodes { UpFrame(mem, mem', c, c', segs, nodes, n); }
    }
    forall n, b
      ensures DownOk(mem', c', nodes, n, b)
    {
      if n in nodes { DownFrame(mem, mem', c, c', segs, nodes, n, b); }
    }
    forall n, m
      ensures SizesDiffer(c', nodes, n, m)
    {
      assert SizesDiffer(c, nodes, n, m);
    }
    forall n, k
      ensures RingAt(mem', c', nodes, n, k)
    {
      if n in nodes && 0 <= k < |nodes[n].ring| { RingAtFrame(mem, mem', c, c', segs, nodes, n, k); }
    }
    forall i
      ensures RootOk(mem', nodes, treemap, i)
    {
      assert RootOk(mem, nodes, treemap, i);
    }
  }

  ghost predicate SameTrees(mem: Mem, mem': Mem, c: ChunkMap, c': ChunkMap, nodes: Nodes) {
    && (forall a {:trigger Rd(mem', a)} :: TREEBINS <= a < SEG_HEAD ==> Rd(mem', a) == Rd(mem, a))
    && (forall q, a {:trigger TreeLink(c, q, a)} :: InTrees(nodes, q) && TreeLink(c, q, a) ==> Rd(mem', a) == Rd(mem, a))
    && (forall q {:trigger InTrees(nodes, q)} :: InTrees(nodes, q) ==>
          q in c' && q in c && c'[q].st == Binned && c'[q].size == c[q].size)
  }

  lemma MemberWordsSame(mem: Mem, mem': Mem, c: ChunkMap, c': ChunkMap, nodes: Nodes, x: int)
    requires SameTrees(mem, mem', c, c', nodes) && InTrees(nodes, x) && Large(c, x)
    ensures Rd(mem', x + FD) == Rd(mem, x + FD) && Rd(mem', x + BK) == Rd(mem, x + BK)
    ensures Rd(mem', x + INDEX) == Rd(mem, x + INDEX) && Rd(mem', x + PARENT) == Rd(mem, x + PARENT)
    ensures Child(mem', x, 0) == Child(mem, x, 0) && Child(mem', x, 1) == Child(mem, x, 1)
    ensures Large(c', x)
  {
    assert TreeLink(c, x, x + FD) && TreeLink(c, x, x + BK) && TreeLink(c, x, x + INDEX) && TreeLink(c, x, x + PARENT);
    assert TreeLink(c, x, x + CHILD) && TreeLink(c, x, x + CHILD + 8);
  }

  lemma UpFrame(mem: Mem, mem': Mem, c: ChunkMap, c': ChunkMap, segs: seq<Segment>, nodes: Nodes, n: int)
    requires TrieOk(mem, c, nodes) && RingsOk(mem, c, nodes) && SameTrees(mem, mem', c, c', nodes) && n in nodes
    ensures UpOk(mem', c', nodes, n)
  {
    hide Pfx, Bit;
    assert NodeOk(c, nodes, n) && UpOk(mem, c, nodes, n);
    NodeIsMember(mem, c, nodes, n);
    MemberWordsSame(mem, mem', c, c', nodes, n);
    SlotWhere(mem, c, nodes, n);
    if nodes[n].depth > 0 {
      var p := Rd(mem, n + PARENT);
      NodeIsMember(mem, c, nodes, p);
      MemberWordsSame(mem, mem', c, c', nodes, p);
      assert Child(mem', p, Bit(c[n].size, nodes[n].bin, nodes[n].depth - 1)) == n;
    }
  }

  lemma DownFrame(mem: Mem, mem': Mem, c: ChunkMap, c': ChunkMap, segs: seq<Segment>, nodes: Nodes, n: int, b: int)
    requires TrieOk(mem, c, nodes) && RingsOk(mem, c, nodes) && SameTrees(mem, mem', c, c', nodes) && n in nodes
    ensures DownOk(mem', c', nodes, n, b)
  {
    hide Pfx, Bit;
    assert NodeOk(c, nodes, n) && DownOk(mem, c, nodes, n, b);
    NodeIsMember(mem, c, nodes, n);
    MemberWordsSame(mem, mem', c, c', nodes, n);
    if 0 <= b <= 1 && Child(mem, n, b) != 0 {
      NodeIsMember(mem, c, nodes, Child(mem, n, b));
      MemberWordsSame(mem, mem', c, c', nodes, Child(mem, n, b));
    }
  }

  lemma RingAtFrame(mem: Mem, mem': Mem, c: ChunkMap, c': ChunkMap, segs: seq<Segment>, nodes: Nodes, n: int, k: int)
    requires TrieOk(mem, c, nodes) && RingsOk(mem, c, nodes) && SameTrees(mem, mem', c, c', nodes)
    requires n in nodes && 0 <= k < |nodes[n].ring|
    ensures RingAt(mem', c', nodes, n, k)
  {
    assert NodeOk(c, nodes, n) && RingAt(mem, c, nodes, n, k);
    NodeIsMember(mem, c, nodes, n);
    NodeInTrees(nodes, n, k);
    MemberWordsSame(mem, mem', c, c', nodes, nodes[n].ring[k]);
  }
}
