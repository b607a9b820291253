/** The whole state of the allocator as a value, its invariant, and the two kinds of step:
    those that rewrite bin links and those that rewrite boundary tags. */
module HeapState {
  import opened Words
  import opened BinMaps
  import opened Chunks
  import opened SmallBins
  import opened TreeBins
  import opened TreeOps
  import opened HeapOps

  /** Memory and bin maps, and the ghost view: chunks, segments, small lists and trees. */
  datatype State = State(mem: Mem, smallmap: int, treemap: int,
                         c: ChunkMap, segs: seq<Segment>, lists: Lists, nodes: Nodes)

  /** No chunk: used where a chunk address is expected to be absent. */
  const NOBODY: int := 0

  // ---------- segment records ----------

  /** A malloc_segment: base, size, next, exec_offset. */
  predicate RecordOk(mem: Mem, segs: seq<Segment>, i: int) {
    0 <= i < |segs| ==>
      var r := segs[i].rec;
      && Rd(mem, r) == segs[i].base && Rd(mem, r + 8) == segs[i].size
      && Rd(mem, r + 16) == (if i > 0 then segs[i - 1].rec else 0)
      && Rd(mem, r + 24) == segs[i].offset
  }

  ghost predicate RecordsOk(mem: Mem, segs: seq<Segment>) {
    forall i {:trigger RecordOk(mem, segs, i)} :: RecordOk(mem, segs, i)
  }

  // ---------- which chunks the bins hold ----------

  ghost predicate InBins(s: State, p: int) {
    || (exists i, k {:trigger s.lists[i][k]} :: 0 <= i < |s.lists| && 0 <= k < |s.lists[i]| && s.lists[i][k] == p)
    || InTrees(s.nodes, p)
  }

  predicate InOwnList(s: State, p: int) {
    p in s.c && 0 <= s.c[p].size / 8 < |s.lists| && p in s.lists[s.c[p].size / 8]
  }

  /** Every binned chunk except pend is in the bin of its size. */
  ghost predicate ListedOk(s: State, pend: int, p: int) {
    p in s.c && s.c[p].st == Binned && p != pend ==>
      if IsSmall(s.c[p].size) then InOwnList(s, p) else InTrees(s.nodes, p)
  }

  /** The invariant, but for the victim and top pointers; pend is not in any bin. */
  ghost predicate Core(s: State, pend: int) {
    && Tiled(s.c, s.segs) && Tagged(s.mem, s.c, s.segs)
    && SmallOk(s.mem, s.c, s.lists, s.smallmap) && TreesOk(s.mem, s.c, s.nodes, s.treemap)
    && RecordsOk(s.mem, s.segs)
    && (forall p {:trigger ListedOk(s, pend, p)} :: ListedOk(s, pend, p))
    && !InBins(s, pend)
  }

  lemma BinsHoldBinned(s: State, p: int)
    requires SmallOk(s.mem, s.c, s.lists, s.smallmap) && TreesOk(s.mem, s.c, s.nodes, s.treemap) && InBins(s, p)
    ensures p in s.c && s.c[p].st == Binned
    ensures InTrees(s.nodes, p) ==> Large(s.c, p)
    ensures !InTrees(s.nodes, p) ==> s.c[p].size < 256
  {
    if InTrees(s.nodes, p) {
      var n, k := MemberIsNode(s.nodes, p);
      assert NodeOk(s.c, s.nodes, n) && RingAt(s.mem, s.c, s.nodes, n, k);
    } else {
      var i, k :| 0 <= i < |s.lists| && 0 <= k < |s.lists[i]| && s.lists[i][k] == p;
      assert MemberOk(s.c, s.lists, i, k);
    }
  }

  lemma TreesHoldLarge(mem: Mem, c: ChunkMap, nodes: Nodes, treemap: int)
    requires TreesOk(mem, c, nodes, treemap)
    ensures forall q {:trigger InTrees(nodes, q)} :: InTrees(nodes, q) ==> Large(c, q)
  {
    forall q | InTrees(nodes, q)
      ensures Large(c, q)
    {
      var n, k := MemberIsNode(nodes, q);
      assert NodeOk(c, nodes, n) && RingAt(mem, c, nodes, n, k);
    }
  }

  lemma ListInBins(s: State, i: int, k: int)
    requires 0 <= i < |s.lists| && 0 <= k < |s.lists[i]|
    ensures InBins(s, s.lists[i][k])
  {
  }

  // ---------- steps on boundary tags ----------

  /** A step on the tags of the chunks in touched, none of which is in a bin or holds a record. */
  ghost predicate TagStep(s: State, s': State, touched: set<int>) {
    && s' == s.(mem := s'.mem, c := s'.c)
    && Tiled(s'.c, s.segs) && Tagged(s'.mem, s'.c, s.segs)
    && SameElsewhere(s.c, s'.c, touched) && ClaimsKept(s.c, s.mem, s'.mem, touched)
    && forall p {:trigger p in touched} :: p in touched ==> !InBins(s, p) && (p in s.c ==> s.c[p].st != Record)
  }

  lemma RecordsKept(s: State, mem': Mem)
    requires Tiled(s.c, s.segs) && RecordsOk(s.mem, s.segs)
    requires forall a {:trigger Rd(mem', a)} :: SEG_HEAD <= a < LOW ==> Rd(mem', a) == Rd(s.mem, a)
    requires forall q, a {:trigger PayloadWord(s.c, q, a)} ::
               q in s.c && s.c[q].st == Record && PayloadWord(s.c, q, a) ==> Rd(mem', a) == Rd(s.mem, a)
    ensures RecordsOk(mem', s.segs)
  {
    forall i
      ensures RecordOk(mem', s.segs, i)
    {
      assert RecordOk(s.mem, s.segs, i) && EndsOk(s.c, s.segs, i) && SegmentOk(s.segs, i);
      if 0 <= i < |s.segs| - 1 {
        var q := s.segs[i].rec - 16;
        assert ShapeOk(s.c, s.segs, q);
        assert PayloadWord(s.c, q, q + 16) && PayloadWord(s.c, q, q + 24);
        assert PayloadWord(s.c, q, q + 32) && PayloadWord(s.c, q, q + 40);
      }
    }
  }

  /** The bins and the words they use are the same; the chunks in touched are in no bin. */
  ghost predicate BinsKept(s: State, s': State, touched: set<int>) {
    && s'.smallmap == s.smallmap && s'.treemap == s.treemap && s'.lists == s.lists && s'.nodes == s.nodes
    && SameElsewhere(s.c, s'.c, touched)
    && (forall a {:trigger Rd(s'.mem, a)} :: a < SEG_HEAD ==> Rd(s'.mem, a) == Rd(s.mem, a))
    && (forall q, a {:trigger LinkWord(s.c, q, a)} :: q !in touched && LinkWord(s.c, q, a) ==> Rd(s'.mem, a) == Rd(s.mem, a))
    && forall p {:trigger p in touched} :: p in touched ==> !InBins(s, p)
  }

  lemma SmallKept(s: State, s': State, touched: set<int>)
    requires Tiled(s.c, s.segs) && SmallOk(s.mem, s.c, s.lists, s.smallmap) && TreesOk(s.mem, s.c, s.nodes, s.treemap)
    requires BinsKept(s, s', touched)
    ensures SmallOk(s'.mem, s'.c, s.lists, s.smallmap)
  {
    forall i, k
      ensures MemberOk(s'.c, s.lists, i, k)
    {
      assert MemberOk(s.c, s.lists, i, k);
      if 0 <= i < |s.lists| && 0 <= k < |s.lists[i]| {
        ListInBins(s, i, k);
        assert SameAt(s.c, s'.c, s.lists[i][k]);
      }
    }
    forall i
      ensures BinOk(s'.mem, s.lists, s.smallmap, i)
    {
      assert BinOk(s.mem, s.lists, s.smallmap, i);
      if 0 <= i < |s.lists| {
        forall k
          ensures LinkOk(s'.mem, s.lists[i], SmallBinAt(i), k)
        {
          assert LinkOk(s.mem, s.lists[i], SmallBinAt(i), k) && MemberOk(s.c, s.lists, i, k);
          if 0 <= k < |s.lists[i]| {
            ListInBins(s, i, k);
            var p := s.lists[i][k];
            assert LinkWord(s.c, p, p + FD) && LinkWord(s.c, p, p + BK);
          }
        }
      }
    }
  }

  lemma TreesKept(s: State, s': State, touched: set<int>)
    requires Tiled(s.c, s.segs) && SmallOk(s.mem, s.c, s.lists, s.smallmap) && TreesOk(s.mem, s.c, s.nodes, s.treemap)
    requires BinsKept(s, s', touched)
    ensures TreesOk(s'.mem, s'.c, s.nodes, s.treemap)
  {
    forall q, a | InTrees(s.nodes, q) && TreeLink(s.c, q, a)
      ensures Rd(s'.mem, a) == Rd(s.mem, a)
    {
      assert InBins(s, q) && LinkWord(s.c, q, a);
    }
    forall q | InTrees(s.nodes, q)
      ensures q in s'.c && q in s.c && s'.c[q].st == Binned && s'.c[q].size == s.c[q].size
    {
      assert InBins(s, q);
      BinsHoldBinned(s, q);
      assert SameAt(s.c, s'.c, q);
    }
    TreesFrame(s.mem, s'.mem, s.c, s'.c, s.segs, s.nodes, s.treemap);
  }

  /** Any step that keeps the bins keeps the invariant, if tags and records are in order
      after it; the only touched chunk that may now be binned is pend'. */
  lemma BinsKeptCore(s: State, s': State, touched: set<int>, pend: int, pend': int)
    requires Core(s, pend) && BinsKept(s, s', touched)
    requires Tiled(s'.c, s'.segs) && Tagged(s'.mem, s'.c, s'.segs) && RecordsOk(s'.mem, s'.segs)
    requires pend == NOBODY || pend in touched
    requires pend' == NOBODY || pend' in touched
    requires NOBODY !in touched
    requires forall p :: p in touched && p in s'.c && s'.c[p].st == Binned ==> p == pend'
    ensures Core(s', pend')
  {
    SmallKept(s, s', touched);
    TreesKept(s, s', touched);
    forall p
      ensures ListedOk(s', pend', p)
    {
      assert ListedOk(s, pend, p);
      if p !in touched { assert SameAt(s.c, s'.c, p); }
      if p in s.c { AboveLow(s.c, s.segs, p); }
    }
    if InBins(s, NOBODY) {
      BinsHoldBinned(s, NOBODY);
      AboveLow(s.c, s.segs, NOBODY);
    }
    assert !InBins(s, pend');
    assert InBins(s', pend') == InBins(s, pend');
  }

  lemma TagStepBins(s: State, s': State, touched: set<int>)
    requires TagStep(s, s', touched)
    ensures BinsKept(s, s', touched)
  {
    forall q, a | q !in touched && LinkWord(s.c, q, a)
      ensures Rd(s'.mem, a) == Rd(s.mem, a)
    {
      assert Claim(s.c, q, a);
    }
  }

  /** Tag steps keep the invariant. */
  lemma TagStepCore(s: State, s': State, touched: set<int>, pend: int, pend': int)
    requires Core(s, pend) && TagStep(s, s', touched)
    requires pend == NOBODY || pend in touched
    requires pend' == NOBODY || pend' in touched
    requires NOBODY !in touched
    requires forall p :: p in touched && p in s'.c && s'.c[p].st == Binned ==> p == pend'
    ensures Core(s', pend')
  {
    hide SmallOk, TreesOk, Tiled, Tagged, BinsKept, InBins;
    TagStepBins(s, s', touched);
    forall q, a | q in s.c && s.c[q].st == Record && PayloadWord(s.c, q, a)
      ensures Rd(s'.mem, a) == Rd(s.mem, a)
    {
      assert Claim(s.c, q, a);
    }
    RecordsKept(s, s'.mem);
    BinsKeptCore(s, s', touched, pend, pend');
  }

  // ---------- steps on bin links ----------

  /** Nothing but bin words has changed in memory. */
  ghost predicate OnlyBinWords(c: ChunkMap, mem: Mem, mem': Mem) {
    forall a {:trigger Rd(mem', a)} :: !SmallWord(c, a) && !TreeWord(c, a) ==> Rd(mem', a) == Rd(mem, a)
  }

  /** A tag word is not a bin word. */
  lemma TagNotBin(c: ChunkMap, segs: seq<Segment>, p: int, a: int)
    requires Tiled(c, segs) && p in c
    requires a == p + HEAD || (a == p + c[p].size && !Topmost(c[p]) && c[p].st != Record)
          || (Topmost(c[p]) && a == p + c[p].size + HEAD) || (c[p].st == Record && a == p + SEGMENT_SIZE + HEAD)
    ensures !SmallWord(c, a) && !TreeWord(c, a)
  {
    AboveLow(c, segs, p);
    assert ShapeOk(c, segs, p) && NextOk(c, p);
    forall q
      ensures !LinkWord(c, q, a)
    {
      if a == p + c[p].size && !Topmost(c[p]) && c[p].st != Record {
        FirstWordFree(c, segs, a, q);
      } else {
        NotLinked(c, segs, p, a, q);
      }
    }
  }

  /** The first word of a chunk is not a link word. */
  lemma FirstWordFree(c: ChunkMap, segs: seq<Segment>, n: int, q: int)
    requires Tiled(c, segs) && n in c
    ensures !LinkWord(c, q, n)
  {
    if q in c {
      assert ShapeOk(c, segs, q);
      if q != n { Distinct(c, segs, n, q); }
    }
  }

  lemma NotLinked(c: ChunkMap, segs: seq<Segment>, p: int, a: int, q: int)
    requires Tiled(c, segs) && p in c
    requires a == p + HEAD || (Topmost(c[p]) && a == p + c[p].size + HEAD) || (c[p].st == Record && a == p + SEGMENT_SIZE + HEAD)
    ensures !LinkWord(c, q, a)
  {
    if q in c {
      assert ShapeOk(c, segs, q) && ShapeOk(c, segs, p);
      if q != p { Distinct(c, segs, p, q); }
    }
  }

  /** No client or record word is a bin word. */
  lemma PayloadNotBin(c: ChunkMap, segs: seq<Segment>, p: int, a: int)
    requires Tiled(c, segs) && PayloadWord(c, p, a)
    ensures !SmallWord(c, a) && !TreeWord(c, a)
  {
    AboveLow(c, segs, p);
    forall q
      ensures !LinkWord(c, q, a)
    {
      if q in c && q != p {
        assert ShapeOk(c, segs, q) && ShapeOk(c, segs, p);
        Distinct(c, segs, p, q);
      }
    }
  }

  /** Rewriting bin words disturbs neither tags nor records. */
  lemma BinStepTags(s: State, mem': Mem)
    requires Tiled(s.c, s.segs) && Tagged(s.mem, s.c, s.segs) && RecordsOk(s.mem, s.segs)
    requires OnlyBinWords(s.c, s.mem, mem')
    ensures Tagged(mem', s.c, s.segs) && RecordsOk(mem', s.segs)
  {
    forall p
      ensures TagOk(mem', s.c, s.segs, p)
    {
      assert TagOk(s.mem, s.c, s.segs, p);
      if p in s.c {
        TagNotBin(s.c, s.segs, p, p + HEAD);
        if Topmost(s.c[p]) {
          TagNotBin(s.c, s.segs, p, p + s.c[p].size + HEAD);
        } else if s.c[p].st == Record {
          TagNotBin(s.c, s.segs, p, p + SEGMENT_SIZE + HEAD);
        } else {
          TagNotBin(s.c, s.segs, p, p + s.c[p].size);
        }
      }
    }
    forall q, a | q in s.c && s.c[q].st == Record && PayloadWord(s.c, q, a)
      ensures Rd(mem', a) == Rd(s.mem, a)
    {
      PayloadNotBin(s.c, s.segs, q, a);
    }
    forall a | SEG_HEAD <= a < LOW
      ensures Rd(mem', a) == Rd(s.mem, a)
    {
      StaticNotBin(s.c, s.segs, a);
    }
    RecordsKept(s, mem');
  }

  lemma StaticNotBin(c: ChunkMap, segs: seq<Segment>, a: int)
    requires Tiled(c, segs) && SEG_HEAD <= a < LOW
    ensures !SmallWord(c, a) && !TreeWord(c, a)
  {
    forall q
      ensures !LinkWord(c, q, a)
    {
      if q in c { AboveLow(c, segs, q); }
    }
  }

  /** Words of small bins are not words of trees, and the other way round. */
  lemma SmallNotTree(c: ChunkMap, segs: seq<Segment>, a: int)
    requires Tiled(c, segs)
    ensures !(SmallWord(c, a) && TreeWord(c, a))
  {
    if SmallWord(c, a) && TreeWord(c, a) {
      if SMALLBINS <= a < TREEBINS {
        var q :| TreeLink(c, q, a);
        AboveLow(c, segs, q);
      } else {
        var p :| SmallLink(c, p, a);
        AboveLow(c, segs, p);
        var q :| TreeLink(c, q, a);
        assert ShapeOk(c, segs, p) && ShapeOk(c, segs, q);
        Distinct(c, segs, p, q);
      }
      assert false;
    }
  }

  lemma SmallStepTrees(mem: Mem, mem': Mem, c: ChunkMap, segs: seq<Segment>, nodes: Nodes, treemap: int)
    requires Tiled(c, segs) && TreesOk(mem, c, nodes, treemap) && OnlySmallWords(mem, mem', c)
    ensures TreesOk(mem', c, nodes, treemap)
  {
    forall a | TREEBINS <= a < SEG_HEAD
      ensures Rd(mem', a) == Rd(mem, a)
    {
      SmallNotTree(c, segs, a);
    }
    forall q, a | InTrees(nodes, q) && TreeLink(c, q, a)
      ensures Rd(mem', a) == Rd(mem, a)
    {
      SmallNotTree(c, segs, a);
    }
    TreesHoldLarge(mem, c, nodes, treemap);
    TreesFrame(mem, mem', c, c, segs, nodes, treemap);
  }

  lemma TreeStepSmall(mem: Mem, mem': Mem, c: ChunkMap, segs: seq<Segment>, lists: Lists, smallmap: int)
    requires Tiled(c, segs) && SmallOk(mem, c, lists, smallmap) && OnlyTreeWords(mem, mem', c)
    ensures SmallOk(mem', c, lists, smallmap)
  {
    forall a | SmallWord(c, a)
      ensures Rd(mem', a) == Rd(mem, a)
    {
      SmallNotTree(c, segs, a);
    }
    forall i, k | 0 <= i < |lists| && 0 <= k < |lists[i]|
      ensures lists[i][k] in c && c[lists[i][k]].st == Binned
    {
      assert MemberOk(c, lists, i, k);
    }
    SmallFrame(mem, mem', c, c, segs, lists, smallmap);
  }

  /** NOBODY is never in a bin. */
  lemma NobodyAbsent(s: State)
    requires Tiled(s.c, s.segs) && SmallOk(s.mem, s.c, s.lists, s.smallmap) && TreesOk(s.mem, s.c, s.nodes, s.treemap)
    ensures !InBins(s, NOBODY)
  {
    if InBins(s, NOBODY) {
      BinsHoldBinned(s, NOBODY);
      AboveLow(s.c, s.segs, NOBODY);
    }
  }

  /** The state after inserting p into its small bin. */
  function SmallInserted(s: State, p: int): State
    requires p in s.c && 0 <= s.c[p].size && s.c[p].size / 8 < |s.lists| && 0 <= s.smallmap
  {
    var i := s.c[p].size / 8;
    var b := SmallBinAt(i);
    var f := if Marked(s.smallmap, i) then Rd(s.mem, b + FD) else b;
    s.(mem := InsertLinks(s.mem, b, f, p), smallmap := if Marked(s.smallmap, i) then s.smallmap else Mark(s.smallmap, i),
       lists := s.lists[i := [p] + s.lists[i]])
  }

  lemma InsertSmallCore(s: State, p: int)
    requires Core(s, p) && p in s.c && s.c[p].st == Binned && IsSmall(s.c[p].size) && 0 <= s.c[p].size
    ensures Core(SmallInserted(s, p), NOBODY)
    ensures OnlyBinWords(s.c, s.mem, SmallInserted(s, p).mem)
  {
    hide Marked, Mark, InsertLinks, Tagged, RecordsOk, TreesOk;
    var i := s.c[p].size / 8;
    var s' := SmallInserted(s, p);
    if p in s.lists[i] {
      var k :| 0 <= k < |s.lists[i]| && s.lists[i][k] == p;
      ListInBins(s, i, k);
    }
    InsertSmall(s.mem, s.c, s.segs, s.lists, s.smallmap, p);
    SmallStepTrees(s.mem, s'.mem, s.c, s.segs, s.nodes, s.treemap);
    BinStepTags(s, s'.mem);
    forall q
      ensures ListedOk(s', NOBODY, q)
    {
      assert ListedOk(s, p, q);
    }
    NobodyAbsent(s');
  }

  lemma UnlinkSmallCore(s: State, i: int, k: int)
    requires Core(s, NOBODY) && IsMember(s.lists, i, k)
    ensures var p := s.lists[i][k];
            var f, b := Rd(s.mem, p + FD), Rd(s.mem, p + BK);
            var s' := s.(mem := UnlinkLinks(s.mem, f, b),
                         smallmap := if f == b then Clear(s.smallmap, i) else s.smallmap,
                         lists := s.lists[i := RemoveAt(s.lists[i], k)]);
            Core(s', p) && OnlyBinWords(s.c, s.mem, s'.mem)
  {
    hide Marked, Clear, UnlinkLinks, Tagged, RecordsOk, TreesOk;
    var p := s.lists[i][k];
    var f, b := Rd(s.mem, p + FD), Rd(s.mem, p + BK);
    var l' := RemoveAt(s.lists[i], k);
    var s' := s.(mem := UnlinkLinks(s.mem, f, b),
                 smallmap := if f == b then Clear(s.smallmap, i) else s.smallmap,
                 lists := s.lists[i := l']);
    UnlinkSmall(s.mem, s.c, s.segs, s.lists, s.smallmap, i, k);
    SmallStepTrees(s.mem, s'.mem, s.c, s.segs, s.nodes, s.treemap);
    BinStepTags(s, s'.mem);
    assert MemberOk(s.c, s.lists, i, k);
    forall q
      ensures ListedOk(s', p, q)
    {
      assert ListedOk(s, NOBODY, q);
      if q in s.c { AboveLow(s.c, s.segs, q); }
      if q in s.c && IsSmall(s.c[q].size) && InOwnList(s, q) && q != p {
        var j := s.c[q].size / 8;
        if j == i {
          var y :| 0 <= y < |s.lists[i]| && s.lists[i][y] == q;
          assert l'[if y < k then y else y - 1] == q;
        }
      }
    }
    UnlinkedAbsent(s, s', i, k);
  }

  lemma UnlinkedAbsent(s: State, s': State, i: int, k: int)
    requires Core(s, NOBODY) && IsMember(s.lists, i, k)
    requires s'.lists == s.lists[i := RemoveAt(s.lists[i], k)] && s'.nodes == s.nodes
    requires s.lists[i][k] !in RemoveAt(s.lists[i], k)
    ensures !InBins(s', s.lists[i][k])
  {
    var p := s.lists[i][k];
    assert MemberOk(s.c, s.lists, i, k);
    forall j, y | 0 <= j < |s'.lists| && 0 <= y < |s'.lists[j]|
      ensures s'.lists[j][y] != p
    {
      assert MemberOk(s.c, s.lists, j, y);
    }
    TreesHoldLarge(s.mem, s.c, s.nodes, s.treemap);
  }

  /** A step of the trees that gains p completes its insertion. */
  lemma InsertLargeCore(s: State, s': State, p: int)
    requires Core(s, p) && p in s.c && s.c[p].st == Binned && !IsSmall(s.c[p].size)
    requires s' == s.(mem := s'.mem, treemap := s'.treemap, nodes := s'.nodes)
    requires TreesOk(s'.mem, s.c, s'.nodes, s'.treemap) && Gained(s.nodes, s'.nodes, p)
    requires OnlyTreeWords(s.mem, s'.mem, s.c)
    ensures Core(s', NOBODY) && OnlyBinWords(s.c, s.mem, s'.mem)
  {
    hide Tagged, RecordsOk, TreesOk, SmallOk;
    TreeStepSmall(s.mem, s'.mem, s.c, s.segs, s.lists, s.smallmap);
    BinStepTags(s, s'.mem);
    forall q
      ensures ListedOk(s', NOBODY, q)
    {
      assert ListedOk(s, p, q);
    }
    NobodyAbsent(s');
  }

  /** A step of the trees that loses p takes it out of the bins. */
  lemma UnlinkLargeCore(s: State, s': State, p: int)
    requires Core(s, NOBODY) && InTrees(s.nodes, p)
    requires s' == s.(mem := s'.mem, treemap := s'.treemap, nodes := s'.nodes)
    requires TreesOk(s'.mem, s.c, s'.nodes, s'.treemap) && Lost(s.nodes, s'.nodes, p)
    requires OnlyTreeWords(s.mem, s'.mem, s.c)
    ensures Core(s', p) && OnlyBinWords(s.c, s.mem, s'.mem)
  {
    hide Tagged, RecordsOk, TreesOk;
    TreeStepSmall(s.mem, s'.mem, s.c, s.segs, s.lists, s.smallmap);
    BinStepTags(s, s'.mem);
    forall q
      ensures ListedOk(s', p, q)
    {
      assert ListedOk(s, NOBODY, q);
      if q in s.c { AboveLow(s.c, s.segs, q); }
    }
    assert InBins(s, p);
    BinsHoldBinned(s, p);
    forall i, k | 0 <= i < |s.lists| && 0 <= k < |s.lists[i]|
      ensures s.lists[i][k] != p
    {
      assert MemberOk(s.c, s.lists, i, k);
    }
  }

  // ---------- the victim and the top ----------

  /** No chunk is being worked on; the victim and the top are where their pointers say. */
  predicate PointerOk(c: ChunkMap, dv: int, dvsize: int, top: int, p: int) {
    p in c ==>
      && !Loose(c[p])
      && (c[p].st == Victim <==> p == dv && dvsize != 0)
      && (c[p].st == Top <==> p == top)
  }

  /** The fields of malloc_state that point at the victim and the top. */
  datatype Pointers = Pointers(dv: int, dvsize: int, top: int, topsize: int)

  /** The embedded segment record before its first use. */
  predicate BlankRecord(mem: Mem) {
    Rd(mem, SEG_HEAD) == 0 && Rd(mem, SEG_HEAD + 8) == 0 && Rd(mem, SEG_HEAD + 16) == 0 && Rd(mem, SEG_HEAD + 24) == 0
  }

  ghost predicate PointersOk(s: State, dv: int, dvsize: int, top: int, topsize: int) {
    && (forall p {:trigger PointerOk(s.c, dv, dvsize, top, p)} :: PointerOk(s.c, dv, dvsize, top, p))
    && (if dvsize == 0 then dv == 0 else dv in s.c && s.c[dv].size == dvsize)
    && (if |s.segs| == 0 then top == 0 && topsize == 0 && s.c == map[] && BlankRecord(s.mem)
        else top in s.c && s.c[top].size == topsize)
  }

  // ---------- what becomes of the victim and the top ----------

  /** A chunk of some bin, at p and of the given size, serves a request of nb bytes: for a small
      request the rest, if it makes a chunk, is the new victim. */
  function AfterBin(q: Pointers, p: int, size: int, nb: int): Pointers {
    if IsSmall(nb) && size - nb >= MIN_CHUNK_SIZE then q.(dv := p + nb, dvsize := size - nb) else q
  }

  /** The victim serves it: the rest stays the victim, if it makes a chunk. */
  function AfterVictim(q: Pointers, nb: int): Pointers {
    if q.dvsize - nb >= MIN_CHUNK_SIZE then q.(dv := q.dv + nb, dvsize := q.dvsize - nb) else q.(dv := 0, dvsize := 0)
  }

  /** The top serves it. */
  function AfterTop(q: Pointers, nb: int): Pointers {
    q.(top := q.top + nb, topsize := q.topsize - nb)
  }
}
