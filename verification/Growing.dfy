/** Growing the heap as steps on the whole state: the first segment, appending to the top
    segment, prepending to a segment, and adding a segment. */
module Growing {
  import opened Words
  import opened BinMaps
  import opened Chunks
  import opened SmallBins
  import opened TreeBins
  import opened HeapOps
  import opened Mapping
  import opened HeapState
  import opened HeapSteps
  import opened Releasing

  /** What the system answers to a request for memory: nothing, or a block with the distance to
      its executable image, which dlmmap leaves in the last word of the block. */
  datatype System = Refused | Mapped(base: int, offset: int)

  // ---------- the other blocks ----------

  /** The segments of s are there in s', with the same offsets, perhaps in other places. */
  predicate SegmentsKept(segs: seq<Segment>, segs': seq<Segment>) {
    |segs| <= |segs'| && forall i :: 0 <= i < |segs| ==> segs'[i].offset == segs[i].offset
  }

  /** No claim on memory is touched, except by the records of segments. */
  ghost predicate ClaimsIntact(c: ChunkMap, mem: Mem, mem': Mem) {
    forall q, a {:trigger Claim(c, q, a)} :: Claim(c, q, a) && q in c && c[q].st != Record ==> Rd(mem', a) == Rd(mem, a)
  }

  lemma GrowUsers(s: State, s': State, touched: set<int>)
    requires Tiled(s.c, s.segs) && SegmentsKept(s.segs, s'.segs) && SameElsewhere(s.c, s'.c, touched)
    requires ClaimsIntact(s.c, s.mem, s'.mem)
    requires forall q :: q in touched ==> !IsLive(s.c, q) && !IsLive(s'.c, q)
    ensures Undisturbed(s, s', NOBODY)
  {
    forall q | q != NOBODY
      ensures UserKept(s, s', q)
    {
      if q !in touched {
        assert SameAt(s.c, s'.c, q) && ShapeOk(s.c, s.segs, q);
        forall a | IsLive(s.c, q) && PayloadWord(s.c, q, a)
          ensures Rd(s'.mem, a) == Rd(s.mem, a)
        {
          assert Claim(s.c, q, a);
        }
      }
    }
  }

  /** A grown state keeps the bins. */
  lemma GrowCore(s: State, s': State, touched: set<int>)
    requires Core(s, NOBODY) && Tiled(s'.c, s'.segs) && Tagged(s'.mem, s'.c, s'.segs) && RecordsOk(s'.mem, s'.segs)
    requires s' == s.(mem := s'.mem, c := s'.c, segs := s'.segs)
    requires SegmentsKept(s.segs, s'.segs) && SameElsewhere(s.c, s'.c, touched) && NOBODY !in touched
    requires ClaimsIntact(s.c, s.mem, s'.mem)
    requires forall a {:trigger Rd(s'.mem, a)} :: a < SEG_HEAD ==> Rd(s'.mem, a) == Rd(s.mem, a)
    requires forall q :: q in touched ==> (q in s.c ==> s.c[q].st !in {Binned, Used}) && (q in s'.c ==> s'.c[q].st !in {Binned, Used})
    ensures Core(s', NOBODY) && Undisturbed(s, s', NOBODY)
  {
    hide InTrees, InBins;
    forall q | q in touched
      ensures !InBins(s, q)
    {
      NotBinned(s, q);
    }
    forall q, a | LinkWord(s.c, q, a)
      ensures Rd(s'.mem, a) == Rd(s.mem, a)
    {
      assert Claim(s.c, q, a);
    }
    assert BinsKept(s, s', touched);
    BinsKeptCore(s, s', touched, NOBODY, NOBODY);
    GrowUsers(s, s', touched);
  }

  // ---------- records ----------

  lemma LastRecord(s: State)
    requires Core(s, NOBODY) && |s.segs| > 0
    ensures var r := s.segs[|s.segs| - 1];
            && r.rec == SEG_HEAD && Rd(s.mem, SEG_HEAD) == r.base && Rd(s.mem, SEG_HEAD + 8) == r.size
            && Rd(s.mem, SEG_HEAD + 24) == r.offset
            && Rd(s.mem, SEG_HEAD + 16) == if |s.segs| > 1 then s.segs[|s.segs| - 2].rec else 0
  {
    assert SegmentOk(s.segs, |s.segs| - 1) && RecordOk(s.mem, s.segs, |s.segs| - 1);
  }

  /** The record of any other segment lies in the chunk made for it. */
  lemma RecordWhere(c: ChunkMap, segs: seq<Segment>, i: int)
    requires Tiled(c, segs) && 0 <= i < |segs| - 1
    ensures var q := segs[i].rec - 16;
            && LOW <= q && q in c && c[q].st == Record && c[q].size == SEGMENT_SIZE && c[q].sid == i
            && forall a :: q + 16 <= a < q + 48 ==> PayloadWord(c, q, a)
  {
    assert EndsOk(c, segs, i);
    AboveLow(c, segs, segs[i].rec - 16);
    assert ShapeOk(c, segs, segs[i].rec - 16);
  }

  lemma RecordKept(s: State, mem': Mem, segs': seq<Segment>, i: int)
    requires Core(s, NOBODY) && 0 <= i < |s.segs| - 1 && i < |segs'| && segs'[i] == s.segs[i]
    requires i > 0 ==> segs'[i - 1].rec == s.segs[i - 1].rec
    requires forall a :: s.segs[i].rec <= a < s.segs[i].rec + 32 ==> Rd(mem', a) == Rd(s.mem, a)
    ensures RecordOk(mem', segs', i)
  {
    assert RecordOk(s.mem, s.segs, i);
  }

  // ---------- the first segment ----------

  lemma FirstCore(s: State, s': State, base: int, size: int, offset: int)
    requires Core(s, NOBODY) && |s.segs| == 0 && s.c == map[] && FreshBlock([], base, size)
    requires s' == s.(mem := s'.mem, segs := [Segment(base, size, offset, SEG_HEAD)],
                      c := map[base := Chunk(size - TOP_FOOT_SIZE, Top, true, NONE, 0)])
    requires Rd(s'.mem, base + HEAD) == FreeHead(size - TOP_FOOT_SIZE)
    requires Rd(s'.mem, base + (size - TOP_FOOT_SIZE) + HEAD) == TOP_FOOT_SIZE
    requires Rd(s'.mem, SEG_HEAD) == base && Rd(s'.mem, SEG_HEAD + 8) == size
    requires Rd(s'.mem, SEG_HEAD + 16) == 0 && Rd(s'.mem, SEG_HEAD + 24) == offset
    requires forall a {:trigger Rd(s'.mem, a)} :: TREEBINS <= a < SEG_HEAD ==> Rd(s'.mem, a) == Rd(s.mem, a)
    ensures Core(s', NOBODY) && Undisturbed(s, s', NOBODY)
  {
    hide Tiled, Tagged;
    FirstSegment(s'.mem, base, size, offset);
    var held: ChunkMap := map[base := Chunk(size - TOP_FOOT_SIZE, HeldTop, true, NONE, 0)];
    SealTop(s'.mem, s'.mem, held, s'.segs, base);
    assert s'.c == SetStatus(held, base, Top);
    FirstBins(s, s');
    forall i
      ensures RecordOk(s'.mem, s'.segs, i)
    {
    }
    forall p
      ensures ListedOk(s', NOBODY, p)
    {
    }
    NobodyAbsent(s');
  }

  /** With no chunks there are no bin entries, and the empty bins need nothing of memory. */
  lemma FirstBins(s: State, s': State)
    requires Core(s, NOBODY) && s.c == map[]
    requires s'.lists == s.lists && s'.nodes == s.nodes && s'.smallmap == s.smallmap && s'.treemap == s.treemap
    requires forall a {:trigger Rd(s'.mem, a)} :: TREEBINS <= a < SEG_HEAD ==> Rd(s'.mem, a) == Rd(s.mem, a)
    ensures SmallOk(s'.mem, s'.c, s'.lists, s'.smallmap) && TreesOk(s'.mem, s'.c, s'.nodes, s'.treemap)
  {
    hide Marked;
    forall n
      ensures n !in s.nodes
    {
      assert NodeOk(s.c, s.nodes, n);
    }
    forall i | 0 <= i < 32
      ensures |s.lists[i]| == 0
    {
      assert MemberOk(s.c, s.lists, i, 0);
    }
    forall i
      ensures BinOk(s'.mem, s'.lists, s'.smallmap, i)
    {
      assert BinOk(s.mem, s.lists, s.smallmap, i);
    }
    forall i
      ensures RootOk(s'.mem, s'.nodes, s'.treemap, i)
    {
      assert RootOk(s.mem, s.nodes, s.treemap, i);
    }
  }

  // ---------- appending ----------

  lemma AppendCore(s: State, s': State, p: int, t: int)
    requires Core(s, NOBODY) && |s.segs| > 0 && p in s.c && s.c[p].st == Top
    requires FreshBlock(s.segs, s.segs[|s.segs| - 1].End(), t)
    requires s' == s.(mem := s'.mem, segs := ExtendSegs(s.segs, t), c := s.c[p := s.c[p].(size := s.c[p].size + t)])
    requires Rd(s'.mem, SEG_HEAD + 8) == s.segs[|s.segs| - 1].size + t
    requires Rd(s'.mem, p + HEAD) == FreeHead(s.c[p].size + t)
    requires Rd(s'.mem, p + (s.c[p].size + t) + HEAD) == TOP_FOOT_SIZE
    requires forall a {:trigger Rd(s'.mem, a)} ::
               a == SEG_HEAD + 8 || a == p + HEAD || s.segs[|s.segs| - 1].End() <= a < s.segs[|s.segs| - 1].End() + t
               || Rd(s'.mem, a) == Rd(s.mem, a)
    ensures Core(s', NOBODY) && Undisturbed(s, s', NOBODY)
  {
    hide SmallOk, TreesOk, InTrees, InBins, Rd, Wr, TagOk, ChunksApart, NextOk, EndsOk;
    var m1 := Wr(s'.mem, p + HEAD, Rd(s.mem, p + HEAD));
    var c1 := SetStatus(s.c, p, HeldTop);
    AboveLow(s.c, s.segs, p);
    assert ShapeOk(s.c, s.segs, p);
    Hold(s.mem, s.c, s.segs, p);
    ExtendTop(s.mem, m1, c1, s.segs, p, t);
    var c2 := c1[p := c1[p].(size := c1[p].size + t)];
    SealTop(m1, s'.mem, c2, s'.segs, p);
    assert s'.c == SetStatus(c2, p, Top);
    forall q, a | Claim(s.c, q, a)
      ensures LOW <= a && Rd(s'.mem, a) == Rd(s.mem, a)
    {
      assert Claim(c1, q, a);
      NotClaimed(s.c, s.segs, p, p + HEAD, q);
    }
    forall i
      ensures RecordOk(s'.mem, s'.segs, i)
    {
      if 0 <= i < |s.segs| - 1 {
        RecordWhere(s.c, s.segs, i);
        forall a | s.segs[i].rec <= a < s.segs[i].rec + 32
          ensures Rd(s'.mem, a) == Rd(s.mem, a)
        {
          assert Claim(s.c, s.segs[i].rec - 16, a);
        }
        RecordKept(s, s'.mem, s'.segs, i);
      }
      LastRecord(s);
    }
    GrowCore(s, s', {p});
  }

  // ---------- prepending ----------

  /** The new block, still whole and held, below the first chunk of segment k. */
  lemma PrependCore(s: State, s': State, k: int, t: int)
    requires Core(s, NOBODY) && CanPrepend(s.c, s.segs, k, t)
    requires s.segs[k].base in s.c
    requires s' == s.(mem := s'.mem, segs := PrependSegs(s.segs, k, t), c := PrependMap(s.c, s.segs[k].base, k, t))
    requires var r := s.segs[k].rec;
             && Rd(s'.mem, r) == s.segs[k].base - t && Rd(s'.mem, r + 8) == s.segs[k].size + t
             && (forall a {:trigger Rd(s'.mem, a)} ::
                   a == r || a == r + 8 || s.segs[k].base - t <= a < s.segs[k].base || Rd(s'.mem, a) == Rd(s.mem, a))
    ensures Core(s', NOBODY) && Undisturbed(s, s', NOBODY)
    ensures SameElsewhere(s.c, s'.c, {s.segs[k].base - t}) && s'.c[s.segs[k].base].pin && s.segs[k].base - t !in s.c
    ensures t % 8 == 0 && LOW <= s.segs[k].base - t && t >= PAGE
  {
    hide SmallOk, TreesOk, InTrees, InBins, Rd, Wr, TagOk, ChunksApart, NextOk, ShapeOk;
    var r, first := s.segs[k].rec, s.segs[k].base;
    var m1 := Wr(Wr(s'.mem, r, Rd(s.mem, r)), r + 8, Rd(s.mem, r + 8));
    assert SegmentOk(s.segs, k) && EndsOk(s.c, s.segs, k) && PrevOk(s.c, s.segs, first);
    if k < |s.segs| - 1 { RecordWhere(s.c, s.segs, k); }
    RecordAway(s, k, t);
    Prepend(s.mem, m1, s.c, s.segs, k, t);
    BlockApart(s.c, s.segs, k, t, k);
    PrependFresh(s.c, s.segs, k, t, first);
    if first - t in s.c { PrependFresh(s.c, s.segs, k, t, first - t); }
    RecordTags(m1, s'.mem, s'.c, s'.segs, k);
    forall q, a | Claim(s.c, q, a) && s.c[q].st != Record
      ensures Rd(s'.mem, a) == Rd(s.mem, a)
    {
      RecordUnclaimed(s, k, q, a);
    }
    forall i
      ensures RecordOk(s'.mem, s'.segs, i)
    {
      PrependRecord(s, s', m1, k, t, i);
    }
    GrowCore(s, s', {first - t});
  }

  /** The record of segment k is not in the new block. */
  lemma RecordAway(s: State, k: int, t: int)
    requires Core(s, NOBODY) && CanPrepend(s.c, s.segs, k, t)
    ensures var r := s.segs[k].rec; r + 32 <= s.segs[k].base - t || s.segs[k].base <= r
    ensures s.segs[k].rec == SEG_HEAD || LOW + 16 <= s.segs[k].rec
  {
    BlockApart(s.c, s.segs, k, t, k);
    assert SegmentOk(s.segs, k);
    if k < |s.segs| - 1 {
      RecordWhere(s.c, s.segs, k);
      PrependFresh(s.c, s.segs, k, t, s.segs[k].rec - 16);
      assert ShapeOk(s.c, s.segs, s.segs[k].rec - 16);
    }
  }

  /** No tag lies in a segment record. */
  lemma RecordTags(mem: Mem, mem': Mem, c: ChunkMap, segs: seq<Segment>, k: int)
    requires Tiled(c, segs) && Tagged(mem, c, segs) && 0 <= k < |segs|
    requires forall a {:trigger Rd(mem', a)} :: a == segs[k].rec || a == segs[k].rec + 8 || Rd(mem', a) == Rd(mem, a)
    ensures Tagged(mem', c, segs)
  {
    assert SegmentOk(segs, k);
    if k < |segs| - 1 { RecordWhere(c, segs, k); }
    forall p
      ensures TagOk(mem', c, segs, p)
    {
      assert TagOk(mem, c, segs, p);
      if p in c { RecordTag(mem, mem', c, segs, k, p); }
    }
  }

  lemma RecordTag(mem: Mem, mem': Mem, c: ChunkMap, segs: seq<Segment>, k: int, p: int)
    requires Tiled(c, segs) && Tagged(mem, c, segs) && 0 <= k < |segs| && p in c
    requires forall a {:trigger Rd(mem', a)} :: a == segs[k].rec || a == segs[k].rec + 8 || Rd(mem', a) == Rd(mem, a)
    ensures TagOk(mem', c, segs, p)
  {
    hide Rd;
    assert SegmentOk(segs, k) && TagOk(mem, c, segs, p) && ShapeOk(c, segs, p) && NextOk(c, p);
    AboveLow(c, segs, p);
    if k < |segs| - 1 {
      RecordWhere(c, segs, k);
      var q := segs[k].rec - 16;
      assert ShapeOk(c, segs, q);
      if p != q { Distinct(c, segs, p, q); }
      if !Topmost(c[p]) && c[p].st != Record && p + c[p].size != q { Distinct(c, segs, p + c[p].size, q); }
    }
  }

  /** No client or bin uses the words of a segment record. */
  lemma RecordUnclaimed(s: State, k: int, q: int, a: int)
    requires Tiled(s.c, s.segs) && 0 <= k < |s.segs| && Claim(s.c, q, a) && s.c[q].st != Record
    ensures a < s.segs[k].rec || s.segs[k].rec + 32 <= a
  {
    assert SegmentOk(s.segs, k) && ShapeOk(s.c, s.segs, q);
    AboveLow(s.c, s.segs, q);
    if k < |s.segs| - 1 {
      RecordWhere(s.c, s.segs, k);
      Distinct(s.c, s.segs, q, s.segs[k].rec - 16);
    }
  }

  lemma RecordsApart(c: ChunkMap, segs: seq<Segment>, i: int, k: int)
    requires Tiled(c, segs) && 0 <= i < |segs| && 0 <= k < |segs| && i != k
    ensures segs[i].rec + 32 <= segs[k].rec || segs[k].rec + 32 <= segs[i].rec
  {
    assert SegmentOk(segs, i) && SegmentOk(segs, k);
    if i < |segs| - 1 { RecordWhere(c, segs, i); }
    if k < |segs| - 1 { RecordWhere(c, segs, k); }
    if i < |segs| - 1 && k < |segs| - 1 { Distinct(c, segs, segs[i].rec - 16, segs[k].rec - 16); }
  }

  lemma PrependRecord(s: State, s': State, m1: Mem, k: int, t: int, i: int)
    requires Core(s, NOBODY) && CanPrepend(s.c, s.segs, k, t) && s'.segs == PrependSegs(s.segs, k, t)
    requires var r := s.segs[k].rec;
             && Rd(s'.mem, r) == s.segs[k].base - t && Rd(s'.mem, r + 8) == s.segs[k].size + t
             && (forall a {:trigger Rd(s'.mem, a)} ::
                   a == r || a == r + 8 || s.segs[k].base - t <= a < s.segs[k].base || Rd(s'.mem, a) == Rd(s.mem, a))
    ensures RecordOk(s'.mem, s'.segs, i)
  {
    hide Rd;
    if 0 <= i < |s.segs| {
      assert RecordOk(s.mem, s.segs, i);
      if i != k { RecordsApart(s.c, s.segs, i, k); }
      OtherRecordAway(s, k, t, i);
    }
  }

  lemma OtherRecordAway(s: State, k: int, t: int, i: int)
    requires Core(s, NOBODY) && CanPrepend(s.c, s.segs, k, t) && 0 <= i < |s.segs|
    ensures var r := s.segs[i].rec; r + 32 <= s.segs[k].base - t || s.segs[k].base <= r
  {
    BlockApart(s.c, s.segs, k, t, k);
    assert SegmentOk(s.segs, i);
    if i < |s.segs| - 1 {
      RecordWhere(s.c, s.segs, i);
      PrependFresh(s.c, s.segs, k, t, s.segs[i].rec - 16);
      assert ShapeOk(s.c, s.segs, s.segs[i].rec - 16);
    }
  }

  // ---------- carving the new block ----------

  /** The lower part of a held block is handed out and the rest stays held. */
  lemma HandOutHeld(s: State, s': State, v: int, nb: int)
    requires Core(s, NOBODY) && v in s.c && s.c[v].st == Held && s.c[v].pin
    requires nb % 8 == 0 && MIN_CHUNK_SIZE <= nb && nb + MIN_CHUNK_SIZE <= s.c[v].size && s.c[v].size % 8 == 0
    requires s' == s.(mem := Wr(s.mem, v + HEAD, BothInUse(nb)), c := SealMap(SplitMap(SetStatus(s.c, v, Held), v, nb), v, Used))
    ensures Core(s', NOBODY) && SameElsewhere(s.c, s'.c, {v, v + nb}) && Undisturbed(s, s', v)
    ensures !IsLive(s.c, v) && IsLive(s'.c, v) && s'.c[v].size == nb
    ensures v + nb !in s.c && v + nb in s'.c && s'.c[v + nb].size == s.c[v].size - nb && s'.c[v + nb].st == Held && s'.c[v + nb].pin
  {
    hide SmallOk, TreesOk, RecordsOk, InBins, Rd, Wr, SealMap, SplitMap, InTrees;
    assert SetStatus(s.c, v, Held) == s.c;
    SplitHeld(s.mem, s'.mem, s.c, s.segs, v, nb);
    AboveLow(s.c, s.segs, v);
    NotBinned(s, v);
    NotBinned(s, v + nb);
    assert TagStep(s, s', {v, v + nb});
    TagStepCore(s, s', {v, v + nb}, NOBODY, NOBODY);
    TagStepUsers(s, s', {v, v + nb}, v);
  }

  /** A held chunk seen as a block about to be released. */
  function AsBlock(s: State, q: int): State
    requires q in s.c
  {
    s.(mem := Wr(s.mem, q + HEAD, BothInUse(s.c[q].size)), c := SealMap(s.c, q, Used))
  }

  lemma AsBlockFreeing(s: State, q: int)
    requires Core(s, NOBODY) && q in s.c && s.c[q].st == Held && s.c[q].pin
    requires q + s.c[q].size in s.c && s.c[q + s.c[q].size].pin && !Loose(s.c[q + s.c[q].size])
    ensures var v := AsBlock(s, q);
            && Core(v, NOBODY) && Freeing(v, s, q, q, s.c[q].size) && SameElsewhere(s.c, v.c, {q}) && v.segs == s.segs
            && Undisturbed(s, v, q)
  {
    hide SmallOk, TreesOk, RecordsOk, InBins, Rd, Wr, InTrees;
    var v := AsBlock(s, q);
    var n := q + s.c[q].size;
    assert ShapeOk(s.c, s.segs, q) && TagOk(s.mem, s.c, s.segs, n);
    assert s.c[n].(pin := true) == s.c[n];
    assert CanSeal(s.c, q, Used) && SealedBy(s.mem, v.mem, s.c, q, Used);
    Seal(s.mem, v.mem, s.c, s.segs, q, Used);
    SealSame(s.c, q, Used);
    SealClaims(s.mem, v.mem, s.c, s.segs, q, Used);
    AboveLow(s.c, s.segs, q);
    NotBinned(s, q);
    assert TagStep(s, v, {q});
    TagStepCore(s, v, {q}, NOBODY, NOBODY);
    TagStepUsers(s, v, {q}, q);
    AsBlockBack(s, v, q);
  }

  lemma AsBlockBack(s: State, v: State, q: int)
    requires Tiled(s.c, s.segs) && Undisturbed(s, v, q) && SameElsewhere(s.c, v.c, {q}) && v.segs == s.segs
    ensures Undisturbed(v, s, q) && SameElsewhere(v.c, s.c, {q})
  {
    forall x | x != q
      ensures UserKept(v, s, x) && SameAt(v.c, s.c, x)
    {
      assert UserKept(s, v, x) && SameAt(s.c, v.c, x);
      forall a | IsLive(v.c, x) && PayloadWord(v.c, x, a)
        ensures Rd(s.mem, a) == Rd(v.mem, a)
      {
        assert PayloadWord(s.c, x, a);
      }
    }
  }

  // ---------- adding a segment ----------

  /** The words written by add_segment before the old top goes to its bin. */
  ghost predicate SegmentAdded(s: State, mem': Mem, p: int, base: int, size: int, offset: int)
    requires p in s.c && |s.segs| > 0
  {
    var r := RecordAt(p, s.c[p].size);
    var last := s.segs[|s.segs| - 1];
    && Rd(mem', base + HEAD) == FreeHead(size - TOP_FOOT_SIZE)
    && Rd(mem', base + size - TOP_FOOT_SIZE + HEAD) == TOP_FOOT_SIZE
    && Rd(mem', r + HEAD) == BothInUse(SEGMENT_SIZE) && Rd(mem', r + SEGMENT_SIZE + HEAD) == FENCEPOST_HEAD
    && Rd(mem', r + 16) == last.base && Rd(mem', r + 24) == last.size && Rd(mem', r + 40) == last.offset
    && Rd(mem', r + 32) == Rd(s.mem, SEG_HEAD + 16)
    && Rd(mem', SEG_HEAD) == base && Rd(mem', SEG_HEAD + 8) == size
    && Rd(mem', SEG_HEAD + 16) == r + 16 && Rd(mem', SEG_HEAD + 24) == offset
    && (forall a {:trigger Rd(mem', a)} ::
          SEG_HEAD <= a < LOW || p + HEAD <= a < last.End() || base <= a < base + size || Rd(mem', a) == Rd(s.mem, a))
  }

  function AddedMap(c: ChunkMap, p: int, base: int, size: int): ChunkMap
    requires p in c
  {
    SetStatus(PushMap(SetStatus(c, p, HeldTop), p, base, size), base, Top)
  }

  /** Before the last step of add_segment: the new top and the record are in place, and the old
      top is held, unless the record has taken its place. */
  lemma AddCore(s: State, s': State, p: int, base: int, size: int, offset: int)
    requires Core(s, NOBODY) && |s.segs| > 0 && p in s.c && s.c[p].st == Top && FreshBlock(s.segs, base, size)
    requires s' == s.(mem := s'.mem, c := AddedMap(s.c, p, base, size),
                      segs := PushSegs(s.segs, RecordAt(p, s.c[p].size) + 16, base, size, offset))
    requires SegmentAdded(s, s'.mem, p, base, size, offset)
    ensures Core(s', NOBODY) && Undisturbed(s, s', NOBODY)
    ensures SameElsewhere(s.c, s'.c, {p, RecordAt(p, s.c[p].size), base}) && RecordAt(p, s.c[p].size) !in s.c - {p} && base !in s.c
    ensures base in s'.c && s'.c[base].st == Top && s'.c[base].size == size - TOP_FOOT_SIZE
    ensures s.c[p].size < MIN_CHUNK_SIZE ==> p in s'.c && s'.c[p].st == Record
    ensures s.c[p].size >= MIN_CHUNK_SIZE ==>
              && p in s'.c && s'.c[p].st == Held && s'.c[p].size == s.c[p].size && s'.c[p].pin
              && p + s.c[p].size in s'.c && s'.c[p + s.c[p].size].st == Record
    ensures base != p && base != RecordAt(p, s.c[p].size) && |s'.segs| == |s.segs| + 1
  {
    hide SmallOk, TreesOk, InTrees, InBins, Rd, Wr, TagOk, ChunksApart, NextOk, EndsOk, PrevOk;
    var r := RecordAt(p, s.c[p].size);
    var c1 := SetStatus(s.c, p, HeldTop);
    var c2 := PushMap(c1, p, base, size);
    AboveLow(s.c, s.segs, p);
    assert ShapeOk(s.c, s.segs, p);
    Hold(s.mem, s.c, s.segs, p);
    PushWhere(c1, s.segs, p, base, size, p);
    AddedPush(s, s'.mem, p, base, size, offset);
    Push(s.mem, s'.mem, c1, s.segs, p, base, size, offset);
    assert base in c2 && c2[base].st == HeldTop && c2[base].pin;
    SealTop(s'.mem, s'.mem, c2, s'.segs, base);
    forall q, a | Claim(s.c, q, a)
      ensures LOW <= a && Rd(s'.mem, a) == Rd(s.mem, a)
    {
      assert Claim(c1, q, a);
    }
    forall i
      ensures RecordOk(s'.mem, s'.segs, i)
    {
      AddRecord(s, s', p, base, size, offset, i);
    }
    forall q | q !in {p, r, base}
      ensures SameAt(s.c, s'.c, q)
    {
      assert SameAt(c1, c2, q);
    }
    GrowCore(s, s', {p, r, base});
  }

  lemma AddedPush(s: State, mem': Mem, p: int, base: int, size: int, offset: int)
    requires |s.segs| > 0 && p in s.c && SegmentAdded(s, mem', p, base, size, offset)
    requires s.segs[|s.segs| - 1].End() <= base || base + size <= s.segs[|s.segs| - 1].base
    ensures PushWrites(s.mem, mem', SetStatus(s.c, p, HeldTop), s.segs, p, base, size)
  {
    hide Rd;
  }

  lemma AddRecord(s: State, s': State, p: int, base: int, size: int, offset: int, i: int)
    requires Core(s, NOBODY) && |s.segs| > 0 && p in s.c && s.c[p].st == Top
    requires s'.segs == PushSegs(s.segs, RecordAt(p, s.c[p].size) + 16, base, size, offset)
    requires SegmentAdded(s, s'.mem, p, base, size, offset)
    requires forall q, a {:trigger Claim(s.c, q, a)} :: Claim(s.c, q, a) ==> LOW <= a && Rd(s'.mem, a) == Rd(s.mem, a)
    ensures RecordOk(s'.mem, s'.segs, i)
  {
    hide Rd;
    LastRecord(s);
    if 0 <= i < |s.segs| - 1 {
      RecordWhere(s.c, s.segs, i);
      forall a | s.segs[i].rec <= a < s.segs[i].rec + 32
        ensures Rd(s'.mem, a) == Rd(s.mem, a)
      {
        assert Claim(s.c, s.segs[i].rec - 16, a);
      }
      RecordKept(s, s'.mem, s'.segs, i);
    }
  }

  // ---------- walking the segment list ----------

  /** The address of the record of segment i; 0 ends the list. */
  function RecordAddress(segs: seq<Segment>, i: int): int {
    if 0 <= i < |segs| then segs[i].rec else 0
  }

  /** What a walk reads at segment i. */
  lemma ReadRecord(s: State, i: int)
    requires Core(s, NOBODY) && 0 <= i < |s.segs|
    ensures var r := RecordAddress(s.segs, i);
            && r != 0 && Rd(s.mem, r) == s.segs[i].base && Rd(s.mem, r + 8) == s.segs[i].size
            && Rd(s.mem, r + 16) == RecordAddress(s.segs, i - 1) && Rd(s.mem, r + 24) == s.segs[i].offset
  {
    assert SegmentOk(s.segs, i) && RecordOk(s.mem, s.segs, i);
    if i < |s.segs| - 1 { RecordWhere(s.c, s.segs, i); }
  }

  /** The last segment heads the list. */
  lemma ListHead(s: State)
    requires Core(s, NOBODY) && |s.segs| > 0
    ensures RecordAddress(s.segs, |s.segs| - 1) == SEG_HEAD
  {
    LastRecord(s);
  }

  lemma NoRecordLeft(s: State, k: int)
    requires Core(s, NOBODY) && 0 <= k < |s.segs|
    ensures Rd(s.mem, RecordAddress(s.segs, k) + 16) == 0 <==> k == 0
    ensures Rd(s.mem, RecordAddress(s.segs, k) + 16) == RecordAddress(s.segs, k - 1)
  {
    ReadRecord(s, k);
    if k > 0 { ReadRecord(s, k - 1); }
  }

  // ---------- pointers ----------

  lemma NoVictim(s: State, dv: int, dvsize: int, top: int, topsize: int)
    requires PointersOk(s, dv, dvsize, top, topsize) && |s.segs| == 0
    ensures dvsize == 0 && dv == 0
  {
  }

  /** The top chunk ends the last segment. */
  lemma TopWhere(s: State, dv: int, dvsize: int, top: int, topsize: int)
    requires Core(s, NOBODY) && PointersOk(s, dv, dvsize, top, topsize) && |s.segs| > 0
    ensures top in s.c && s.c[top].st == Top && s.c[top].size == topsize && s.c[top].sid == |s.segs| - 1
    ensures top + topsize + TOP_FOOT_SIZE == s.segs[|s.segs| - 1].End() && 8 <= topsize && topsize % 8 == 0
    ensures LOW <= s.segs[|s.segs| - 1].base <= top && top % 8 == 0 && s.segs[|s.segs| - 1].End() % 8 == 0
  {
    assert PointerOk(s.c, dv, dvsize, top, top) && ShapeOk(s.c, s.segs, top) && SegmentOk(s.segs, |s.segs| - 1);
    Multiples(s.segs[|s.segs| - 1].base, s.segs[|s.segs| - 1].size);
  }

  lemma AppendPointers(s: State, s': State, dv: int, dvsize: int, top: int, topsize: int, t: int)
    requires PointersOk(s, dv, dvsize, top, topsize) && |s.segs| > 0 && |s'.segs| > 0
    requires top in s.c && s'.c == s.c[top := s.c[top].(size := topsize + t)]
    ensures PointersOk(s', dv, dvsize, top, topsize + t)
  {
    assert PointerOk(s.c, dv, dvsize, top, top) && PointerOk(s.c, dv, dvsize, top, dv);
    PointersStep(s, s', {top}, dv, dvsize, top, topsize, dv, dvsize, top, topsize + t);
  }

  // ---------- a block fresh from the system ----------

  /** Memory outside all segments is nobody's business. */
  lemma FreshTags(s: State, mem': Mem, base: int, size: int)
    requires Core(s, NOBODY) && FreshBlock(s.segs, base, size)
    requires forall a {:trigger Rd(mem', a)} :: base <= a < base + size || Rd(mem', a) == Rd(s.mem, a)
    ensures Core(s.(mem := mem'), NOBODY) && Undisturbed(s, s.(mem := mem'), NOBODY)
  {
    hide SmallOk, TreesOk, InTrees, InBins, Rd;
    forall p
      ensures TagOk(mem', s.c, s.segs, p)
    {
      assert TagOk(s.mem, s.c, s.segs, p);
      if p in s.c {
        InsideSegment(s.c, s.segs, p);
        assert ShapeOk(s.c, s.segs, p);
        AboveLow(s.c, s.segs, p);
      }
    }
    forall q, a | Claim(s.c, q, a)
      ensures Rd(mem', a) == Rd(s.mem, a)
    {
      ClaimInside(s.c, s.segs, q, a);
      assert base <= s.segs[s.c[q].sid].base || true;
    }
    forall i
      ensures RecordOk(mem', s.segs, i)
    {
      assert RecordOk(s.mem, s.segs, i) && SegmentOk(s.segs, i);
      if 0 <= i < |s.segs| - 1 {
        RecordWhere(s.c, s.segs, i);
        forall a | s.segs[i].rec <= a < s.segs[i].rec + 32
          ensures Rd(mem', a) == Rd(s.mem, a)
        {
          assert Claim(s.c, s.segs[i].rec - 16, a);
        }
        RecordKept(s, mem', s.segs, i);
      }
    }
    GrowCore(s, s.(mem := mem'), {});
  }

  lemma FreshPointers(s: State, mem': Mem, base: int, size: int, dv: int, dvsize: int, top: int, topsize: int)
    requires PointersOk(s, dv, dvsize, top, topsize) && FreshBlock(s.segs, base, size)
    requires forall a {:trigger Rd(mem', a)} :: base <= a < base + size || Rd(mem', a) == Rd(s.mem, a)
    ensures PointersOk(s.(mem := mem'), dv, dvsize, top, topsize)
  {
    forall p
      ensures PointerOk(s.(mem := mem').c, dv, dvsize, top, p)
    {
      assert PointerOk(s.c, dv, dvsize, top, p);
    }
  }

  // ---------- executable images ----------

  /** A mapping made by the system: size bytes at base, whose executable image is offset away. */
  datatype Image = Image(base: int, size: int, offset: int)

  predicate Within(m: Image, g: Segment) {
    g.base <= m.base && m.base + m.size <= g.End() && m.offset == g.offset
  }

  /** The mapping m borders the top segment from above, at the same offset. */
  predicate Follows(segs: seq<Segment>, m: Image) {
    |segs| > 0 && segs[|segs| - 1].End() == m.base && segs[|segs| - 1].offset == m.offset
  }

  /** The mapping m borders segment k from below, at the same offset. */
  predicate Precedes(segs: seq<Segment>, m: Image, k: int) {
    0 <= k < |segs| && segs[k].base == m.base + m.size && segs[k].offset == m.offset
  }

  ghost predicate PrecedesSome(segs: seq<Segment>, m: Image) {
    exists k {:trigger Precedes(segs, m, k)} :: Precedes(segs, m, k)
  }

  /** The new mapping m was joined to the bottom of segment k. */
  predicate GrownAt(segs: seq<Segment>, segs': seq<Segment>, m: Image, k: int) {
    Precedes(segs, m, k) && segs' == PrependSegs(segs, k, m.size)
  }

  /** How a mapping becomes part of the heap: it is joined to the top segment if it follows it, else
      to a segment that it precedes, and else it is a segment of its own. */
  ghost predicate Grown(segs: seq<Segment>, segs': seq<Segment>, m: Image) {
    if |segs| == 0 then segs' == [Segment(m.base, m.size, m.offset, SEG_HEAD)]
    else if Follows(segs, m) then segs' == ExtendSegs(segs, m.size)
    else if PrecedesSome(segs, m) then exists k {:trigger GrownAt(segs, segs', m, k)} :: GrownAt(segs, segs', m, k)
    else exists rec {:trigger PushSegs(segs, rec, m.base, m.size, m.offset)} :: segs' == PushSegs(segs, rec, m.base, m.size, m.offset)
  }

  /** Where the request goes for which m has been mapped. */
  function ServedFrom(q: Pointers, segs: seq<Segment>, m: Image): int {
    if Follows(segs, m) then q.top + 16 else m.base + 16
  }

  /** What becomes of victim and top when m is mapped for nb bytes. */
  ghost function AfterMapping(q: Pointers, segs: seq<Segment>, m: Image, nb: int): Pointers {
    if |segs| > 0 && Follows(segs, m) then q.(top := q.top + nb, topsize := q.topsize + m.size - nb)
    else if |segs| > 0 && PrecedesSome(segs, m) then
      var first, rest := m.base + m.size, m.size - nb;
      if first == q.top then q.(top := m.base + nb, topsize := q.topsize + rest)
      else if first == q.dv then q.(dv := m.base + nb, dvsize := q.dvsize + rest)
      else q
    else q.(top := m.base + nb, topsize := m.size - TOP_FOOT_SIZE - nb)
  }

  /** Unless it goes below a segment, a mapping first enlarges or replaces the top, which then serves the request. */
  lemma MappedThenTop(q: Pointers, segs: seq<Segment>, m: Image, nb: int)
    requires |segs| == 0 || Follows(segs, m) || !PrecedesSome(segs, m)
    ensures AfterTop(AfterMapping(q, segs, m, 0), nb) == AfterMapping(q, segs, m, nb)
    ensures AfterMapping(q, segs, m, 0).top + 16 == ServedFrom(q, segs, m)
  {
  }

  /** The enlarged top has room for the request. */
  lemma TopMapped(q': Pointers, q: Pointers, segs: seq<Segment>, m: Image, nb: int)
    requires q' == AfterMapping(q, segs, m, 0) && (|segs| == 0 || Follows(segs, m) || !PrecedesSome(segs, m))
    requires m.size > nb + TOP_FOOT_SIZE + 1 && q.topsize >= 0
    ensures nb < q'.topsize
  {
  }

  /** Every mapping lies in a segment with its offset. */
  ghost predicate ImagesOk(images: seq<Image>, segs: seq<Segment>) {
    forall i :: 0 <= i < |images| ==> exists k {:trigger segs[k]} :: 0 <= k < |segs| && Within(images[i], segs[k])
  }

  /** The mapping that holds any byte of a block has the offset that the block's segment records. */
  lemma ImageOfBlock(s: State, images: seq<Image>, p: int, a: int, i: int)
    requires Core(s, NOBODY) && ImagesOk(images, s.segs) && IsLive(s.c, p)
    requires p <= a < p + s.c[p].size && 0 <= i < |images| && images[i].base <= a < images[i].base + images[i].size
    ensures images[i].offset == OffsetOf(s, p)
  {
    var k :| 0 <= k < |s.segs| && Within(images[i], s.segs[k]);
    InsideSegment(s.c, s.segs, p);
    assert SegmentsApart(s.segs, k, s.c[p].sid);
  }

  /** Segments that only grow keep their images, and the new mapping lies in segment j. */
  lemma ImagesGrow(images: seq<Image>, segs: seq<Segment>, segs': seq<Segment>, m: Image, j: int)
    requires ImagesOk(images, segs) && |segs| <= |segs'|
    requires forall k :: 0 <= k < |segs| ==> segs'[k].base <= segs[k].base && segs[k].End() <= segs'[k].End() && segs'[k].offset == segs[k].offset
    requires 0 <= j < |segs'| && Within(m, segs'[j])
    ensures ImagesOk(images + [m], segs')
  {
    var images' := images + [m];
    forall i | 0 <= i < |images'|
      ensures exists k {:trigger segs'[k]} :: 0 <= k < |segs'| && Within(images'[i], segs'[k])
    {
      if i < |images| {
        var k :| 0 <= k < |segs| && Within(images[i], segs[k]);
        assert Within(images'[i], segs'[k]);
      } else {
        assert Within(images'[i], segs'[j]);
      }
    }
  }

  // ---------- add_segment ----------

  /** align_offset */
  function AlignOffset(a: int): int {
    if a % 8 == 0 then 0 else (8 - a % 8) % 8
  }

  /** Where add_segment puts the record. */
  lemma RecordPlace(oldEnd: int, oldTop: int, topsize: int)
    requires oldEnd % 8 == 0 && oldEnd == oldTop + topsize + TOP_FOOT_SIZE
    ensures var rawsp := oldEnd - (SEGMENT_SIZE + 32 + 7);
            var asp := rawsp + AlignOffset(rawsp + 16);
            && asp == oldEnd - TOP_FOOT_SIZE
            && (if asp < oldTop + MIN_CHUNK_SIZE then oldTop else asp) == RecordAt(oldTop, topsize)
  {
  }

  /** Only the last segment holds the top. */
  lemma HoldsTop(s: State, dv: int, dvsize: int, top: int, topsize: int, k: int)
    requires Core(s, NOBODY) && PointersOk(s, dv, dvsize, top, topsize) && |s.segs| > 0
    requires 0 <= k < |s.segs| && s.segs[k].base <= top < s.segs[k].End()
    ensures k == |s.segs| - 1
  {
    TopWhere(s, dv, dvsize, top, topsize);
    assert SegmentsApart(s.segs, k, |s.segs| - 1);
  }

  lemma AddPointers(s: State, s': State, dv: int, dvsize: int, top: int, topsize: int, base: int, size: int)
    requires PointersOk(s, dv, dvsize, top, topsize) && |s.segs| > 0 && |s'.segs| > 0
    requires top in s.c && SameElsewhere(s.c, s'.c, {top, RecordAt(top, topsize), base})
    requires RecordAt(top, topsize) !in s.c - {top} && base !in s.c
    requires base in s'.c && s'.c[base].st == Top && s'.c[base].size == size
    requires top in s'.c && s'.c[top].st in {Record, Binned}
    requires topsize >= MIN_CHUNK_SIZE ==> RecordAt(top, topsize) in s'.c && s'.c[RecordAt(top, topsize)].st == Record
    ensures PointersOk(s', dv, dvsize, base, size)
  {
    assert PointerOk(s.c, dv, dvsize, top, top) && PointerOk(s.c, dv, dvsize, top, dv);
    PointersStep(s, s', {top, RecordAt(top, topsize), base}, dv, dvsize, top, topsize, dv, dvsize, base, size);
  }

  /** The old top, if large enough, has been freed below the record and can go to its bin. */
  lemma AddGive(s0: State, s: State, s': State, p: int, topsize: int, base: int, size: int)
    requires Core(s, NOBODY) && p in s.c && s.c[p].st == Held && s.c[p].pin && s.c[p].size == topsize >= MIN_CHUNK_SIZE
    requires p + topsize in s.c && s.c[p + topsize].st == Record && Undisturbed(s0, s, NOBODY)
    requires SameElsewhere(s0.c, s.c, {p, p + topsize, base})
    requires base in s.c && s.c[base].st == Top && s.c[base].size == size && base != p && base != p + topsize
    requires s' == s.(mem := SetFreeWithPInUse(s.mem, p, topsize, p + topsize), c := SealMap(s.c, p, Binned))
    ensures Core(s', p) && Undisturbed(s0, s', NOBODY) && SameElsewhere(s0.c, s'.c, {p, p + topsize, base})
    ensures p in s'.c && s'.c[p].st == Binned && s'.c[p].size == topsize
    ensures base in s'.c && s'.c[base].st == Top && s'.c[base].size == size
    ensures p + topsize in s'.c && s'.c[p + topsize].st == Record
  {
    hide SmallOk, TreesOk, RecordsOk, InBins, Rd, Wr, SealMap, Undisturbed;
    assert ShapeOk(s.c, s.segs, p);
    GiveCore(s, s', p, Binned, NOBODY);
    UndisturbedTrans(s0, s, s', NOBODY);
    assert SameAt(s.c, s'.c, base) && SameAt(s.c, s'.c, p + topsize);
    forall q | q !in {p, p + topsize, base}
      ensures SameAt(s0.c, s'.c, q)
    {
      assert SameAt(s0.c, s.c, q) && SameAt(s.c, s'.c, q);
    }
  }

  // ---------- prepend_alloc ----------

  function PrependCarved(c: ChunkMap, p: int, nb: int): ChunkMap
    requires p in c && nb > 0
  {
    SealMap(SplitMap(SetStatus(c, p, Held), p, nb), p, Used)
  }

  /** The new block p, held whole, lies below the first chunk of its segment. */
  ghost predicate Prepended(s0: State, s1: State, p: int, t: int, dv: int, dvsize: int, top: int, topsize: int) {
    && Core(s0, NOBODY) && PointersOk(s0, dv, dvsize, top, topsize) && |s0.segs| > 0
    && Core(s1, NOBODY) && Undisturbed(s0, s1, NOBODY) && |s1.segs| == |s0.segs|
    && SameElsewhere(s0.c, s1.c, {p}) && p !in s0.c
    && p in s1.c && s1.c[p].st == Held && s1.c[p].pin && s1.c[p].size == t && t % 8 == 0
    && p + t in s1.c && s1.c[p + t].pin
  }

  /** After carving nb bytes off the block, the rest q is released like a block of its own. */
  lemma PrependReady(s0: State, s1: State, s2: State, p: int, t: int, nb: int, dv: int, dvsize: int, top: int, topsize: int)
    requires Prepended(s0, s1, p, t, dv, dvsize, top, topsize)
    requires nb % 8 == 0 && MIN_CHUNK_SIZE <= nb && nb + MIN_CHUNK_SIZE <= t
    requires s2 == s1.(mem := SetUsedHead(s1.mem, p, nb), c := PrependCarved(s1.c, p, nb))
    ensures p + nb in s2.c && Core(s2, NOBODY) && s2.segs == s1.segs
    ensures Halfway(AsBlock(s2, p + nb), s2, p + nb, p + nb, t - nb, dv, dvsize, top, topsize)
    ensures Undisturbed(s0, s2, p) && Undisturbed(s2, AsBlock(s2, p + nb), p + nb)
    ensures !IsLive(s0.c, p) && IsLive(s2.c, p) && s2.c[p].size == nb && !IsLive(s2.c, p + nb)
    ensures dv != p + nb && AsBlock(s2, p + nb).segs == s2.segs
  {
    hide SmallOk, TreesOk, RecordsOk, InBins, Rd, Wr, SealMap, SplitMap, InTrees, Undisturbed, Tagged;
    var q := p + nb;
    HandOutHeld(s1, s2, p, nb);
    UndisturbedAny(s0, s1, p);
    UndisturbedTrans(s0, s1, s2, p);
    PrependNextPin(s1, s2, p, t, nb);
    assert SameAt(s1.c, s2.c, p + t) && SameAt(s0.c, s1.c, p + t) && PointerOk(s0.c, dv, dvsize, top, p + t);
    AsBlockFreeing(s2, q);
    var v := AsBlock(s2, q);
    assert PointerOk(s0.c, dv, dvsize, top, top) && PointerOk(s0.c, dv, dvsize, top, dv);
    AboveLow(s2.c, s2.segs, q);
    forall x | x !in {p, q}
      ensures SameAt(s0.c, v.c, x)
    {
      assert SameAt(s0.c, s1.c, x) && SameAt(s1.c, s2.c, x) && SameAt(s2.c, v.c, x);
    }
    assert SameAt(s2.c, v.c, p);
    NotYetThere(s0, s1, s2, p, q);
    PointersStep(s0, v, {p, q}, dv, dvsize, top, topsize, dv, dvsize, top, topsize);
  }

  lemma NotYetThere(s0: State, s1: State, s2: State, p: int, q: int)
    requires SameElsewhere(s0.c, s1.c, {p}) && p !in s0.c && q !in s1.c
    ensures q !in s0.c
  {
    if q != p { assert SameAt(s0.c, s1.c, q); }
  }

  /** The chunk above the new block is still pinned. */
  lemma PrependNextPin(s1: State, s2: State, p: int, t: int, nb: int)
    requires Core(s1, NOBODY) && p in s1.c && s1.c[p].st == Held && s1.c[p].size == t && p + t in s1.c && s1.c[p + t].pin
    requires 0 < nb < t && s2.c == PrependCarved(s1.c, p, nb) && p + nb !in s1.c
    ensures p + t in s2.c && s2.c[p + t].pin
  {
  }

  /** The whole of prepend_alloc. */
  lemma PrependDone(s0: State, s2: State, s': State, p: int, q: int, nb: int)
    requires Undisturbed(s0, s2, p) && !IsLive(s0.c, p) && IsLive(s2.c, p) && s2.c[p].size == nb && q != p
    requires Core(s2, NOBODY) && Core(s', NOBODY) && q in s2.c && !IsLive(s2.c, q)
    requires Undisturbed(s2, AsBlock(s2, q), q) && TakenBack(AsBlock(s2, q), s', q)
    ensures HandedOut(s0, s', p, nb) && s'.c[p].size == nb
  {
    hide SmallOk, TreesOk, RecordsOk, InBins, Tiled, Tagged, Undisturbed;
    var v := AsBlock(s2, q);
    UndisturbedTrans(s2, v, s', q);
    HeldNoUser(s2, s', q);
    UndisturbedAny(s2, s', p);
    assert UserKept(s2, s', p) by { KeptAt(s2, s', q, p); }
    UndisturbedTrans(s0, s2, s', p);
  }

  lemma KeptAt(s: State, s': State, q: int, p: int)
    requires Undisturbed(s, s', q) && p != q
    ensures UserKept(s, s', p)
  {
  }

  /** A fresh block and the last segment do not overlap. */
  lemma BlockAside(s: State, base: int, size: int)
    requires Core(s, NOBODY) && |s.segs| > 0 && FreshBlock(s.segs, base, size)
    ensures s.segs[|s.segs| - 1].End() <= base || base + size <= s.segs[|s.segs| - 1].base
    ensures LOW <= base && PAGE <= size
  {
  }

  lemma AddFinish(s0: State, s2: State, s': State, p: int)
    requires Core(s2, p) && Undisturbed(s0, s2, NOBODY) && s'.c == s2.c && s'.segs == s2.segs && OnlyBinWords(s2.c, s2.mem, s'.mem)
    ensures Undisturbed(s0, s', NOBODY)
  {
    BinStepUsers(s2, s', NOBODY);
    UndisturbedTrans(s0, s2, s', NOBODY);
  }

  lemma PrependedThere(s0: State, s1: State, p: int, t: int, dv: int, dvsize: int, top: int, topsize: int)
    requires Prepended(s0, s1, p, t, dv, dvsize, top, topsize)
    ensures p in s1.c && Core(s1, NOBODY)
  {
  }

  /** The head and foot of the new top and the head of the record have been written. */
  ghost predicate TopAndRecordHeads(s: State, m1: Mem, p: int, base: int, size: int)
    requires p in s.c
  {
    var r := RecordAt(p, s.c[p].size);
    && Rd(m1, base + HEAD) == FreeHead(size - TOP_FOOT_SIZE) && Rd(m1, base + size - TOP_FOOT_SIZE + HEAD) == TOP_FOOT_SIZE
    && Rd(m1, r + HEAD) == BothInUse(SEGMENT_SIZE) && Rd(m1, base + size - 8) == Rd(s.mem, base + size - 8)
    && Rd(m1, SEG_HEAD) == Rd(s.mem, SEG_HEAD) && Rd(m1, SEG_HEAD + 8) == Rd(s.mem, SEG_HEAD + 8)
    && Rd(m1, SEG_HEAD + 16) == Rd(s.mem, SEG_HEAD + 16) && Rd(m1, SEG_HEAD + 24) == Rd(s.mem, SEG_HEAD + 24)
    && (forall a {:trigger Rd(m1, a)} :: a == r + HEAD || base <= a < base + size || Rd(m1, a) == Rd(s.mem, a))
  }

  lemma TopWritten(s: State, m1: Mem, p: int, base: int, size: int)
    requires p in s.c && LOW <= base && LOW <= p && PAGE <= size && 0 <= s.c[p].size
    requires p + s.c[p].size + TOP_FOOT_SIZE <= base || base + size <= p
    requires m1 == Wr(Wr(Wr(s.mem, base + HEAD, FreeHead(size - TOP_FOOT_SIZE)), base + (size - TOP_FOOT_SIZE) + HEAD, TOP_FOOT_SIZE),
                      RecordAt(p, s.c[p].size) + HEAD, BothInUse(SEGMENT_SIZE))
    ensures TopAndRecordHeads(s, m1, p, base, size)
  {
    hide Rd, Wr;
  }

  lemma SegmentWritten(s: State, m1: Mem, m2: Mem, m3: Mem, p: int, base: int, size: int, offset: int)
    requires Core(s, NOBODY) && |s.segs| > 0 && p in s.c && LOW <= base && LOW <= p && PAGE <= size && 8 <= s.c[p].size
    requires p + s.c[p].size + TOP_FOOT_SIZE == s.segs[|s.segs| - 1].End()
    requires s.segs[|s.segs| - 1].End() <= base || base + size <= p
    requires TopAndRecordHeads(s, m1, p, base, size) && offset == Rd(s.mem, base + size - 8)
    requires var ss := RecordAt(p, s.c[p].size) + 16;
             && Rd(m2, ss) == Rd(m1, SEG_HEAD) && Rd(m2, ss + 8) == Rd(m1, SEG_HEAD + 8)
             && Rd(m2, ss + 16) == Rd(m1, SEG_HEAD + 16) && Rd(m2, ss + 24) == Rd(m1, SEG_HEAD + 24)
             && Rd(m2, SEG_HEAD) == base && Rd(m2, SEG_HEAD + 8) == size && Rd(m2, SEG_HEAD + 16) == ss
             && Rd(m2, SEG_HEAD + 24) == Rd(m1, base + size - 8)
             && (forall a {:trigger Rd(m2, a)} ::
                   ss <= a < ss + 32 || SEG_HEAD <= a < SEG_HEAD + 32 || a == base + size - 8 || Rd(m2, a) == Rd(m1, a))
    requires var tnext := RecordAt(p, s.c[p].size) + SEGMENT_SIZE;
             && Rd(m3, tnext + HEAD) == FENCEPOST_HEAD
             && (forall a {:trigger Rd(m3, a)} :: tnext + HEAD <= a < s.segs[|s.segs| - 1].End() || Rd(m3, a) == Rd(m2, a))
    ensures SegmentAdded(s, m3, p, base, size, offset)
  {
    hide Rd, Core;
    LastRecord(s);
  }

  /** A block handed out after the heap has grown. */
  lemma HandedAfter(s0: State, s1: State, s': State, p: int, nb: int)
    requires Core(s0, NOBODY) && Core(s1, NOBODY) && Undisturbed(s0, s1, NOBODY) && HandedOut(s1, s', p, nb)
    ensures HandedOut(s0, s', p, nb)
  {
    UndisturbedAny(s0, s1, p);
    UndisturbedTrans(s0, s1, s', p);
    NobodyNotLive(s0);
    assert p != NOBODY ==> UserKept(s0, s1, p);
  }

  lemma NobodyNotLive(s: State)
    requires Core(s, NOBODY)
    ensures !IsLive(s.c, NOBODY)
  {
    if NOBODY in s.c { AboveLow(s.c, s.segs, NOBODY); }
  }

  lemma Initialized(s: State, dv: int, dvsize: int, top: int, topsize: int)
    requires Core(s, NOBODY) && PointersOk(s, dv, dvsize, top, topsize)
    ensures top == 0 <==> |s.segs| == 0
  {
    if |s.segs| > 0 { AboveLow(s.c, s.segs, top); }
  }

  /** The first chunk of a segment to which a block is prepended. */
  lemma PrependMade(s0: State, s1: State, k: int, t: int, dv: int, dvsize: int, top: int, topsize: int)
    requires Core(s0, NOBODY) && PointersOk(s0, dv, dvsize, top, topsize) && CanPrepend(s0.c, s0.segs, k, t)
    requires s0.segs[k].base in s0.c && Core(s1, NOBODY) && Undisturbed(s0, s1, NOBODY) && |s1.segs| == |s0.segs|
    requires s1.c == PrependMap(s0.c, s0.segs[k].base, k, t) && s1.c[s0.segs[k].base].pin && s0.segs[k].base - t !in s0.c
    requires SameElsewhere(s0.c, s1.c, {s0.segs[k].base - t}) && t % 8 == 0 && t > 0
    ensures Prepended(s0, s1, s0.segs[k].base - t, t, dv, dvsize, top, topsize)
  {
    hide Core, Undisturbed;
  }

  lemma SegmentBase(s: State, k: int)
    requires Core(s, NOBODY) && 0 <= k < |s.segs|
    ensures s.segs[k].base in s.c
  {
    assert EndsOk(s.c, s.segs, k);
  }

  lemma ImagesFirst(images: seq<Image>, segs: seq<Segment>, segs': seq<Segment>, m: Image)
    requires ImagesOk(images, segs) && |segs| == 0 && segs' == [Segment(m.base, m.size, m.offset, SEG_HEAD)]
    ensures ImagesOk(images + [m], segs') && Grown(segs, segs', m)
  {
    ImagesGrow(images, segs, segs', m, 0);
  }

  lemma ImagesAppend(images: seq<Image>, segs: seq<Segment>, segs': seq<Segment>, m: Image, t: int)
    requires ImagesOk(images, segs) && |segs| > 0 && segs' == ExtendSegs(segs, t) && 0 <= t
    requires m.base == segs[|segs| - 1].End() && m.size == t && m.offset == segs[|segs| - 1].offset && 0 <= segs[|segs| - 1].size
    ensures ImagesOk(images + [m], segs') && Grown(segs, segs', m)
  {
    ImagesGrow(images, segs, segs', m, |segs| - 1);
  }

  lemma ImagesPrepend(images: seq<Image>, segs: seq<Segment>, segs': seq<Segment>, m: Image, k: int, t: int)
    requires ImagesOk(images, segs) && 0 <= k < |segs| && segs' == PrependSegs(segs, k, t) && 0 <= t
    requires m.base + t == segs[k].base && m.size == t && m.offset == segs[k].offset && 0 <= segs[k].size && !Follows(segs, m)
    ensures ImagesOk(images + [m], segs') && Grown(segs, segs', m)
  {
    assert Precedes(segs, m, k) && GrownAt(segs, segs', m, k);
    ImagesGrow(images, segs, segs', m, k);
  }

  lemma ImagesPush(images: seq<Image>, segs: seq<Segment>, segs': seq<Segment>, m: Image, rec: int)
    requires ImagesOk(images, segs) && |segs| > 0 && segs' == PushSegs(segs, rec, m.base, m.size, m.offset)
    requires !Follows(segs, m) && !PrecedesSome(segs, m)
    ensures ImagesOk(images + [m], segs') && Grown(segs, segs', m)
  {
    ImagesGrow(images, segs, segs', m, |segs|);
  }

  /** What the first walk of sys_alloc finds out: k is the segment that ends at the mapping, if there is one. */
  lemma DoesNotFollow(s: State, dv: int, dvsize: int, top: int, topsize: int, m: Image, found: bool, k: int)
    requires Core(s, NOBODY) && PointersOk(s, dv, dvsize, top, topsize) && |s.segs| > 0
    requires if found then 0 <= k < |s.segs| && s.segs[k].End() == m.base else forall i :: 0 <= i < |s.segs| ==> s.segs[i].End() != m.base
    requires found ==> s.segs[k].offset != m.offset || !(s.segs[k].base <= top < s.segs[k].End())
    ensures !Follows(s.segs, m)
  {
    TopWhere(s, dv, dvsize, top, topsize);
    var last := |s.segs| - 1;
    if found && k != last {
      SegmentSize(s, k);
      SegmentSize(s, last);
      assert SegmentsApart(s.segs, k, last);
    }
  }

  lemma StartsOnce(s: State, i: int, k: int)
    requires Core(s, NOBODY) && 0 <= i < |s.segs| && 0 <= k < |s.segs| && s.segs[i].base == s.segs[k].base
    ensures i == k
  {
    SegmentSize(s, i);
    SegmentSize(s, k);
    assert SegmentsApart(s.segs, i, k);
  }

  /** What the second walk finds out. */
  lemma DoesNotPrecede(s: State, m: Image, found: bool, k: int)
    requires Core(s, NOBODY)
    requires if found then 0 <= k < |s.segs| && s.segs[k].base == m.base + m.size && s.segs[k].offset != m.offset
             else forall i :: 0 <= i < |s.segs| ==> s.segs[i].base != m.base + m.size
    ensures !PrecedesSome(s.segs, m)
  {
    if i :| Precedes(s.segs, m, i) {
      if found { StartsOnce(s, i, k); }
    }
  }

  lemma SegmentSize(s: State, k: int)
    requires Core(s, NOBODY) && 0 <= k < |s.segs|
    ensures 0 < s.segs[k].size
  {
    assert SegmentOk(s.segs, k);
  }

  lemma HandedAligned(s: State, s': State, p: int, nb: int)
    requires Core(s', NOBODY)
    ensures HandedOut(s, s', p, nb) ==> p % 8 == 0
  {
    assert ShapeOk(s'.c, s'.segs, p);
  }

  // ---------- what becomes of the victim and the top on a release ----------

  /** Block p is released: it is joined with the free chunk below, if there is one, and with the one
      above. With the top, that is the top; else with the victim, the victim; else an ordinary free chunk. */
  function AfterFree(q: Pointers, c: ChunkMap, p: int): Pointers
    requires p in c
  {
    var low := if c[p].pin then p else c[p].prev;
    AfterJoin(q, c, low, p + c[p].size - low)
  }

  function AfterJoin(q: Pointers, c: ChunkMap, low: int, size: int): Pointers {
    var next := low + size;
    var above := if next in c && c[next].st == Binned then c[next].size else 0;
    if next == q.top then Pointers(if low == q.dv then 0 else q.dv, if low == q.dv then 0 else q.dvsize, low, q.topsize + size)
    else if next == q.dv then q.(dv := low, dvsize := q.dvsize + size)
    else if low == q.dv then q.(dvsize := size + above)
    else q
  }
}
