/** Steps of malloc and free on the whole state: handing out all or part of a free chunk,
    releasing a chunk, and what the holders of other blocks can rely on. */
module HeapSteps {
  import opened Words
  import opened Chunks
  import opened SmallBins
  import opened TreeBins
  import opened HeapOps
  import opened HeapState

  // ---------- the client's view ----------

  /** p is a block handed out and not yet returned. */
  predicate IsLive(c: ChunkMap, p: int) {
    p in c && c[p].st == Used
  }

  /** The distance from the writable to the executable address of a chunk. */
  function OffsetOf(s: State, p: int): int
    requires p in s.c
  {
    if 0 <= s.c[p].sid < |s.segs| then s.segs[s.c[p].sid].offset else 0
  }

  ghost predicate PayloadKept(c: ChunkMap, mem: Mem, mem': Mem, q: int) {
    forall a {:trigger Rd(mem', a)} :: PayloadWord(c, q, a) ==> Rd(mem', a) == Rd(mem, a)
  }

  /** Block q is live before and after or neither, with the same size, the same executable
      address and the same contents. */
  ghost predicate UserKept(s: State, s': State, q: int) {
    && (IsLive(s.c, q) <==> IsLive(s'.c, q))
    && (IsLive(s.c, q) ==>
          && s'.c[q].size == s.c[q].size && OffsetOf(s', q) == OffsetOf(s, q)
          && PayloadKept(s.c, s.mem, s'.mem, q))
  }

  /** Every block but p is kept. */
  ghost predicate Undisturbed(s: State, s': State, p: int) {
    forall q {:trigger UserKept(s, s', q)} :: q != p ==> UserKept(s, s', q)
  }

  lemma UndisturbedTrans(s: State, s1: State, s2: State, p: int)
    requires Undisturbed(s, s1, p) && Undisturbed(s1, s2, p)
    ensures Undisturbed(s, s2, p)
  {
    forall q | q != p
      ensures UserKept(s, s2, q)
    {
      assert UserKept(s, s1, q) && UserKept(s1, s2, q);
      if IsLive(s.c, q) {
        forall a | PayloadWord(s.c, q, a)
          ensures Rd(s2.mem, a) == Rd(s.mem, a)
        {
          assert PayloadWord(s1.c, q, a);
          assert Rd(s1.mem, a) == Rd(s.mem, a);
        }
      }
    }
  }

  /** A step that disturbs no block does not disturb any but p. */
  lemma UndisturbedAny(s: State, s': State, p: int)
    requires Undisturbed(s, s', NOBODY) && Tiled(s.c, s.segs) && Tiled(s'.c, s'.segs)
    ensures Undisturbed(s, s', p)
  {
    if NOBODY in s.c { AboveLow(s.c, s.segs, NOBODY); }
    if NOBODY in s'.c { AboveLow(s'.c, s'.segs, NOBODY); }
  }

  /** p has been handed out for a request of nb bytes. */
  ghost predicate HandedOut(s: State, s': State, p: int, nb: int) {
    && !IsLive(s.c, p) && IsLive(s'.c, p)
    && nb <= s'.c[p].size < nb + MIN_CHUNK_SIZE
    && Undisturbed(s, s', p)
  }

  /** p has been taken back. */
  ghost predicate TakenBack(s: State, s': State, p: int) {
    && IsLive(s.c, p) && !IsLive(s'.c, p)
    && Undisturbed(s, s', p)
  }

  /** Rewriting bin words touches no block. */
  lemma BinStepUsers(s: State, s': State, p: int)
    requires Tiled(s.c, s.segs) && s'.c == s.c && s'.segs == s.segs && OnlyBinWords(s.c, s.mem, s'.mem)
    ensures Undisturbed(s, s', p)
  {
    forall q
      ensures UserKept(s, s', q)
    {
      forall a | PayloadWord(s.c, q, a)
        ensures Rd(s'.mem, a) == Rd(s.mem, a)
      {
        PayloadNotBin(s.c, s.segs, q, a);
      }
    }
  }

  /** A step on tags touches no block but p. */
  lemma TagStepUsers(s: State, s': State, touched: set<int>, p: int)
    requires s'.segs == s.segs && SameElsewhere(s.c, s'.c, touched) && ClaimsKept(s.c, s.mem, s'.mem, touched)
    requires forall q :: q in touched && q != p ==> !IsLive(s.c, q) && !IsLive(s'.c, q)
    ensures Undisturbed(s, s', p)
  {
    forall q | q != p
      ensures UserKept(s, s', q)
    {
      if q !in touched {
        assert SameAt(s.c, s'.c, q);
        forall a | PayloadWord(s.c, q, a)
          ensures Rd(s'.mem, a) == Rd(s.mem, a)
        {
          assert Claim(s.c, q, a);
        }
      }
    }
  }

  // ---------- pointers ----------

  /** The victim and top pointers after a step on the chunks in touched. */
  lemma PointersStep(s: State, s': State, touched: set<int>, dv: int, dvsize: int, top: int, topsize: int,
                     dv': int, dvsize': int, top': int, topsize': int)
    requires PointersOk(s, dv, dvsize, top, topsize)
    requires |s.segs| > 0 && |s'.segs| > 0 && SameElsewhere(s.c, s'.c, touched)
    requires forall p :: p in touched ==> PointerOk(s'.c, dv', dvsize', top', p)
    requires (dvsize != 0 && dv !in touched) || (dvsize' != 0 && dv' !in touched) ==> dv' == dv && dvsize' == dvsize
    requires top !in touched || top' !in touched ==> top' == top && topsize' == topsize
    requires dvsize' == 0 ==> dv' == 0
    requires dvsize' != 0 && dv' in touched ==> dv' in s'.c && s'.c[dv'].size == dvsize'
    requires top' in touched ==> top' in s'.c && s'.c[top'].size == topsize'
    ensures PointersOk(s', dv', dvsize', top', topsize')
  {
    forall p
      ensures PointerOk(s'.c, dv', dvsize', top', p)
    {
      if p !in touched { assert PointerOk(s.c, dv, dvsize, top, p) && SameAt(s.c, s'.c, p); }
    }
    if dvsize' != 0 && dv' !in touched { assert SameAt(s.c, s'.c, dv'); }
    if top' !in touched { assert SameAt(s.c, s'.c, top'); }
  }

  // ---------- a chunk between victim and bin ----------

  /** A free chunk may change between being the victim and belonging in a bin. */
  lemma Rebin(mem: Mem, c: ChunkMap, segs: seq<Segment>, p: int, st: Status)
    requires Tiled(c, segs) && Tagged(mem, c, segs)
    requires p in c && c[p].st in {Binned, Victim} && st in {Binned, Victim}
    ensures var c' := SetStatus(c, p, st); Tiled(c', segs) && Tagged(mem, c', segs)
  {
    var c' := SetStatus(c, p, st);
    forall q
      ensures ShapeOk(c', segs, q)
    {
      assert ShapeOk(c, segs, q);
    }
    forall q
      ensures NextOk(c', q)
    {
      assert NextOk(c, q);
    }
    forall q
      ensures PrevOk(c', segs, q)
    {
      assert PrevOk(c, segs, q);
    }
    forall q
      ensures TagOk(mem, c', segs, q)
    {
      assert TagOk(mem, c, segs, q);
    }
    forall q, r
      ensures ChunksApart(c', segs, q, r)
    {
      assert ChunksApart(c, segs, q, r);
    }
    forall i
      ensures EndsOk(c', segs, i)
    {
      assert EndsOk(c, segs, i);
    }
  }

  lemma RebinCore(s: State, p: int)
    requires Core(s, NOBODY) && p in s.c && s.c[p].st == Victim
    ensures var s' := s.(c := SetStatus(s.c, p, Binned));
            && Core(s', p) && Undisturbed(s, s', NOBODY) && SameElsewhere(s.c, s'.c, {p})
  {
    var s' := s.(c := SetStatus(s.c, p, Binned));
    Rebin(s.mem, s.c, s.segs, p, Binned);
    NotBinned(s, p);
    AboveLow(s.c, s.segs, p);
    assert TagStep(s, s', {p});
    TagStepCore(s, s', {p}, NOBODY, p);
    TagStepUsers(s, s', {p}, NOBODY);
  }

  /** Only binned chunks are in bins. */
  lemma NotBinned(s: State, p: int)
    requires SmallOk(s.mem, s.c, s.lists, s.smallmap) && TreesOk(s.mem, s.c, s.nodes, s.treemap)
    requires p in s.c ==> s.c[p].st != Binned
    ensures !InBins(s, p)
  {
    if InBins(s, p) { BinsHoldBinned(s, p); }
  }

  // ---------- tag macros ----------

  /** set_inuse_and_pinuse */
  function SetInUseAndPInUse(mem: Mem, p: int, s: int): Mem {
    var m := Wr(mem, p + HEAD, BothInUse(s));
    Wr(m, p + s + HEAD, SetPInUse(Rd(m, p + s + HEAD)))
  }

  /** set_size_and_pinuse_of_inuse_chunk */
  function SetUsedHead(mem: Mem, p: int, s: int): Mem {
    Wr(mem, p + HEAD, BothInUse(s))
  }

  /** set_size_and_pinuse_of_free_chunk */
  function SetFreeTags(mem: Mem, p: int, s: int): Mem {
    Wr(Wr(mem, p + HEAD, FreeHead(s)), p + s, s)
  }

  /** set_free_with_pinuse */
  function SetFreeWithPInUse(mem: Mem, p: int, s: int, n: int): Mem {
    SetFreeTags(Wr(mem, n + HEAD, ClearPInUse(Rd(mem, n + HEAD))), p, s)
  }

  // ---------- handing out ----------

  /** v is out of the bins and may be carved: unlinked and pending, or the victim, or the top. */
  ghost predicate Carvable(s: State, v: int, pend: int) {
    && Core(s, pend) && v in s.c
    && (if pend == NOBODY then s.c[v].st == Victim || s.c[v].st == Top else pend == v && s.c[v].st == Binned)
  }

  lemma CarvableFree(s: State, v: int, pend: int)
    requires Carvable(s, v, pend)
    ensures !InBins(s, v) && v != NOBODY && !IsLive(s.c, v)
  {
    hide SmallOk, TreesOk, RecordsOk, InBins;
    AboveLow(s.c, s.segs, v);
    if pend == NOBODY { NotBinned(s, v); }
  }

  /** set_inuse_and_pinuse(m, v, chunksize(v)) */
  lemma HandOutWhole(s: State, s': State, v: int, pend: int)
    requires Carvable(s, v, pend) && s.c[v].st != Top
    requires s' == s.(mem := s'.mem, c := WholeMap(s.c, v))
    requires s'.mem == SetInUseAndPInUse(s.mem, v, s.c[v].size)
    ensures Core(s', NOBODY) && SameElsewhere(s.c, s'.c, {v}) && Undisturbed(s, s', v)
    ensures !IsLive(s.c, v) && IsLive(s'.c, v) && s'.c[v].size == s.c[v].size
  {
    hide SmallOk, TreesOk, RecordsOk, InBins, Rd, Wr, WholeMap, InTrees;
    CarvableFree(s, v, pend);
    assert ShapeOk(s.c, s.segs, v);
    CarveWhole(s.mem, s'.mem, s.c, s.segs, v);
    assert TagStep(s, s', {v});
    TagStepCore(s, s', {v}, pend, NOBODY);
    TagStepUsers(s, s', {v}, v);
  }

  /** set_size_and_pinuse_of_inuse_chunk on the lower part, set_size_and_pinuse_of_free_chunk
      on the remainder, which becomes the victim or is about to be binned. */
  lemma HandOutPart(s: State, s': State, v: int, nb: int, pend: int, st: Status)
    requires Carvable(s, v, pend) && s.c[v].st != Top && (st == Binned || st == Victim)
    requires nb % 8 == 0 && MIN_CHUNK_SIZE <= nb && nb + MIN_CHUNK_SIZE <= s.c[v].size
    requires s' == s.(mem := s'.mem, c := CarvedMap(s.c, v, nb, st))
    requires var r, rs := v + nb, s.c[v].size - nb;
             || s'.mem == SetFreeTags(SetUsedHead(s.mem, v, nb), r, rs)
             || s'.mem == SetUsedHead(SetFreeTags(s.mem, r, rs), v, nb)
    ensures Core(s', if st == Binned then v + nb else NOBODY)
    ensures SameElsewhere(s.c, s'.c, {v, v + nb}) && Undisturbed(s, s', v)
    ensures !IsLive(s.c, v) && IsLive(s'.c, v) && s'.c[v].size == nb
    ensures v + nb !in s.c && v + nb in s'.c && s'.c[v + nb].size == s.c[v].size - nb && s'.c[v + nb].st == st
  {
    hide SmallOk, TreesOk, RecordsOk, InBins, Rd, CarvedMap, InTrees;
    var r := v + nb;
    CarvableFree(s, v, pend);
    CarveSplit(s.mem, s'.mem, s.c, s.segs, v, nb, st);
    AboveLow(s.c, s.segs, v);
    NotBinned(s, r);
    assert TagStep(s, s', {v, r});
    TagStepCore(s, s', {v, r}, pend, if st == Binned then r else NOBODY);
    TagStepUsers(s, s', {v, r}, v);
  }

  /** Splitting the top chunk. */
  lemma HandOutTop(s: State, s': State, v: int, nb: int)
    requires Carvable(s, v, NOBODY) && s.c[v].st == Top
    requires nb % 8 == 0 && MIN_CHUNK_SIZE <= nb && nb < s.c[v].size
    requires s' == s.(mem := s'.mem, c := CarvedTopMap(s.c, v, nb))
    requires || s'.mem == Wr(SetUsedHead(s.mem, v, nb), v + nb + HEAD, FreeHead(s.c[v].size - nb))
          || s'.mem == SetUsedHead(Wr(s.mem, v + nb + HEAD, FreeHead(s.c[v].size - nb)), v, nb)
    ensures Core(s', NOBODY)
    ensures SameElsewhere(s.c, s'.c, {v, v + nb}) && Undisturbed(s, s', v)
    ensures !IsLive(s.c, v) && IsLive(s'.c, v) && s'.c[v].size == nb
    ensures v + nb !in s.c && v + nb in s'.c && s'.c[v + nb].size == s.c[v].size - nb && s'.c[v + nb].st == Top
  {
    hide SmallOk, TreesOk, RecordsOk, InBins, Rd, Wr, CarvedTopMap, InTrees;
    var r := v + nb;
    CarvableFree(s, v, NOBODY);
    CarveTop(s.mem, s'.mem, s.c, s.segs, v, nb);
    AboveLow(s.c, s.segs, v);
    NotBinned(s, r);
    assert TagStep(s, s', {v, r});
    TagStepCore(s, s', {v, r}, NOBODY, NOBODY);
    TagStepUsers(s, s', {v, r}, v);
  }
}
