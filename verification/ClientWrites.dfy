/** The state before the first use, and what a client may do to the heap by writing to its
    own block: nothing but change the contents of that block. */
module ClientWrites {
  import opened Words
  import opened BinMaps
  import opened Chunks
  import opened SmallBins
  import opened TreeBins
  import opened HeapOps
  import opened HeapState
  import opened HeapSteps

  lemma EmptyHeap(s: State)
    requires s.smallmap == 0 && s.treemap == 0 && s.c == map[] && s.segs == [] && s.nodes == map[]
    requires |s.lists| == 32 && (forall i :: 0 <= i < 32 ==> s.lists[i] == [])
    requires forall a {:trigger Rd(s.mem, a)} :: a < LOW ==> Rd(s.mem, a) == 0
    ensures Core(s, NOBODY) && PointersOk(s, 0, 0, 0, 0)
  {
    hide Marked;
    EmptyMap(0);
    forall i
      ensures BinOk(s.mem, s.lists, s.smallmap, i)
    {
      if 0 <= i < 32 { assert !Marked(0, i); }
    }
    forall i
      ensures RootOk(s.mem, s.nodes, s.treemap, i)
    {
      if 0 <= i < 32 { assert !Marked(0, i); }
    }
    NobodyAbsent(s);
  }

  /** No tag lies in a live block or in its borrowed word. */
  lemma PayloadNotTag(mem: Mem, mem': Mem, c: ChunkMap, segs: seq<Segment>, p: int, a: int, q: int)
    requires Tiled(c, segs) && Tagged(mem, c, segs) && IsLive(c, p) && PayloadWord(c, p, a) && a % 8 == 0
    requires forall x {:trigger Rd(mem', x)} :: x == a || Rd(mem', x) == Rd(mem, x)
    ensures TagOk(mem', c, segs, q)
  {
    hide Rd;
    assert TagOk(mem, c, segs, q);
    if q in c {
      assert ShapeOk(c, segs, q) && ShapeOk(c, segs, p) && NextOk(c, q) && NextOk(c, p);
      if q != p { Distinct(c, segs, p, q); }
      if q != p && (c[q].st == Binned || c[q].st == Victim) {
        var n := q + c[q].size;
        if n != p { Distinct(c, segs, p, n); }
      }
    }
  }

  lemma StoreCore(s: State, mem': Mem, p: int, a: int)
    requires Core(s, NOBODY) && IsLive(s.c, p) && PayloadWord(s.c, p, a) && a % 8 == 0
    requires forall x {:trigger Rd(mem', x)} :: x == a || Rd(mem', x) == Rd(s.mem, x)
    ensures Core(s.(mem := mem'), NOBODY) && Undisturbed(s, s.(mem := mem'), p)
  {
    hide SmallOk, TreesOk, InTrees, InBins, Rd;
    AboveLow(s.c, s.segs, p);
    NotBinned(s, p);
    forall q
      ensures TagOk(mem', s.c, s.segs, q)
    {
      PayloadNotTag(s.mem, mem', s.c, s.segs, p, a, q);
    }
    forall q, x | q != p && Claim(s.c, q, x)
      ensures Rd(mem', x) == Rd(s.mem, x)
    {
      ClaimsDiffer(s.c, s.segs, p, a, q, x);
    }
    var s' := s.(mem := mem');
    assert TagStep(s, s', {p});
    TagStepCore(s, s', {p}, NOBODY, NOBODY);
    TagStepUsers(s, s', {p}, p);
  }

  lemma ClaimsDiffer(c: ChunkMap, segs: seq<Segment>, p: int, a: int, q: int, x: int)
    requires Tiled(c, segs) && IsLive(c, p) && PayloadWord(c, p, a) && q != p && Claim(c, q, x)
    ensures x != a
  {
    assert ShapeOk(c, segs, q) && ShapeOk(c, segs, p);
    Distinct(c, segs, p, q);
  }

  lemma StorePointers(s: State, mem': Mem, p: int, a: int, dv: int, dvsize: int, top: int, topsize: int)
    requires Core(s, NOBODY) && PointersOk(s, dv, dvsize, top, topsize) && p in s.c
    ensures PointersOk(s.(mem := mem'), dv, dvsize, top, topsize)
  {
    assert |s.segs| > 0;
    forall q
      ensures PointerOk(s.(mem := mem').c, dv, dvsize, top, q)
    {
      assert PointerOk(s.c, dv, dvsize, top, q);
    }
  }
}
