/** The closure allocator on top of dlmalloc: every block has a writable address and an
    executable one, a fixed distance apart. */
module Closures {
  import opened Words
  import opened Chunks
  import opened Mapping
  import opened HeapState
  import opened HeapSteps
  import opened BestFit
  import opened Growing
  import opened Heap

  /** ffi_closure_alloc; wanted says whether the caller passed a place for the code address. */
  method FfiClosureAlloc(gm: MallocState, size: int, wanted: bool, sys: System) returns (ptr: int, code: int)
    requires gm.Valid() && 0 <= size < U64
    requires sys.Mapped? && Request2Size(size) + TOP_FOOT_SIZE + 1 + PAGE < U64 ==> FreshBlock(gm.segs, sys.base, MapSize(Request2Size(size)))
    modifies gm
    ensures gm.Valid()
    // When it fails, and then nothing changes.
    ensures ptr == 0 <==>
              !wanted || (OnlySystem(old(gm.chunks), old(gm.dvsize), old(gm.topsize), Request2Size(size))
                          && (sys.Refused? || Request2Size(size) + TOP_FOOT_SIZE + 1 + PAGE >= U64))
    ensures ptr == 0 ==> gm.S() == old(gm.S()) && gm.images == old(gm.images) && gm.P() == old(gm.P())
    ensures gm.segs == old(gm.segs) || (sys.Mapped? && Grown(old(gm.segs), gm.segs, Image(sys.base, MapSize(Request2Size(size)), sys.offset)))
    ensures ptr != 0 ==> ptr % 8 == 0 && HandedOut(old(gm.S()), gm.S(), ptr - 16, Request2Size(size))
    ensures ptr != 0 ==> code == ptr + OffsetOf(gm.S(), ptr - 16)
  {
    hide Core, PointersOk, ImagesOk, MapSize, FreshBlock, Grown, Smallest, SomePreferred, Undisturbed, AfterMapping, AfterBin, Request2Size;
    ptr, code := 0, 0;
    if !wanted {
      return;
    }
    ptr := gm.Dlmalloc(size, sys);
    if ptr != 0 {
      BlockSize(gm.S(), ptr - 16);
      BlockSegment(gm.S(), ptr - 16, ptr);
      var seg, k := gm.SegmentHolding(ptr);
      HomeUnique(gm.S(), ptr - 16, ptr, k);
      ReadRecord(gm.S(), k);
      code := ptr + Rd(gm.mem, seg + 24);
    }
  }

  lemma BlockSize(s: State, p: int)
    requires Core(s, NOBODY) && IsLive(s.c, p)
    ensures MIN_CHUNK_SIZE <= s.c[p].size
  {
    assert ShapeOk(s.c, s.segs, p);
  }

  /** A byte of a live block lies in the segment of its chunk. */
  lemma BlockSegment(s: State, p: int, a: int)
    requires Core(s, NOBODY) && IsLive(s.c, p) && p <= a < p + s.c[p].size
    ensures |s.segs| > 0 && 0 <= s.c[p].sid < |s.segs| && s.segs[s.c[p].sid].base <= a < s.segs[s.c[p].sid].End()
  {
    InsideSegment(s.c, s.segs, p);
    assert ShapeOk(s.c, s.segs, p);
  }

  /** No other segment holds it. */
  lemma HomeUnique(s: State, p: int, a: int, k: int)
    requires Core(s, NOBODY) && IsLive(s.c, p) && p <= a <= p + 16
    requires 0 <= k < |s.segs| && s.segs[k].base <= a < s.segs[k].End()
    ensures k == s.c[p].sid && OffsetOf(s, p) == s.segs[k].offset
  {
    assert ShapeOk(s.c, s.segs, p);
    BlockSize(s, p);
    BlockSegment(s, p, a);
    assert SegmentsApart(s.segs, k, s.c[p].sid);
  }

  // ---------- release by either address ----------

  predicate CodeIn(g: Segment, a: int) {
    g.base + g.offset <= a < g.End() + g.offset
  }

  /** The first segment of the list, that is, the latest, whose executable image holds a; -1 if none. */
  function CodeHome(segs: seq<Segment>, a: int): (k: int)
    ensures -1 <= k < |segs|
    ensures k >= 0 ==> CodeIn(segs[k], a)
    ensures forall i :: k < i < |segs| ==> !CodeIn(segs[i], a)
  {
    if |segs| == 0 then -1
    else if CodeIn(segs[|segs| - 1], a) then |segs| - 1
    else CodeHome(segs[..|segs| - 1], a)
  }

  lemma Blank(s: State, dv: int, dvsize: int, top: int, topsize: int)
    requires PointersOk(s, dv, dvsize, top, topsize) && |s.segs| == 0
    ensures BlankRecord(s.mem)
  {
  }

  /** segment_holding_code */
  method SegmentHoldingCode(gm: MallocState, a: int) returns (sp: int, ghost k: int)
    requires gm.Valid()
    ensures sp == 0 <==> k == -1
    ensures sp != 0 ==> 0 <= k < |gm.segs| && sp == gm.segs[k].rec && CodeIn(gm.segs[k], a)
    ensures forall i :: k < i < |gm.segs| ==> !CodeIn(gm.segs[i], a)
  {
    hide Core, Rd, ImagesOk, PointersOk;
    ghost var s := gm.S();
    k := |gm.segs| - 1;
    sp := SEG_HEAD;
    if |gm.segs| > 0 {
      ListHead(s);
    } else {
      Blank(s, gm.dv, gm.dvsize, gm.top, gm.topsize);
    }
    while true
      invariant if |gm.segs| == 0 then sp == SEG_HEAD && k == -1 else 0 <= k && sp == RecordAddress(gm.segs, k)
      invariant k < |gm.segs|
      invariant forall i :: k < i < |gm.segs| ==> !CodeIn(gm.segs[i], a)
      decreases k
    {
      if |gm.segs| > 0 { ReadRecord(s, k); }
      var base := Rd(gm.mem, sp);
      if base + Rd(gm.mem, sp + 24) <= a < base + Rd(gm.mem, sp + 24) + Rd(gm.mem, sp + 8) {
        return;
      }
      sp := Rd(gm.mem, sp + 16);
      if |gm.segs| > 0 {
        NoRecordLeft(s, k);
        k := k - 1;
      }
      if sp == 0 {
        return;
      }
    }
  }

  /** The address that ffi_closure_free passes on to dlfree when FFI_CLOSURE_FREE_CODE is set. */
  function FreeAddress(segs: seq<Segment>, a: int): int {
    var k := CodeHome(segs, a);
    if k >= 0 then a - segs[k].offset else a
  }

  /** The executable images of i and j do not overlap, nor does that of i overlap the writable
      memory of j, unless it is that memory. */
  predicate ImageApart(segs: seq<Segment>, i: int, j: int) {
    0 <= i < |segs| && 0 <= j < |segs| ==>
      var g, h := segs[i], segs[j];
      && (i != j ==> g.End() + g.offset <= h.base + h.offset || h.End() + h.offset <= g.base + g.offset)
      && (g.offset != 0 ==> g.End() + g.offset <= h.base || h.End() <= g.base + g.offset)
  }

  ghost predicate ImagesApart(segs: seq<Segment>) {
    forall i, j {:trigger ImageApart(segs, i, j)} :: ImageApart(segs, i, j)
  }

  /** Both addresses of a byte lead back to it. */
  predicate LeadsBack(segs: seq<Segment>, k: int, a: int)
    requires 0 <= k < |segs|
  {
    FreeAddress(segs, a + segs[k].offset) == a && FreeAddress(segs, a) == a
  }

  /** With images apart, both addresses of any byte of any segment lead back to it. */
  lemma ApartLeadsBack(segs: seq<Segment>, k: int, a: int)
    requires ImagesApart(segs) && 0 <= k < |segs| && segs[k].base <= a < segs[k].End()
    ensures LeadsBack(segs, k, a)
  {
    assert CodeIn(segs[k], a + segs[k].offset);
    assert ImageApart(segs, CodeHome(segs, a + segs[k].offset), k);
    assert ImageApart(segs, CodeHome(segs, a), k);
  }

  /** Both addresses of a block lead back to the block. */
  lemma FreeAddressWorks(s: State, p: int)
    requires Core(s, NOBODY) && ImagesApart(s.segs) && IsLive(s.c, p)
    ensures FreeAddress(s.segs, p + 16 + OffsetOf(s, p)) == p + 16
    ensures FreeAddress(s.segs, p + 16) == p + 16
  {
    BlockSize(s, p);
    BlockSegment(s, p, p + 16);
    ApartLeadsBack(s.segs, s.c[p].sid, p + 16);
  }

  /** Segments as the system makes them: whole pages, at offsets of whole pages, not overlapping. */
  ghost predicate WholePages(segs: seq<Segment>) {
    && (forall g {:trigger g in segs} :: g in segs ==> Pages(g))
    && (forall i, j {:trigger SegmentsApart(segs, i, j)} :: SegmentsApart(segs, i, j))
  }

  /** An address that a block of the segment may have: its chunk fits in front of what ends the segment. */
  predicate BlockAddress(g: Segment, a: int) {
    a % 8 == 0 && g.base <= a - 16 && a - 16 + MIN_CHUNK_SIZE + TOP_FOOT_SIZE <= g.End()
  }

  /** When release by either address works: both addresses of every possible block lead back to it
      if and only if the executable images are apart from each other and, unless they are the
      writable memory itself, from all writable memory. */
  lemma FreeAddressExactly(segs: seq<Segment>)
    requires WholePages(segs)
    ensures (forall k, a {:trigger LeadsBack(segs, k, a)} :: 0 <= k < |segs| && BlockAddress(segs[k], a) ==> LeadsBack(segs, k, a))
            <==> ImagesApart(segs)
  {
    hide LeadsBack, ImageApart;
    if ImagesApart(segs) {
      forall k, a | 0 <= k < |segs| && BlockAddress(segs[k], a)
        ensures LeadsBack(segs, k, a)
      {
        ApartLeadsBack(segs, k, a);
      }
    } else {
      var i, j :| !ImageApart(segs, i, j);
      Misled(segs, i, j);
    }
  }

  predicate Pages(g: Segment) {
    g.base % PAGE == 0 && g.size % PAGE == 0 && 0 < g.size && g.offset % PAGE == 0
  }

  /** A page of a segment, moved by o, holds a block address. */
  lemma PageHasBlock(g: Segment, o: int, x: int)
    requires Pages(g) && x % PAGE == 0 && o % PAGE == 0 && g.base + o <= x && x + PAGE <= g.End() + o
    ensures BlockAddress(g, x + 16 - o) && g.base <= x + 16 - o < g.End()
  {
  }

  lemma PageEnds(g: Segment, o: int)
    requires Pages(g) && o % PAGE == 0
    ensures (g.base + o) % PAGE == 0 && (g.End() + o) % PAGE == 0 && g.base + o < g.End() + o
  {
  }

  /** Image i, and the memory of j moved by o, overlap: one place for two blocks. */
  lemma OnePlace(segs: seq<Segment>, i: int, j: int, o: int) returns (a: int, b: int)
    requires 0 <= i < |segs| && 0 <= j < |segs| && Pages(segs[i]) && Pages(segs[j]) && o % PAGE == 0
    requires segs[i].base + segs[i].offset < segs[j].End() + o && segs[j].base + o < segs[i].End() + segs[i].offset
    ensures BlockAddress(segs[i], a) && BlockAddress(segs[j], b) && a + segs[i].offset == b + o
    ensures segs[i].base <= a < segs[i].End() && segs[j].base <= b < segs[j].End()
  {
    var g, h := segs[i], segs[j];
    PageEnds(g, g.offset);
    PageEnds(h, o);
    var x := CommonPage(g.base + g.offset, g.End() + g.offset, h.base + o, h.End() + o);
    PageHasBlock(g, g.offset, x);
    PageHasBlock(h, o, x);
    a, b := x + 16 - g.offset, x + 16 - o;
  }

  /** Images that are not apart mislead the release of some block. */
  lemma Misled(segs: seq<Segment>, i: int, j: int)
    requires WholePages(segs) && !ImageApart(segs, i, j)
    ensures exists k, a {:trigger LeadsBack(segs, k, a)} :: 0 <= k < |segs| && BlockAddress(segs[k], a) && !LeadsBack(segs, k, a)
  {
    hide BlockAddress, FreeAddress;
    var g, h := segs[i], segs[j];
    assert g in segs && h in segs && SegmentsApart(segs, i, j);
    var o := if i != j && g.base + g.offset < h.End() + h.offset && h.base + h.offset < g.End() + g.offset then h.offset else 0;
    var a, b := OnePlace(segs, i, j, o);
    assert !LeadsBack(segs, i, a) || !LeadsBack(segs, j, b);
  }

  /** Ranges of whole pages that overlap have a page in common. */
  lemma CommonPage(a: int, b: int, c: int, d: int) returns (x: int)
    requires a % PAGE == 0 && b % PAGE == 0 && c % PAGE == 0 && d % PAGE == 0 && a < b && c < d && a < d && c < b
    ensures x % PAGE == 0 && a <= x && c <= x && x + PAGE <= b && x + PAGE <= d
  {
    x := if a < c then c else a;
  }

  /** Two images at the same place: releasing the block at 0x10010 by its code address would release
      the one at 0x20010. */
  lemma SharedImageMisleads()
    ensures var segs := [Segment(0x10000, 0x1000, 0x100000, SEG_HEAD), Segment(0x20000, 0x1000, 0xF0000, SEG_HEAD)];
            && WholePages(segs) && BlockAddress(segs[0], 0x10010) && BlockAddress(segs[1], 0x20010)
            && FreeAddress(segs, 0x10010 + segs[0].offset) == 0x20010 && !LeadsBack(segs, 0, 0x10010)
  {
    var segs := [Segment(0x10000, 0x1000, 0x100000, SEG_HEAD), Segment(0x20000, 0x1000, 0xF0000, SEG_HEAD)];
    assert CodeIn(segs[1], 0x110010);
  }

  lemma CodeHomeUnique(segs: seq<Segment>, a: int, k: int)
    requires -1 <= k < |segs| && (k >= 0 ==> CodeIn(segs[k], a))
    requires forall i :: k < i < |segs| ==> !CodeIn(segs[i], a)
    ensures k == CodeHome(segs, a)
  {
  }

  /** ffi_closure_free; freeCode stands for FFI_CLOSURE_FREE_CODE. */
  method FfiClosureFree(gm: MallocState, ptr: int, freeCode: bool)
    requires gm.Valid()
    requires var a := if freeCode then FreeAddress(gm.segs, ptr) else ptr;
             a != 0 ==> IsLive(gm.chunks, a - 16)
    modifies gm
    ensures gm.Valid() && gm.segs == old(gm.segs)
    ensures var a := if freeCode then FreeAddress(old(gm.segs), ptr) else ptr;
            a != 0 ==> TakenBack(old(gm.S()), gm.S(), a - 16)
  {
    hide Core, PointersOk, ImagesOk, Undisturbed, Rd;
    var a := ptr;
    if freeCode {
      var seg, k := SegmentHoldingCode(gm, ptr);
      CodeHomeUnique(gm.segs, ptr, k);
      if seg != 0 {
        ReadRecord(gm.S(), k);
        a := ptr - Rd(gm.mem, seg + 24);
      }
    }
    gm.Dlfree(a);
  }

  /** The memory and the image of the mapping m are apart from those of segment g. */
  predicate MappingApart(g: Segment, m: Image) {
    && 0 < g.size
    && (g.End() + g.offset <= m.base + m.offset || m.base + m.size + m.offset <= g.base + g.offset)
    && (m.offset != 0 ==> g.End() <= m.base + m.offset || m.base + m.size + m.offset <= g.base)
    && (g.offset != 0 ==> g.End() + g.offset <= m.base || m.base + m.size <= g.base + g.offset)
  }

  /** Images stay apart when the heap grows by a mapping that the system has placed apart from
      everything mapped before. */
  lemma ImagesStayApart(segs: seq<Segment>, segs': seq<Segment>, m: Image)
    requires ImagesApart(segs) && Grown(segs, segs', m) && 0 < m.size
    requires forall g :: g in segs ==> MappingApart(g, m)
    requires m.offset == 0 || m.offset >= m.size || m.offset <= -m.size
    ensures ImagesApart(segs')
  {
    hide ImageApart, MappingApart;
    if Follows(segs, m) {
      forall i, j ensures ImageApart(segs', i, j) { ApartExtended(segs, segs', m, i, j); }
    } else if |segs| > 0 && PrecedesSome(segs, m) {
      var k :| GrownAt(segs, segs', m, k);
      forall i, j ensures ImageApart(segs', i, j) { ApartPrepended(segs, segs', m, k, i, j); }
    } else {
      forall i, j ensures ImageApart(segs', i, j) { ApartPushed(segs, segs', m, i, j); }
    }
  }

  lemma ApartExtended(segs: seq<Segment>, segs': seq<Segment>, m: Image, i: int, j: int)
    requires ImagesApart(segs) && |segs| > 0 && segs' == ExtendSegs(segs, m.size) && 0 < m.size
    requires segs[|segs| - 1].End() == m.base && segs[|segs| - 1].offset == m.offset
    requires forall g :: g in segs ==> MappingApart(g, m)
    requires m.offset == 0 || m.offset >= m.size || m.offset <= -m.size
    ensures ImageApart(segs', i, j)
  {
    assert ImageApart(segs, i, j);
    assert 0 <= i < |segs| ==> MappingApart(segs[i], m);
    assert 0 <= j < |segs| ==> MappingApart(segs[j], m);
  }

  lemma ApartPrepended(segs: seq<Segment>, segs': seq<Segment>, m: Image, k: int, i: int, j: int)
    requires ImagesApart(segs) && GrownAt(segs, segs', m, k) && 0 < m.size
    requires forall g :: g in segs ==> MappingApart(g, m)
    requires m.offset == 0 || m.offset >= m.size || m.offset <= -m.size
    ensures ImageApart(segs', i, j)
  {
    assert ImageApart(segs, i, j);
    assert 0 <= i < |segs| ==> MappingApart(segs[i], m);
    assert 0 <= j < |segs| ==> MappingApart(segs[j], m);
  }

  lemma ApartPushed(segs: seq<Segment>, segs': seq<Segment>, m: Image, i: int, j: int)
    requires ImagesApart(segs) && 0 < m.size
    requires if |segs| == 0 then segs' == [Segment(m.base, m.size, m.offset, SEG_HEAD)]
             else exists rec {:trigger PushSegs(segs, rec, m.base, m.size, m.offset)} :: segs' == PushSegs(segs, rec, m.base, m.size, m.offset)
    requires forall g :: g in segs ==> MappingApart(g, m)
    requires m.offset == 0 || m.offset >= m.size || m.offset <= -m.size
    ensures ImageApart(segs', i, j)
  {
    assert ImageApart(segs, i, j);
    assert 0 <= i < |segs| ==> MappingApart(segs[i], m);
    assert 0 <= j < |segs| ==> MappingApart(segs[j], m);
  }
}
