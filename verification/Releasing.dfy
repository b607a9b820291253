/** Giving a block back: taking it and its free neighbours out of circulation, joining them,
    and making the result a binned chunk, the victim, or part of the top. */
module Releasing {
  import opened Words
  import opened Chunks
  import opened SmallBins
  import opened TreeBins
  import opened HeapOps
  import opened HeapState
  import opened HeapSteps

  /** Taking a chunk out of circulation. */
  lemma HoldCore(s: State, p: int, pend: int)
    requires Core(s, pend) && p in s.c && s.c[p].st != Record
    requires if pend == NOBODY then s.c[p].st != Binned else pend == p
    ensures var s' := s.(c := SetStatus(s.c, p, if Topmost(s.c[p]) then HeldTop else Held));
            && Core(s', NOBODY) && SameElsewhere(s.c, s'.c, {p}) && Undisturbed(s, s', p)
  {
    hide SmallOk, TreesOk, RecordsOk, InBins, InTrees;
    var s' := s.(c := SetStatus(s.c, p, if Topmost(s.c[p]) then HeldTop else Held));
    Hold(s.mem, s.c, s.segs, p);
    AboveLow(s.c, s.segs, p);
    if pend == NOBODY { NotBinned(s, p); }
    assert TagStep(s, s', {p});
    TagStepCore(s, s', {p}, pend, NOBODY);
    TagStepUsers(s, s', {p}, p);
  }

  /** Joining two held neighbours. */
  lemma MergeCore(s: State, p: int)
    requires Core(s, NOBODY) && CanMerge(s.c, p)
    ensures var s' := s.(c := MergeMap(s.c, p));
            var q := p + s.c[p].size;
            && Core(s', NOBODY) && SameElsewhere(s.c, s'.c, {p, q}) && Undisturbed(s, s', NOBODY)
            && p in s'.c && q !in s'.c && p != q && s'.c[p].pin == s.c[p].pin
            && s'.c[p].size == s.c[p].size + s.c[q].size && s'.c[p].st == s.c[q].st
            && (q + s.c[q].size in s.c ==> q + s.c[q].size in s'.c && s'.c[q + s.c[q].size].pin == s.c[q + s.c[q].size].pin)
  {
    hide SmallOk, TreesOk, RecordsOk, InBins, InTrees;
    var q := p + s.c[p].size;
    var s' := s.(c := MergeMap(s.c, p));
    assert ShapeOk(s.c, s.segs, p) && ShapeOk(s.c, s.segs, q);
    Merge(s.mem, s.c, s.segs, p);
    MergeSame(s.c, p);
    AboveLow(s.c, s.segs, p);
    NotBinned(s, p);
    NotBinned(s, q);
    assert TagStep(s, s', {p, q});
    TagStepCore(s, s', {p, q}, NOBODY, NOBODY);
    TagStepUsers(s, s', {p, q}, NOBODY);
  }

  /** The word in front of a free chunk's upper neighbour is its size. */
  lemma FootOf(s: State, p: int)
    requires Tiled(s.c, s.segs) && Tagged(s.mem, s.c, s.segs) && p in s.c && !s.c[p].pin
    requires forall q {:trigger q in s.c} :: q in s.c && q != p ==> !Loose(s.c[q])
    ensures var v := p - Rd(s.mem, p);
            v == s.c[p].prev && v in s.c && v < p && (s.c[v].st == Binned || s.c[v].st == Victim) && s.c[v].size == Rd(s.mem, p) && s.c[v].pin
  {
    assert PrevOk(s.c, s.segs, p);
    var v := s.c[p].prev;
    assert ShapeOk(s.c, s.segs, v) && TagOk(s.mem, s.c, s.segs, v);
  }

  /** Reading the head of a chunk. */
  lemma HeadOf(s: State, p: int)
    requires Tiled(s.c, s.segs) && Tagged(s.mem, s.c, s.segs) && p in s.c && !Loose(s.c[p])
    ensures ChunkSize(Rd(s.mem, p + HEAD)) == s.c[p].size
    ensures PInUse(Rd(s.mem, p + HEAD)) <==> s.c[p].pin
    ensures CInUse(Rd(s.mem, p + HEAD)) <==> InUse(s.c[p])
    ensures s.c[p].size >= 8
  {
    assert TagOk(s.mem, s.c, s.segs, p) && ShapeOk(s.c, s.segs, p);
    Decode(s.c[p]);
  }

  function JoinMap(c: ChunkMap, p: int, h: int): ChunkMap
    requires p in c && h in c && p + c[p].size in c
  {
    MergeMap(SetStatus(c, h, if Topmost(c[h]) then HeldTop else Held), p)
  }

  /** p0 is being released: it is held, joined with what lies below down to p. */
  ghost predicate Freeing(s0: State, s: State, p0: int, p: int, size: int) {
    && Core(s, NOBODY) && s.segs == s0.segs && IsLive(s0.c, p0)
    && p in s0.c && (p == p0 || s0.c[p].st in {Binned, Victim})
    && p in s.c && s.c[p].st == Held && s.c[p].pin && s.c[p].size == size
    && SameElsewhere(s0.c, s.c, {p0, p}) && Undisturbed(s0, s, p0) && (p0 == p || p0 !in s.c)
    && p + size in s.c && p + size != p0 && s.c[p + size].pin
  }

  /** The first step: p0 alone is held. */
  lemma FreeStart(s0: State, p0: int)
    requires Core(s0, NOBODY) && IsLive(s0.c, p0)
    ensures var s := s0.(c := SetStatus(s0.c, p0, Held));
            && Core(s, NOBODY) && Undisturbed(s0, s, p0) && SameElsewhere(s0.c, s.c, {p0})
            && p0 in s.c && s.c[p0].st == Held && s.c[p0].size == s0.c[p0].size
            && p0 + s0.c[p0].size in s.c && p0 + s0.c[p0].size != p0 && s.c[p0 + s0.c[p0].size].pin
            && (s.c[p0].pin ==> Freeing(s0, s, p0, p0, s.c[p0].size))
  {
    hide SmallOk, TreesOk, RecordsOk, InBins, Undisturbed;
    HoldCore(s0, p0, NOBODY);
    assert ShapeOk(s0.c, s0.segs, p0) && NextOk(s0.c, p0) && PrevOk(s0.c, s0.segs, p0 + s0.c[p0].size);
  }

  /** Joining with the free chunk v below, which is the victim, or has been unlinked. */
  lemma FreeBelow(s0: State, s1: State, s2: State, p0: int, v: int, pend: int)
    requires Core(s0, NOBODY) && IsLive(s0.c, p0) && s1 == s0.(c := SetStatus(s0.c, p0, Held)) && Undisturbed(s0, s1, p0)
    requires v in s0.c && v < p0 && v + s0.c[v].size == p0 && s0.c[v].pin
    requires s2.c == s1.c && s2.segs == s1.segs && Core(s2, pend) && (s2 == s1 || OnlyBinWords(s1.c, s1.mem, s2.mem))
    requires if pend == NOBODY then s0.c[v].st == Victim else pend == v && s0.c[v].st == Binned
    ensures v in s2.c && v + s2.c[v].size in s2.c
    ensures Freeing(s0, s2.(c := JoinMap(s2.c, v, v)), p0, v, s0.c[v].size + s0.c[p0].size)
  {
    hide SmallOk, TreesOk, RecordsOk, InBins, Undisturbed, MergeMap, OnlyBinWords, Tagged;
    assert ShapeOk(s0.c, s0.segs, p0) && NextOk(s0.c, p0) && PrevOk(s0.c, s0.segs, p0 + s0.c[p0].size);
    if s2 != s1 {
      BinStepUsers(s1, s2, p0);
      UndisturbedTrans(s0, s1, s2, p0);
    }
    HoldCore(s2, v, pend);
    var s3 := s2.(c := SetStatus(s2.c, v, Held));
    HeldNoUser(s2, s3, v);
    UndisturbedAny(s2, s3, p0);
    UndisturbedTrans(s0, s2, s3, p0);
    MergeCore(s3, v);
    var s4 := s3.(c := MergeMap(s3.c, v));
    UndisturbedAny(s3, s4, p0);
    UndisturbedTrans(s0, s3, s4, p0);
    forall q | q !in {p0, v}
      ensures SameAt(s0.c, s4.c, q)
    {
      assert SameAt(s3.c, s4.c, q);
    }
  }

  /** Holding a chunk that was not live disturbs no block. */
  lemma HeldNoUser(s: State, s': State, v: int)
    requires Undisturbed(s, s', v) && !IsLive(s.c, v) && !IsLive(s'.c, v)
    ensures Undisturbed(s, s', NOBODY)
  {
    forall q | q != NOBODY
      ensures UserKept(s, s', q)
    {
      assert q != v ==> UserKept(s, s', q);
    }
  }

  /** Joining with the free chunk q above: the victim, the top, or an unlinked one. */
  lemma FreeAbove(s0: State, s1: State, s2: State, p0: int, p: int, size: int, pend: int)
    requires Freeing(s0, s1, p0, p, size)
    requires s2.c == s1.c && s2.segs == s1.segs && Core(s2, pend) && (s2 == s1 || OnlyBinWords(s1.c, s1.mem, s2.mem))
    requires if pend == NOBODY then s1.c[p + size].st in {Victim, Top} else pend == p + size && s1.c[p + size].st == Binned
    ensures var q := p + size;
            var s' := s2.(c := JoinMap(s2.c, p, q));
            && Core(s', NOBODY) && SameElsewhere(s0.c, s'.c, {p0, p, q}) && Undisturbed(s0, s', p0)
            && p in s'.c && s'.c[p].pin && s'.c[p].size == size + s1.c[q].size
            && s'.c[p].st == (if s1.c[q].st == Top then HeldTop else Held)
            && q !in s'.c && (p0 == p || p0 !in s'.c)
            && (s1.c[q].st != Top ==> q + s1.c[q].size in s'.c && !s'.c[q + s1.c[q].size].pin)
  {
    hide SmallOk, TreesOk, RecordsOk, InBins, Undisturbed, MergeMap, OnlyBinWords, Tagged;
    var q := p + size;
    assert ShapeOk(s1.c, s1.segs, q) && NextOk(s1.c, q);
    if s1.c[q].st != Top { assert PrevOk(s1.c, s1.segs, q + s1.c[q].size); }
    if s2 != s1 {
      BinStepUsers(s1, s2, p0);
      UndisturbedTrans(s0, s1, s2, p0);
    }
    HoldCore(s2, q, pend);
    var s3 := s2.(c := SetStatus(s2.c, q, if Topmost(s2.c[q]) then HeldTop else Held));
    HeldNoUser(s2, s3, q);
    UndisturbedAny(s2, s3, p0);
    UndisturbedTrans(s0, s2, s3, p0);
    MergeCore(s3, p);
    var s4 := s3.(c := MergeMap(s3.c, p));
    UndisturbedAny(s3, s4, p0);
    UndisturbedTrans(s0, s3, s4, p0);
    forall x | x !in {p0, p, q}
      ensures SameAt(s0.c, s4.c, x)
    {
      assert SameAt(s3.c, s4.c, x) && SameAt(s0.c, s1.c, x);
    }
    if p0 != p { assert SameAt(s3.c, s4.c, p0); }
    assert s4 == s2.(c := JoinMap(s2.c, p, q));
  }

  // ---------- giving back ----------

  /** What lies above a held chunk is in use, when the chunk above it was. */
  lemma GiveCore(s: State, s': State, p: int, st: Status, p0: int)
    requires Core(s, NOBODY) && p in s.c && s.c[p].st == Held && s.c[p].pin && (st == Binned || st == Victim)
    requires var n := p + s.c[p].size;
             && n in s.c && (InUse(s.c[n]) || Loose(s.c[n]))
             && Rd(s'.mem, p + HEAD) == FreeHead(s.c[p].size) && Rd(s'.mem, n) == s.c[p].size
             && (!Loose(s.c[n]) ==> Rd(s'.mem, n + HEAD) == ClearPInUse(Rd(s.mem, n + HEAD)))
             && (forall a {:trigger Rd(s'.mem, a)} :: a == p + HEAD || a == n || a == n + HEAD || Rd(s'.mem, a) == Rd(s.mem, a))
    requires s' == s.(mem := s'.mem, c := SealMap(s.c, p, st))
    ensures Core(s', if st == Binned then p else NOBODY) && SameElsewhere(s.c, s'.c, {p}) && Undisturbed(s, s', p0)
    ensures p in s'.c && s'.c[p].st == st && s'.c[p].size == s.c[p].size
  {
    hide SmallOk, TreesOk, RecordsOk, InBins, InTrees, Rd, SealMap;
    GiveFree(s.mem, s'.mem, s.c, s.segs, p, st);
    AboveLow(s.c, s.segs, p);
    NotBinned(s, p);
    assert TagStep(s, s', {p});
    TagStepCore(s, s', {p}, NOBODY, if st == Binned then p else NOBODY);
    TagStepUsers(s, s', {p}, NOBODY);
    UndisturbedAny(s, s', p0);
  }

  lemma GiveTopCore(s: State, s': State, p: int, p0: int)
    requires Core(s, NOBODY) && p in s.c && s.c[p].st == HeldTop && s.c[p].pin
    requires s' == s.(mem := Wr(s.mem, p + HEAD, FreeHead(s.c[p].size)), c := SetStatus(s.c, p, Top))
    ensures Core(s', NOBODY) && SameElsewhere(s.c, s'.c, {p}) && Undisturbed(s, s', p0)
  {
    hide SmallOk, TreesOk, RecordsOk, InBins, InTrees, Rd, Wr;
    GiveTop(s.mem, s'.mem, s.c, s.segs, p);
    AboveLow(s.c, s.segs, p);
    NotBinned(s, p);
    assert TagStep(s, s', {p});
    TagStepCore(s, s', {p}, NOBODY, NOBODY);
    TagStepUsers(s, s', {p}, NOBODY);
    UndisturbedAny(s, s', p0);
  }

  /** The pointers after a release: p is what has become of p0 and its free neighbours, one of
      which may have been q above it. */
  lemma FreedPointers(s0: State, s': State, p0: int, p: int, q: int, dv: int, dvsize: int, top: int, topsize: int,
                      dv': int, dvsize': int, top': int, topsize': int)
    requires PointersOk(s0, dv, dvsize, top, topsize) && s'.segs == s0.segs && SameElsewhere(s0.c, s'.c, {p0, p, q})
    requires IsLive(s0.c, p0) && p in s'.c && (p0 == p || p0 !in s'.c) && (q == p || q !in s'.c)
    requires s'.c[p].st in {Binned, Victim, Top} && 0 < s'.c[p].size
    requires if s'.c[p].st == Victim then
               dv' == p && dvsize' == s'.c[p].size && (dvsize == 0 || dv in {p, q})
             else if dvsize != 0 && dv in {p, q} then dv' == 0 && dvsize' == 0
             else dv' == dv && dvsize' == dvsize
    requires if s'.c[p].st == Top then top' == p && topsize' == s'.c[p].size && top in {p, q}
             else top' == top && topsize' == topsize && top !in {p, q}
    ensures PointersOk(s', dv', dvsize', top', topsize')
  {
    assert PointerOk(s0.c, dv, dvsize, top, p0) && PointerOk(s0.c, dv, dvsize, top, top) && PointerOk(s0.c, dv, dvsize, top, dv);
    assert PointerOk(s0.c, dv, dvsize, top, p);
    if dvsize != 0 && dv !in {p0, p, q} { assert SameAt(s0.c, s'.c, dv); }
    PointersStep(s0, s', {p0, p, q}, dv, dvsize, top, topsize, dv', dvsize', top', topsize');
  }

  /** What the tests of dlfree say about the chunk above. */
  lemma AboveTests(s0: State, s: State, p0: int, p: int, size: int, dv: int, dvsize: int, top: int, topsize: int)
    requires Freeing(s0, s, p0, p, size) && PointersOk(s0, dv, dvsize, top, topsize)
    ensures var n := p + size;
            && Core(s, NOBODY) && s.segs == s0.segs && p in s.c && s.c[p].size == size && n in s.c
            && s.c[n].st in {Used, Record, Binned, Victim, Top} && n != p && 0 < size
            && n in s0.c && s0.c[n].st == s.c[n].st && s0.c[n].size == s.c[n].size
            && (s.c[n].st == Top <==> n == top) && (s.c[n].st == Victim <==> n == dv)
            && (CInUse(Rd(s.mem, n + HEAD)) <==> s.c[n].st in {Used, Record}) && PInUse(Rd(s.mem, n + HEAD))
            && ChunkSize(Rd(s.mem, n + HEAD)) == s.c[n].size && 0 < s.c[n].size
    ensures p + size == top ==> s.c[p + size].size == topsize
    ensures p + size == dv ==> s.c[p + size].size == dvsize
    ensures top != p && p != NOBODY && p + size != NOBODY
  {
    hide SmallOk, TreesOk, RecordsOk, InBins, Undisturbed;
    var n := p + size;
    assert ShapeOk(s.c, s.segs, p) && ShapeOk(s.c, s.segs, n);
    assert SameAt(s0.c, s.c, n) && PointerOk(s0.c, dv, dvsize, top, n);
    AboveLow(s.c, s.segs, p);
    HeadOf(s, n);
    assert PointerOk(s0.c, dv, dvsize, top, p);
  }

  // ---------- the cases of dlfree ----------

  /** What dlfree reads first: the size of p0 and, if the chunk below is free, its size. */
  lemma ReleaseStart(s0: State, p0: int, dv: int, dvsize: int, top: int, topsize: int)
    requires Core(s0, NOBODY) && IsLive(s0.c, p0) && PointersOk(s0, dv, dvsize, top, topsize)
    ensures var s := s0.(c := SetStatus(s0.c, p0, Held));
            && ChunkSize(Rd(s0.mem, p0 + HEAD)) == s0.c[p0].size && (PInUse(Rd(s0.mem, p0 + HEAD)) <==> s0.c[p0].pin)
            && Core(s, NOBODY) && Undisturbed(s0, s, p0)
            && (s0.c[p0].pin ==> Freeing(s0, s, p0, p0, s0.c[p0].size) && p0 != dv)
            && (!s0.c[p0].pin ==>
                  var v := p0 - Rd(s0.mem, p0);
                  && v == s0.c[p0].prev && v in s0.c && v != NOBODY && v < p0 && v + s0.c[v].size == p0 && s0.c[v].size == Rd(s0.mem, p0) && s0.c[v].pin
                  && v in s.c && s.c[v] == s0.c[v]
                  && s0.c[v].st == (if v == dv then Victim else Binned))
  {
    hide SmallOk, TreesOk, RecordsOk, InBins, Undisturbed;
    HeadOf(s0, p0);
    FreeStart(s0, p0);
    AboveLow(s0.c, s0.segs, p0);
    assert PointerOk(s0.c, dv, dvsize, top, p0);
    if !s0.c[p0].pin {
      forall q | q in s0.c
        ensures !Loose(s0.c[q])
      {
        assert PointerOk(s0.c, dv, dvsize, top, q);
      }
      FootOf(s0, p0);
      var v := p0 - Rd(s0.mem, p0);
      AboveLow(s0.c, s0.segs, v);
      assert PointerOk(s0.c, dv, dvsize, top, v);
    }
  }

  /** Giving back below a chunk in use. */
  lemma GiveBelowUsed(s0: State, s: State, s': State, p0: int, p: int, size: int, st: Status)
    requires Freeing(s0, s, p0, p, size) && (st == Binned || st == Victim) && InUse(s.c[p + size]) && p + size != p && 0 < size
    requires s' == s.(mem := SetFreeWithPInUse(s.mem, p, size, p + size), c := SealMap(s.c, p, st))
    ensures Core(s', if st == Binned then p else NOBODY) && Undisturbed(s0, s', p0)
    ensures SameElsewhere(s0.c, s'.c, {p0, p, p}) && (p0 == p || p0 !in s'.c)
    ensures p in s'.c && s'.c[p].st == st && s'.c[p].size == size
  {
    hide Undisturbed, Rd, Wr, SealMap, SmallOk, TreesOk, RecordsOk, InBins, Tagged;
    assert ShapeOk(s.c, s.segs, p);
    GiveCore(s, s', p, st, p0);
    UndisturbedTrans(s0, s, s', p0);
    forall q | q !in {p0, p, p}
      ensures SameAt(s0.c, s'.c, q)
    {
      assert SameAt(s0.c, s.c, q) && SameAt(s.c, s'.c, q);
    }
    if p0 != p { assert SameAt(s.c, s'.c, p0); }
  }

  /** Giving back a chunk that has been joined with the free chunk q above it. */
  lemma GiveJoined(s0: State, s: State, s': State, p0: int, p: int, q: int, st: Status)
    requires Core(s, NOBODY) && SameElsewhere(s0.c, s.c, {p0, p, q}) && Undisturbed(s0, s, p0)
    requires p in s.c && s.c[p].st == Held && s.c[p].pin && (st == Binned || st == Victim)
    requires q !in s.c && (p0 == p || p0 !in s.c)
    requires p + s.c[p].size in s.c && !s.c[p + s.c[p].size].pin
    requires s' == s.(mem := s'.mem, c := SealMap(s.c, p, st))
    requires || s'.mem == SetFreeTags(s.mem, p, s.c[p].size)
             || s'.mem == SetFreeWithPInUse(s.mem, p, s.c[p].size, p + s.c[p].size)
    ensures Core(s', if st == Binned then p else NOBODY) && Undisturbed(s0, s', p0)
    ensures SameElsewhere(s0.c, s'.c, {p0, p, q}) && (p0 == p || p0 !in s'.c) && q !in s'.c
    ensures p in s'.c && s'.c[p].st == st && s'.c[p].size == s.c[p].size
  {
    hide Undisturbed, Rd, Wr, SealMap, SmallOk, TreesOk, RecordsOk, InBins;
    var n := p + s.c[p].size;
    UnpinnedAbove(s, p, n);
    GiveCore(s, s', p, st, p0);
    UndisturbedTrans(s0, s, s', p0);
    forall x | x !in {p0, p, q}
      ensures SameAt(s0.c, s'.c, x)
    {
      assert SameAt(s0.c, s.c, x) && SameAt(s.c, s'.c, x);
    }
    if p0 != p { assert SameAt(s.c, s'.c, p0); }
    if q != p { assert SameAt(s.c, s'.c, q); }
  }

  /** A chunk whose pin bit is clear is in use, and clearing the bit again changes nothing. */
  lemma UnpinnedAbove(s: State, p: int, n: int)
    requires Tiled(s.c, s.segs) && Tagged(s.mem, s.c, s.segs) && p in s.c && s.c[p].st == Held && n == p + s.c[p].size
    requires n in s.c && !s.c[n].pin
    ensures MIN_CHUNK_SIZE <= s.c[p].size && (InUse(s.c[n]) || Loose(s.c[n]))
    ensures !Loose(s.c[n]) ==> ClearPInUse(Rd(s.mem, n + HEAD)) == Rd(s.mem, n + HEAD)
  {
    assert ShapeOk(s.c, s.segs, p) && ShapeOk(s.c, s.segs, n) && TagOk(s.mem, s.c, s.segs, n);
    Decode(s.c[n]);
    assert s.c[n].(pin := false) == s.c[n];
  }

  lemma FreedTop(s0: State, s: State, s': State, p0: int, p: int, q: int, dv: int, dvsize: int, top: int, topsize: int,
                 dv': int, dvsize': int, topsize': int)
    requires PointersOk(s0, dv, dvsize, top, topsize) && IsLive(s0.c, p0) && s.segs == s0.segs && s'.segs == s0.segs
    requires SameElsewhere(s0.c, s.c, {p0, p, q}) && Undisturbed(s0, s, p0) && Undisturbed(s, s', p0)
    requires q !in s.c && (p0 == p || p0 !in s.c) && p in s.c && q == top && q != dv
    requires s'.c == SetStatus(s.c, p, Top) && 0 < s.c[p].size && topsize' == s.c[p].size
    requires dv' == (if p == dv then 0 else dv) && dvsize' == (if p == dv then 0 else dvsize) && p != 0
    ensures PointersOk(s', dv', dvsize', p, topsize') && TakenBack(s0, s', p0)
  {
    hide Undisturbed;
    UndisturbedTrans(s0, s, s', p0);
    forall x | x !in {p0, p, q}
      ensures SameAt(s0.c, s'.c, x)
    {
      assert SameAt(s0.c, s.c, x);
    }
    FreedPointers(s0, s', p0, p, q, dv, dvsize, top, topsize, dv', dvsize', p, topsize');
  }

  // ---------- the cases as whole steps ----------

  function ToTopMap(c: ChunkMap, p: int, n: int): ChunkMap
    requires p in c && n in c && p + c[p].size in c
  {
    SetStatus(JoinMap(c, p, n), p, Top)
  }

  function ToFreeMap(c: ChunkMap, p: int, n: int, st: Status): ChunkMap
    requires p in c && n in c && p + c[p].size in c
  {
    SealMap(JoinMap(c, p, n), p, st)
  }

  /** The state of a release between its two halves. */
  ghost predicate Halfway(s0: State, s: State, p0: int, p: int, size: int, dv: int, dvsize: int, top: int, topsize: int) {
    Freeing(s0, s, p0, p, size) && Core(s0, NOBODY) && PointersOk(s0, dv, dvsize, top, topsize)
  }

  lemma ReleasedToTop(s0: State, s: State, p0: int, p: int, size: int, dv: int, dvsize: int, top: int, topsize: int)
    requires Halfway(s0, s, p0, p, size, dv, dvsize, top, topsize) && p + size == top
    ensures p in s.c && top in s.c && p + s.c[p].size in s.c
    ensures var s' := s.(mem := Wr(s.mem, p + HEAD, FreeHead(topsize + size)), c := ToTopMap(s.c, p, top));
            && Core(s', NOBODY) && TakenBack(s0, s', p0)
            && PointersOk(s', if p == dv then 0 else dv, if p == dv then 0 else dvsize, p, topsize + size)
  {
    hide Core, Undisturbed, SameElsewhere, PointersOk, JoinMap, Rd, Wr, OnlyBinWords;
    AboveTests(s0, s, p0, p, size, dv, dvsize, top, topsize);
    FreeAbove(s0, s, s, p0, p, size, NOBODY);
    var s2 := s.(c := JoinMap(s.c, p, top));
    var s' := s.(mem := Wr(s.mem, p + HEAD, FreeHead(topsize + size)), c := ToTopMap(s.c, p, top));
    GiveTopCore(s2, s', p, p0);
    FreedTop(s0, s2, s', p0, p, top, dv, dvsize, top, topsize, if p == dv then 0 else dv, if p == dv then 0 else dvsize, topsize + size);
  }

  lemma ReleasedToVictim(s0: State, s: State, p0: int, p: int, size: int, dv: int, dvsize: int, top: int, topsize: int)
    requires Halfway(s0, s, p0, p, size, dv, dvsize, top, topsize) && p + size == dv
    ensures p in s.c && dv in s.c && p + s.c[p].size in s.c
    ensures var s' := s.(mem := SetFreeTags(s.mem, p, dvsize + size), c := ToFreeMap(s.c, p, dv, Victim));
            Core(s', NOBODY) && TakenBack(s0, s', p0) && PointersOk(s', p, dvsize + size, top, topsize)
  {
    hide Core, Undisturbed, SameElsewhere, PointersOk, JoinMap, SealMap, SetFreeTags, OnlyBinWords;
    AboveTests(s0, s, p0, p, size, dv, dvsize, top, topsize);
    FreeAbove(s0, s, s, p0, p, size, NOBODY);
    var s2 := s.(c := JoinMap(s.c, p, dv));
    var s' := s.(mem := SetFreeTags(s.mem, p, dvsize + size), c := ToFreeMap(s.c, p, dv, Victim));
    GiveJoined(s0, s2, s', p0, p, dv, Victim);
    FreedPointers(s0, s', p0, p, dv, dv, dvsize, top, topsize, p, dvsize + size, top, topsize);
  }

  /** The chunk n above has been unlinked: s1 is the state after that. */
  lemma ReleasedJoined(s0: State, s: State, s1: State, p0: int, p: int, size: int, n: int, nsize: int, st: Status,
                       pinning: bool, dv: int, dvsize: int, top: int, topsize: int)
    requires Halfway(s0, s, p0, p, size, dv, dvsize, top, topsize) && n == p + size && s.c[n].st == Binned && nsize == s.c[n].size
    requires s1.c == s.c && s1.segs == s.segs && Core(s1, n) && OnlyBinWords(s.c, s.mem, s1.mem)
    requires st == (if p == dv then Victim else Binned)
    ensures p in s1.c && n in s1.c && p + s1.c[p].size in s1.c
    ensures var e := p + size + nsize;
            var s' := s1.(mem := if pinning then SetFreeWithPInUse(s1.mem, p, size + nsize, e) else SetFreeTags(s1.mem, p, size + nsize),
                          c := ToFreeMap(s1.c, p, n, st));
            && p in s'.c && s'.c[p].st == st && s'.c[p].size == size + nsize
            && (st == Victim ==> Core(s', NOBODY) && TakenBack(s0, s', p0) && PointersOk(s', p, size + nsize, top, topsize))
            && (st == Binned ==> Binnable(s0, s', p0, p, n, dv, dvsize, top, topsize))
  {
    hide Core, Undisturbed, SameElsewhere, PointersOk, JoinMap, SealMap, SetFreeTags, OnlyBinWords;
    AboveTests(s0, s, p0, p, size, dv, dvsize, top, topsize);
    FreeAbove(s0, s, s1, p0, p, size, n);
    var s2 := s1.(c := JoinMap(s1.c, p, n));
    var s' := s1.(mem := if pinning then SetFreeWithPInUse(s1.mem, p, size + nsize, p + size + nsize)
                         else SetFreeTags(s1.mem, p, size + nsize),
                  c := ToFreeMap(s1.c, p, n, st));
    GiveJoined(s0, s2, s', p0, p, n, st);
    if st == Victim {
      FreedPointers(s0, s', p0, p, n, dv, dvsize, top, topsize, p, size + nsize, top, topsize);
    }
  }

  /** p is free and all that is left to do is to put it in its bin. */
  ghost predicate Binnable(s0: State, s: State, p0: int, p: int, q: int, dv: int, dvsize: int, top: int, topsize: int) {
    && PointersOk(s0, dv, dvsize, top, topsize) && IsLive(s0.c, p0) && s.segs == s0.segs
    && Core(s, p) && SameElsewhere(s0.c, s.c, {p0, p, q}) && Undisturbed(s0, s, p0)
    && (q == p || q !in s.c) && (p0 == p || p0 !in s.c) && p in s.c && s.c[p].st == Binned && 0 < s.c[p].size
    && dv !in {p, q} && top !in {p, q}
  }

  lemma ReleasedBelowUsed(s0: State, s: State, p0: int, p: int, size: int, st: Status, dv: int, dvsize: int, top: int, topsize: int)
    requires Halfway(s0, s, p0, p, size, dv, dvsize, top, topsize) && s.c[p + size].st in {Used, Record}
    requires st == (if p == dv then Victim else Binned)
    ensures p in s.c
    ensures var s' := s.(mem := SetFreeWithPInUse(s.mem, p, size, p + size), c := SealMap(s.c, p, st));
            && p in s'.c && s'.c[p].st == st && s'.c[p].size == size
            && (st == Victim ==> Core(s', NOBODY) && TakenBack(s0, s', p0) && PointersOk(s', p, size, top, topsize))
            && (st == Binned ==> Binnable(s0, s', p0, p, p, dv, dvsize, top, topsize))
  {
    hide Core, Undisturbed, SameElsewhere, PointersOk, SealMap, SetFreeWithPInUse;
    AboveTests(s0, s, p0, p, size, dv, dvsize, top, topsize);
    var s' := s.(mem := SetFreeWithPInUse(s.mem, p, size, p + size), c := SealMap(s.c, p, st));
    GiveBelowUsed(s0, s, s', p0, p, size, st);
    if st == Victim {
      FreedPointers(s0, s', p0, p, p, dv, dvsize, top, topsize, p, size, top, topsize);
    }
  }

  lemma FreedBinned(s0: State, s: State, s': State, p0: int, p: int, q: int, dv: int, dvsize: int, top: int, topsize: int)
    requires Binnable(s0, s, p0, p, q, dv, dvsize, top, topsize)
    requires s'.segs == s0.segs && s'.c == s.c && OnlyBinWords(s.c, s.mem, s'.mem)
    ensures PointersOk(s', dv, dvsize, top, topsize) && TakenBack(s0, s', p0)
  {
    hide Undisturbed, OnlyBinWords;
    BinStepUsers(s, s', p0);
    UndisturbedTrans(s0, s, s', p0);
    FreedPointers(s0, s', p0, p, q, dv, dvsize, top, topsize, dv, dvsize, top, topsize);
  }
}
