/** The steps of allocation and release on boundary tags: carving a request out of a free
    chunk, giving a chunk back, and mapping new memory. Each step says which chunks it
    changes and keeps every word that any other chunk's client or bin list uses. */
module HeapOps {
  import opened Words
  import opened Chunks

  // ---------- what a step leaves alone ----------

  predicate SameAt(c: ChunkMap, c': ChunkMap, q: int) {
    (q in c <==> q in c')
    && (q in c && q in c' ==> c'[q].st == c[q].st && c'[q].size == c[q].size && c'[q].sid == c[q].sid)
  }

  /** Outside touched the chunks are the same, up to their pin bits. */
  ghost predicate SameElsewhere(c: ChunkMap, c': ChunkMap, touched: set<int>) {
    forall q {:trigger SameAt(c, c', q)} :: q !in touched ==> SameAt(c, c', q)
  }

  predicate Claim(c: ChunkMap, q: int, a: int) {
    PayloadWord(c, q, a) || LinkWord(c, q, a)
  }

  /** The static data, and the words claimed by chunks outside touched, keep their contents. */
  ghost predicate ClaimsKept(c: ChunkMap, mem: Mem, mem': Mem, touched: set<int>) {
    && (forall a {:trigger Rd(mem', a)} :: a < LOW ==> Rd(mem', a) == Rd(mem, a))
    && (forall q, a {:trigger Claim(c, q, a)} :: q !in touched && Claim(c, q, a) ==> Rd(mem', a) == Rd(mem, a))
  }

  lemma ClaimsChain(c: ChunkMap, c1: ChunkMap, m0: Mem, m1: Mem, m2: Mem, touched: set<int>)
    requires ClaimsKept(c, m0, m1, touched) && ClaimsKept(c1, m1, m2, {}) && SameElsewhere(c, c1, touched)
    ensures ClaimsKept(c, m0, m2, touched)
  {
    forall q, a | q !in touched && Claim(c, q, a)
      ensures Rd(m2, a) == Rd(m0, a)
    {
      assert SameAt(c, c1, q) && Claim(c1, q, a);
    }
  }

  lemma SameChain(c: ChunkMap, c1: ChunkMap, c2: ChunkMap, s1: set<int>, s2: set<int>)
    requires SameElsewhere(c, c1, s1) && SameElsewhere(c1, c2, s2)
    ensures SameElsewhere(c, c2, s1 + s2)
  {
    forall q | q !in s1 + s2
      ensures SameAt(c, c2, q)
    {
      assert SameAt(c, c1, q) && SameAt(c1, c2, q);
    }
  }

  lemma SealSame(c: ChunkMap, p: int, st: Status)
    requires p in c
    ensures SameElsewhere(c, SealMap(c, p, st), {p})
    ensures var c' := SealMap(c, p, st); p in c' && c'[p].st == st && c'[p].size == c[p].size && c'[p].sid == c[p].sid
    ensures var c' := SealMap(c, p, st); c'[p].pin == c[p].pin || c[p].size == 0
  {
  }

  lemma SealClaims(mem: Mem, mem': Mem, c: ChunkMap, segs: seq<Segment>, p: int, st: Status)
    requires Tiled(c, segs) && CanSeal(c, p, st) && SealedBy(mem, mem', c, p, st)
    ensures ClaimsKept(c, mem, mem', {})
  {
    var n := p + c[p].size;
    assert NextOk(c, p) && ShapeOk(c, segs, p);
    AboveLow(c, segs, p);
    forall q, a | Claim(c, q, a)
      ensures Rd(mem', a) == Rd(mem, a)
    {
      NotClaimed(c, segs, p, p + HEAD, q);
      NotClaimed(c, segs, n, n + HEAD, q);
      NotClaimed(c, segs, p, n, q);
    }
  }

  // ---------- carving ----------

  /** head of a chunk in use whose lower neighbour is in use: s|PINUSE_BIT|CINUSE_BIT */
  function BothInUse(s: int): int {
    s + 3
  }

  /** head of a free chunk whose lower neighbour is in use: s|PINUSE_BIT */
  function FreeHead(s: int): int {
    s + 1
  }

  function WholeMap(c: ChunkMap, v: int): ChunkMap
    requires v in c
  {
    SealMap(SetStatus(c, v, Held), v, Used)
  }

  /** set_inuse_and_pinuse: the whole free chunk v is handed out. */
  lemma CarveWhole(mem: Mem, mem': Mem, c: ChunkMap, segs: seq<Segment>, v: int)
    requires Tiled(c, segs) && Tagged(mem, c, segs) && v in c && (c[v].st == Binned || c[v].st == Victim)
    requires var n := v + c[v].size;
             mem' == Wr(Wr(mem, v + HEAD, BothInUse(c[v].size)), n + HEAD, SetPInUse(Rd(mem, n + HEAD)))
    ensures var c' := WholeMap(c, v);
            && Tiled(c', segs) && Tagged(mem', c', segs)
            && SameElsewhere(c, c', {v}) && ClaimsKept(c, mem, mem', {v})
            && v in c' && c'[v].st == Used && c'[v].size == c[v].size && c'[v].sid == c[v].sid
  {
    hide Rd, Wr;
    var n := v + c[v].size;
    var c1 := SetStatus(c, v, Held);
    Hold(mem, c, segs, v);
    assert ShapeOk(c, segs, v) && NextOk(c, v) && ShapeOk(c, segs, n) && TagOk(mem, c, segs, n);
    Decode(c[n]);
    assert SealedBy(mem, mem', c1, v, Used);
    Seal(mem, mem', c1, segs, v, Used);
    SealSame(c1, v, Used);
    SealClaims(mem, mem', c1, segs, v, Used);
    assert ClaimsKept(c, mem, mem, {v});
    ClaimsChain(c, c1, mem, mem, mem', {v});
    SameChain(c, c1, WholeMap(c, v), {v}, {v});
    assert {v} + {v} == {v};
  }

  lemma SplitSame(c: ChunkMap, p: int, n: int)
    requires p in c && p + n !in c && 0 < n < c[p].size
    ensures SameElsewhere(c, SplitMap(c, p, n), {p, p + n})
  {
  }

  function SplitOffMap(c: ChunkMap, v: int, nb: int): ChunkMap
    requires v in c && nb > 0
  {
    SealMap(SplitMap(SetStatus(c, v, if Topmost(c[v]) then HeldTop else Held), v, nb), v, Used)
  }

  /** The lower part of a held chunk becomes used; the upper part is held, with its pin bit set. */
  lemma SplitHeld(mem: Mem, m1: Mem, h: ChunkMap, segs: seq<Segment>, v: int, nb: int)
    requires Tiled(h, segs) && Tagged(mem, h, segs) && CanSplit(h, segs, v, nb) && h[v].pin
    requires m1 == Wr(mem, v + HEAD, BothInUse(nb))
    ensures v + nb !in h && v in SplitMap(h, v, nb)
    ensures var c1 := SealMap(SplitMap(h, v, nb), v, Used);
            && Tiled(c1, segs) && Tagged(m1, c1, segs)
            && SameElsewhere(h, c1, {v, v + nb}) && ClaimsKept(h, mem, m1, {v, v + nb})
            && v in c1 && c1[v].st == Used && c1[v].size == nb && c1[v].sid == h[v].sid
            && v + nb in c1 && c1[v + nb].size == h[v].size - nb && c1[v + nb].pin && c1[v + nb].sid == h[v].sid
            && c1[v + nb].st == h[v].st
  {
    hide Rd, Wr, ChunksApart, TagOk, EndsOk, SegmentOk;
    Split(mem, h, segs, v, nb);
    var s := SplitMap(h, v, nb);
    assert ShapeOk(h, segs, v);
    assert CanSeal(s, v, Used) && SealedBy(mem, m1, s, v, Used);
    Seal(mem, m1, s, segs, v, Used);
    SplitSame(h, v, nb);
    SealSame(s, v, Used);
    SealClaims(mem, m1, s, segs, v, Used);
    SameChain(h, s, SealMap(s, v, Used), {v, v + nb}, {v});
    assert {v, v + nb} + {v} == {v, v + nb};
    assert ClaimsKept(h, mem, mem, {v, v + nb});
    ClaimsChain(h, s, mem, mem, m1, {v, v + nb});
  }

  /** The lower part of a free chunk becomes used; the upper part is held, with its pin bit set. */
  lemma SplitOff(mem: Mem, m1: Mem, c: ChunkMap, segs: seq<Segment>, v: int, nb: int)
    requires Tiled(c, segs) && Tagged(mem, c, segs) && v in c && c[v].st in {Binned, Victim, Top}
    requires nb % 8 == 0 && MIN_CHUNK_SIZE <= nb
    requires nb + (if c[v].st == Top then 8 else MIN_CHUNK_SIZE) <= c[v].size
    requires m1 == Wr(mem, v + HEAD, BothInUse(nb))
    ensures var c1 := SplitOffMap(c, v, nb);
            && Tiled(c1, segs) && Tagged(m1, c1, segs)
            && SameElsewhere(c, c1, {v, v + nb}) && ClaimsKept(c, mem, m1, {v, v + nb})
            && v in c1 && c1[v].st == Used && c1[v].size == nb && c1[v].sid == c[v].sid
            && v + nb in c1 && v + nb !in c && c1[v + nb].size == c[v].size - nb && c1[v + nb].pin && c1[v + nb].sid == c[v].sid
            && c1[v + nb].st == (if c[v].st == Top then HeldTop else Held)
  {
    hide Rd, Wr, ChunksApart, TagOk, EndsOk, SegmentOk, SplitMap, SealMap;
    var h := SetStatus(c, v, if Topmost(c[v]) then HeldTop else Held);
    Hold(mem, c, segs, v);
    assert ShapeOk(c, segs, v);
    SplitHeld(mem, m1, h, segs, v, nb);
    SplitOffSame(c, v, nb);
    assert SameElsewhere(c, h, {v, v + nb});
    HeldClaims(mem, m1, c, h, v, nb);
  }

  /** Claims of other chunks do not depend on v being held. */
  lemma HeldClaims(mem: Mem, m1: Mem, c: ChunkMap, h: ChunkMap, v: int, nb: int)
    requires SameElsewhere(c, h, {v, v + nb}) && ClaimsKept(h, mem, m1, {v, v + nb})
    ensures ClaimsKept(c, mem, m1, {v, v + nb})
  {
    forall q, a | q !in {v, v + nb} && Claim(c, q, a)
      ensures Rd(m1, a) == Rd(mem, a)
    {
      assert SameAt(c, h, q) && Claim(h, q, a);
    }
  }

  lemma SplitOffSame(c: ChunkMap, v: int, nb: int)
    requires v in c && v + nb !in c && 0 < nb < c[v].size
    ensures var h := SetStatus(c, v, if Topmost(c[v]) then HeldTop else Held);
            && SameElsewhere(c, SplitMap(h, v, nb), {v, v + nb})
            && SameElsewhere(c, SplitOffMap(c, v, nb), {v, v + nb})
  {
    var h := SetStatus(c, v, if Topmost(c[v]) then HeldTop else Held);
    var s := SplitMap(h, v, nb);
    SplitSame(h, v, nb);
    SameChain(c, h, s, {v}, {v, v + nb});
    assert {v} + {v, v + nb} == {v, v + nb};
    SealSame(s, v, Used);
    SameChain(c, s, SplitOffMap(c, v, nb), {v, v + nb}, {v});
    assert {v, v + nb} + {v} == {v, v + nb};
  }

  /** A held chunk becomes free: its head, its foot, and the pin bit above it. */
  lemma GiveFree(mem: Mem, mem': Mem, c: ChunkMap, segs: seq<Segment>, p: int, st: Status)
    requires Tiled(c, segs) && Tagged(mem, c, segs) && p in c && c[p].st == Held && c[p].pin
    requires st == Binned || st == Victim
    requires var n := p + c[p].size;
             && (n in c ==> InUse(c[n]) || Loose(c[n]))
             && Rd(mem', p + HEAD) == FreeHead(c[p].size) && Rd(mem', n) == c[p].size
             && (n in c && !Loose(c[n]) ==> Rd(mem', n + HEAD) == ClearPInUse(Rd(mem, n + HEAD)))
             && (forall a {:trigger Rd(mem', a)} :: a == p + HEAD || a == n || a == n + HEAD || Rd(mem', a) == Rd(mem, a))
    ensures var c' := SealMap(c, p, st);
            && Tiled(c', segs) && Tagged(mem', c', segs)
            && SameElsewhere(c, c', {p}) && ClaimsKept(c, mem, mem', {p})
            && p in c' && c'[p].st == st && c'[p].size == c[p].size && c'[p].sid == c[p].sid
  {
    hide Rd;
    var n := p + c[p].size;
    assert ShapeOk(c, segs, p) && NextOk(c, p) && ShapeOk(c, segs, n) && TagOk(mem, c, segs, n);
    Decode(c[n]);
    assert CanSeal(c, p, st) && SealedBy(mem, mem', c, p, st);
    Seal(mem, mem', c, segs, p, st);
    SealSame(c, p, st);
    SealClaims(mem, mem', c, segs, p, st);
  }

  /** The top chunk, held, gets its head. */
  lemma GiveTop(mem: Mem, mem': Mem, c: ChunkMap, segs: seq<Segment>, p: int)
    requires Tiled(c, segs) && Tagged(mem, c, segs) && p in c && c[p].st == HeldTop && c[p].pin
    requires mem' == Wr(mem, p + HEAD, FreeHead(c[p].size))
    ensures var c' := SetStatus(c, p, Top);
            && Tiled(c', segs) && Tagged(mem', c', segs)
            && SameElsewhere(c, c', {p}) && ClaimsKept(c, mem, mem', {p})
  {
    hide Rd, Wr;
    SealTop(mem, mem', c, segs, p);
    AboveLow(c, segs, p);
    forall q, a | q != p && Claim(c, q, a)
      ensures Rd(mem', a) == Rd(mem, a)
    {
      NotClaimed(c, segs, p, p + HEAD, q);
    }
  }

  function CarvedMap(c: ChunkMap, v: int, nb: int, st: Status): ChunkMap
    requires v in c && nb > 0
  {
    SealMap(SplitOffMap(c, v, nb), v + nb, st)
  }

  /** Splitting a free chunk: the lower part is handed out, the rest becomes free as st. */
  lemma CarveSplit(mem: Mem, mem': Mem, c: ChunkMap, segs: seq<Segment>, v: int, nb: int, st: Status)
    requires Tiled(c, segs) && Tagged(mem, c, segs) && v in c && (c[v].st == Binned || c[v].st == Victim)
    requires nb % 8 == 0 && MIN_CHUNK_SIZE <= nb && nb + MIN_CHUNK_SIZE <= c[v].size
    requires st == Binned || st == Victim
    requires var r, rs := v + nb, c[v].size - nb;
             && Rd(mem', v + HEAD) == BothInUse(nb) && Rd(mem', r + HEAD) == FreeHead(rs) && Rd(mem', r + rs) == rs
             && (forall a {:trigger Rd(mem', a)} :: a == v + HEAD || a == r + HEAD || a == r + rs || Rd(mem', a) == Rd(mem, a))
    ensures var c' := CarvedMap(c, v, nb, st);
            && Tiled(c', segs) && Tagged(mem', c', segs)
            && SameElsewhere(c, c', {v, v + nb}) && ClaimsKept(c, mem, mem', {v, v + nb})
            && v in c' && c'[v].st == Used && c'[v].size == nb && c'[v].sid == c[v].sid
            && v + nb in c' && v + nb !in c && c'[v + nb].st == st && c'[v + nb].size == c[v].size - nb
            && c'[v + nb].sid == c[v].sid
  {
    hide Rd, Wr, SplitOffMap, ChunksApart, EndsOk, SegmentOk;
    var m1 := Wr(mem, v + HEAD, BothInUse(nb));
    var c1 := SplitOffMap(c, v, nb);
    var r, rs := v + nb, c[v].size - nb;
    var n := r + rs;
    SplitOff(mem, m1, c, segs, v, nb);
    assert ShapeOk(c, segs, v) && NextOk(c, v) && PrevOk(c, segs, n) && ShapeOk(c, segs, n) && TagOk(mem, c, segs, n);
    assert SameAt(c, c1, n);
    assert NextOk(c1, r) && ShapeOk(c1, segs, n) && TagOk(m1, c1, segs, n) && PrevOk(c1, segs, n);
    Decode(c[n]);
    assert !c[n].pin && c[n].(pin := false) == c[n];
    assert Rd(mem', n + HEAD) == Rd(mem, n + HEAD) == Rd(m1, n + HEAD);
    GiveFree(m1, mem', c1, segs, r, st);
    var c' := SealMap(c1, r, st);
    SameChain(c, c1, c', {v, r}, {r});
    assert {v, r} + {r} == {v, r};
    assert SameAt(c1, c', v);
    AllClaims(m1, mem', c1, segs, r, st);
    ClaimsChain(c, c1, mem, m1, mem', {v, r});
  }

  /** A held chunk has no claims, so giving it back keeps all of them. */
  lemma AllClaims(mem: Mem, mem': Mem, c: ChunkMap, segs: seq<Segment>, p: int, st: Status)
    requires p in c && Loose(c[p]) && ClaimsKept(c, mem, mem', {p})
    ensures ClaimsKept(c, mem, mem', {})
  {
  }

  function CarvedTopMap(c: ChunkMap, v: int, nb: int): ChunkMap
    requires v in c && nb > 0
  {
    SetStatus(SplitOffMap(c, v, nb), v + nb, Top)
  }

  /** Splitting the top chunk: the lower part is handed out and the rest remains the top. */
  lemma CarveTop(mem: Mem, mem': Mem, c: ChunkMap, segs: seq<Segment>, p: int, nb: int)
    requires Tiled(c, segs) && Tagged(mem, c, segs) && p in c && c[p].st == Top
    requires nb % 8 == 0 && MIN_CHUNK_SIZE <= nb && nb < c[p].size
    requires || mem' == Wr(Wr(mem, p + HEAD, BothInUse(nb)), p + nb + HEAD, FreeHead(c[p].size - nb))
             || mem' == Wr(Wr(mem, p + nb + HEAD, FreeHead(c[p].size - nb)), p + HEAD, BothInUse(nb))
    ensures var c' := CarvedTopMap(c, p, nb);
            && Tiled(c', segs) && Tagged(mem', c', segs)
            && SameElsewhere(c, c', {p, p + nb}) && ClaimsKept(c, mem, mem', {p, p + nb})
            && p in c' && c'[p].st == Used && c'[p].size == nb && c'[p].sid == c[p].sid
            && p + nb in c' && p + nb !in c && c'[p + nb].st == Top && c'[p + nb].size == c[p].size - nb
            && c'[p + nb].sid == c[p].sid
  {
    hide Rd, Wr, SplitOffMap, ChunksApart, TagOk, EndsOk, SegmentOk;
    var m1 := Wr(mem, p + HEAD, BothInUse(nb));
    var c1 := SplitOffMap(c, p, nb);
    var r := p + nb;
    assert ShapeOk(c, segs, p);
    Multiples(c[p].size, nb);
    SplitOff(mem, m1, c, segs, p, nb);
    WrCommute(mem, p + HEAD, BothInUse(nb), r + HEAD, FreeHead(c[p].size - nb));
    GiveTop(m1, mem', c1, segs, r);
    var c' := SetStatus(c1, r, Top);
    SameChain(c, c1, c', {p, r}, {r});
    assert {p, r} + {r} == {p, r};
    assert SameAt(c1, c', p);
    AllClaims(m1, mem', c1, segs, r, Top);
    ClaimsChain(c, c1, mem, m1, mem', {p, r});
  }

  // ---------- joining ----------

  lemma MergeSame(c: ChunkMap, p: int)
    requires p in c && p + c[p].size in c && 0 < c[p].size && 0 < c[p + c[p].size].size
    ensures SameElsewhere(c, MergeMap(c, p), {p, p + c[p].size})
    ensures var c' := MergeMap(c, p); p in c' && p + c[p].size !in c' && c'[p].sid == c[p].sid && c'[p].pin == c[p].pin
    ensures var c' := MergeMap(c, p); c'[p].size == c[p].size + c[p + c[p].size].size && c'[p].st == c[p + c[p].size].st
  {
  }
}
