/** Boundary tags. The ghost map of chunks says how the memory of every segment is cut into
    chunks; the invariants tie it to the header and footer words.

    All quantified invariants are stated through a predicate about one chunk (or one pair),
    which is also their only trigger. */
module Chunks {
  import opened Words

  /** What a chunk is used for. Held and HeldTop are chunks that an operation has taken out
      of all lists and whose tags it has not written yet. */
  datatype Status = Used | Record | Binned | Victim | Top | Held | HeldTop

  /** size in bytes; pin: the PINUSE bit; prev: the chunk just below, or NONE; sid: the segment */
  datatype Chunk = Chunk(size: int, st: Status, pin: bool, prev: int, sid: int)

  const NONE: int := -1

  /** A mapped region: offset leads from its writable to its executable addresses, and
      rec is the address of the record that describes it. */
  datatype Segment = Segment(base: int, size: int, offset: int, rec: int) {
    function End(): int {
      base + size
    }
  }

  type ChunkMap = map<int, Chunk>

  predicate InUse(k: Chunk) {
    k.st == Used || k.st == Record
  }

  predicate Topmost(k: Chunk) {
    k.st == Top || k.st == HeldTop
  }

  predicate Loose(k: Chunk) {
    k.st == Held || k.st == HeldTop
  }

  /** The head word of a chunk. */
  function Enc(k: Chunk): int {
    k.size + (if k.pin then 1 else 0) + (if InUse(k) then 2 else 0)
  }

  // Reading head words.
  function ChunkSize(head: int): int {
    head / 4 * 4
  }

  predicate PInUse(head: int) {
    head % 2 == 1
  }

  predicate CInUse(head: int) {
    head / 2 % 2 == 1
  }

  function SetPInUse(head: int): int {
    head / 2 * 2 + 1
  }

  function ClearPInUse(head: int): int {
    head / 2 * 2
  }

  lemma Decode(k: Chunk)
    requires k.size % 8 == 0
    ensures ChunkSize(Enc(k)) == k.size
    ensures PInUse(Enc(k)) <==> k.pin
    ensures CInUse(Enc(k)) <==> InUse(k)
    ensures SetPInUse(Enc(k)) == Enc(k.(pin := true))
    ensures ClearPInUse(Enc(k)) == Enc(k.(pin := false))
  {
    var m := k.size / 8;
    assert k.size == 8 * m;
    DecodeWord(m, if k.pin then 1 else 0, if InUse(k) then 1 else 0);
  }

  lemma DecodeWord(m: int, pin: int, cin: int)
    requires 0 <= pin <= 1 && 0 <= cin <= 1
    ensures var h := 8 * m + pin + 2 * cin;
            && h / 4 * 4 == 8 * m && h % 2 == pin && h / 2 % 2 == cin
            && h / 2 * 2 == 8 * m + 2 * cin
  {
    var h := 8 * m + pin + 2 * cin;
    Half(h, 4 * m + cin, pin);
    Half(4 * m + cin, 2 * m, cin);
    Quarter(h, 2 * m, pin + 2 * cin);
  }

  lemma Half(h: int, q: int, r: int)
    requires h == 2 * q + r && 0 <= r < 2
    ensures h / 2 == q && h % 2 == r
  {
  }

  lemma Quarter(h: int, q: int, r: int)
    requires h == 4 * q + r && 0 <= r < 4
    ensures h / 4 == q
  {
  }

  lemma Multiples(a: int, b: int)
    requires a % 8 == 0 && b % 8 == 0
    ensures (a + b) % 8 == 0 && (a - b) % 8 == 0
  {
  }

  // ---------- tiling ----------

  predicate SegmentOk(segs: seq<Segment>, i: int) {
    0 <= i < |segs| ==>
      var s := segs[i];
      && LOW <= s.base && s.base % 8 == 0 && s.size % 8 == 0
      && TOP_FOOT_SIZE < s.size && s.End() < U64
      && (i == |segs| - 1 ==> s.rec == SEG_HEAD)
  }

  predicate SegmentsApart(segs: seq<Segment>, i: int, j: int) {
    0 <= i < |segs| && 0 <= j < |segs| && i != j ==>
      segs[i].End() <= segs[j].base || segs[j].End() <= segs[i].base
  }

  function SegEnd(segs: seq<Segment>, i: int): int {
    if 0 <= i < |segs| then segs[i].End() else 0
  }

  /** The bytes a chunk accounts for; the last chunk of a segment also owns what follows it. */
  function Extent(c: ChunkMap, segs: seq<Segment>, p: int): int
    requires p in c
  {
    if Topmost(c[p]) || c[p].st == Record then SegEnd(segs, c[p].sid) - p else c[p].size
  }

  predicate ChunksApart(c: ChunkMap, segs: seq<Segment>, p: int, q: int) {
    p in c && q in c && p < q ==> p + Extent(c, segs, p) <= q
  }

  /** The shape of one chunk. A free chunk has its pin bit set, so no free chunk follows another. */
  predicate ShapeOk(c: ChunkMap, segs: seq<Segment>, p: int) {
    p in c ==>
      var k := c[p];
      && 0 <= k.sid < |segs|
      && p % 8 == 0 && k.size % 8 == 0
      && segs[k.sid].base <= p
      && (k.st == Binned || k.st == Victim || k.st == Top ==> k.pin)
      && (if Topmost(k) then
            k.sid == |segs| - 1 && 8 <= k.size && p + k.size + TOP_FOOT_SIZE == segs[k.sid].End()
          else if k.st == Record then
            k.sid < |segs| - 1 && k.size == SEGMENT_SIZE && segs[k.sid].rec == p + 16
            && p + 72 <= segs[k.sid].End() <= p + 96
          else
            MIN_CHUNK_SIZE <= k.size)
  }

  /** A chunk that does not end its segment borders the chunk above it. */
  predicate NextOk(c: ChunkMap, p: int) {
    p in c && !Topmost(c[p]) && c[p].st != Record ==>
      p + c[p].size in c && c[p + c[p].size].prev == p && c[p + c[p].size].sid == c[p].sid
  }

  /** A chunk that does not start its segment borders the chunk below it, and its pin bit
      says whether that one is in use. */
  predicate PrevOk(c: ChunkMap, segs: seq<Segment>, p: int) {
    p in c ==>
      var k := c[p];
      if k.prev == NONE then
        0 <= k.sid < |segs| && p == segs[k.sid].base && k.pin
      else
        && k.prev in c && k.prev + c[k.prev].size == p
        && !Topmost(c[k.prev]) && c[k.prev].st != Record
        && (c[k.prev].st != Held ==> k.pin == InUse(c[k.prev]))
  }

  /** Every segment starts with a chunk, and ends with its record unless it is the top one. */
  predicate EndsOk(c: ChunkMap, segs: seq<Segment>, i: int) {
    0 <= i < |segs| ==>
      && segs[i].base in c && c[segs[i].base].sid == i && c[segs[i].base].prev == NONE
      && (i < |segs| - 1 ==> segs[i].rec - 16 in c && c[segs[i].rec - 16].st == Record && c[segs[i].rec - 16].sid == i)
  }

  ghost predicate Tiled(c: ChunkMap, segs: seq<Segment>) {
    && (forall i {:trigger SegmentOk(segs, i)} :: SegmentOk(segs, i))
    && (forall i, j {:trigger SegmentsApart(segs, i, j)} :: SegmentsApart(segs, i, j))
    && (forall p {:trigger ShapeOk(c, segs, p)} :: ShapeOk(c, segs, p))
    && (forall p {:trigger NextOk(c, p)} :: NextOk(c, p))
    && (forall p {:trigger PrevOk(c, segs, p)} :: PrevOk(c, segs, p))
    && (forall p, q {:trigger ChunksApart(c, segs, p, q)} :: ChunksApart(c, segs, p, q))
    && (forall i {:trigger EndsOk(c, segs, i)} :: EndsOk(c, segs, i))
  }

  // ---------- tags ----------

  predicate TagOk(mem: Mem, c: ChunkMap, segs: seq<Segment>, p: int) {
    p in c ==>
      var k := c[p];
      && (!Loose(k) ==> Rd(mem, p + HEAD) == Enc(k))
      && (k.st == Binned || k.st == Victim ==> Rd(mem, p + k.size) == k.size)
      && (Topmost(k) ==> Rd(mem, p + k.size + HEAD) == TOP_FOOT_SIZE)
      && (k.st == Record ==> Rd(mem, p + SEGMENT_SIZE + HEAD) == FENCEPOST_HEAD)
  }

  ghost predicate Tagged(mem: Mem, c: ChunkMap, segs: seq<Segment>) {
    forall p {:trigger TagOk(mem, c, segs, p)} :: TagOk(mem, c, segs, p)
  }

  // ---------- taking and giving chunks, without touching memory ----------

  function SetStatus(c: ChunkMap, p: int, st: Status): ChunkMap
    requires p in c
  {
    c[p := c[p].(st := st)]
  }

  /** Taking an ordinary or top chunk out of circulation leaves tiling and tags as they are. */
  lemma Hold(mem: Mem, c: ChunkMap, segs: seq<Segment>, p: int)
    requires Tiled(c, segs) && Tagged(mem, c, segs)
    requires p in c && c[p].st != Record
    ensures var c' := SetStatus(c, p, if Topmost(c[p]) then HeldTop else Held);
            Tiled(c', segs) && Tagged(mem, c', segs)
  {
    var c' := SetStatus(c, p, if Topmost(c[p]) then HeldTop else Held);
    forall q
      ensures ShapeOk(c', segs, q)
    {
      assert ShapeOk(c, segs, q);
    }
    forall q
      ensures NextOk(c', q)
    {
      assert NextOk(c, q);
    }
    forall q
      ensures PrevOk(c', segs, q)
    {
      assert PrevOk(c, segs, q);
    }
    forall q
      ensures TagOk(mem, c', segs, q)
    {
      assert TagOk(mem, c, segs, q);
    }
    forall q, r
      ensures ChunksApart(c', segs, q, r)
    {
      assert ChunksApart(c, segs, q, r);
    }
    forall i
      ensures EndsOk(c', segs, i)
    {
      assert EndsOk(c, segs, i);
    }
  }

  /** Cutting a held chunk in two; the upper part keeps its status. */
  function SplitMap(c: ChunkMap, p: int, n: int): ChunkMap
    requires p in c
  {
    var k := c[p];
    var r := p + n;
    var c1 := c[p := k.(size := n, st := Held)][r := Chunk(k.size - n, k.st, true, p, k.sid)];
    if k.st == HeldTop || p + k.size !in c then c1 else c1[p + k.size := c[p + k.size].(prev := r)]
  }

  ghost predicate CanSplit(c: ChunkMap, segs: seq<Segment>, p: int, n: int) {
    && p in c && Loose(c[p])
    && n % 8 == 0 && MIN_CHUNK_SIZE <= n
    && n + (if c[p].st == Held then MIN_CHUNK_SIZE else 8) <= c[p].size
  }

  lemma SplitFresh(c: ChunkMap, segs: seq<Segment>, p: int, n: int)
    requires Tiled(c, segs) && CanSplit(c, segs, p, n)
    ensures p + n !in c
  {
    assert ShapeOk(c, segs, p) && ChunksApart(c, segs, p, p + n);
  }

  /** Chunks lie above the static data, and so never at NONE. */
  lemma AboveLow(c: ChunkMap, segs: seq<Segment>, p: int)
    requires Tiled(c, segs) && p in c
    ensures LOW <= p
  {
    assert ShapeOk(c, segs, p) && SegmentOk(segs, c[p].sid);
  }

  lemma SplitShape(c: ChunkMap, segs: seq<Segment>, p: int, n: int, q: int)
    requires Tiled(c, segs) && CanSplit(c, segs, p, n)
    ensures ShapeOk(SplitMap(c, p, n), segs, q)
  {
    assert ShapeOk(c, segs, p) && ShapeOk(c, segs, q);
    Multiples(p, n);
    Multiples(c[p].size, n);
  }

  lemma SplitNext(c: ChunkMap, segs: seq<Segment>, p: int, n: int, q: int)
    requires Tiled(c, segs) && CanSplit(c, segs, p, n)
    ensures NextOk(SplitMap(c, p, n), q)
  {
    SplitFresh(c, segs, p, n);
    assert NextOk(c, p) && NextOk(c, q);
    assert p + n + (c[p].size - n) == p + c[p].size;
  }

  lemma SplitPrev(c: ChunkMap, segs: seq<Segment>, p: int, n: int, q: int)
    requires Tiled(c, segs) && CanSplit(c, segs, p, n)
    ensures PrevOk(SplitMap(c, p, n), segs, q)
  {
    SplitFresh(c, segs, p, n);
    AboveLow(c, segs, p);
    assert NextOk(c, p) && PrevOk(c, segs, p) && PrevOk(c, segs, q);
    assert p + n + (c[p].size - n) == p + c[p].size;
  }

  lemma SplitTag(mem: Mem, c: ChunkMap, segs: seq<Segment>, p: int, n: int, q: int)
    requires Tiled(c, segs) && Tagged(mem, c, segs) && CanSplit(c, segs, p, n)
    ensures TagOk(mem, SplitMap(c, p, n), segs, q)
  {
    assert TagOk(mem, c, segs, p) && TagOk(mem, c, segs, q);
    assert p + n + (c[p].size - n) == p + c[p].size;
  }

  lemma SplitApart(c: ChunkMap, segs: seq<Segment>, p: int, n: int, q: int, s: int)
    requires Tiled(c, segs) && CanSplit(c, segs, p, n)
    ensures ChunksApart(SplitMap(c, p, n), segs, q, s)
  {
    assert ChunksApart(c, segs, q, s) && ChunksApart(c, segs, p, s) && ChunksApart(c, segs, q, p);
    assert ChunksApart(c, segs, p, q);
    assert ShapeOk(c, segs, p) && ShapeOk(c, segs, q);
    SplitFresh(c, segs, p, n);
  }

  lemma SplitEnds(c: ChunkMap, segs: seq<Segment>, p: int, n: int, i: int)
    requires Tiled(c, segs) && CanSplit(c, segs, p, n)
    ensures EndsOk(SplitMap(c, p, n), segs, i)
  {
    SplitFresh(c, segs, p, n);
    AboveLow(c, segs, p);
    assert EndsOk(c, segs, i) && NextOk(c, p);
  }

  lemma Split(mem: Mem, c: ChunkMap, segs: seq<Segment>, p: int, n: int)
    requires Tiled(c, segs) && Tagged(mem, c, segs) && CanSplit(c, segs, p, n)
    ensures var c' := SplitMap(c, p, n); Tiled(c', segs) && Tagged(mem, c', segs)
    ensures p + n !in c
  {
    hide ShapeOk, NextOk, PrevOk, TagOk, ChunksApart, EndsOk, SplitMap;
    SplitFresh(c, segs, p, n);
    forall q { SplitShape(c, segs, p, n, q); }
    forall q { SplitNext(c, segs, p, n, q); }
    forall q { SplitPrev(c, segs, p, n, q); }
    forall q { SplitTag(mem, c, segs, p, n, q); }
    forall q, s { SplitApart(c, segs, p, n, q, s); }
    forall i { SplitEnds(c, segs, p, n, i); }
  }

  /** Joining a held chunk with the held chunk above it, which decides the status. */
  function MergeMap(c: ChunkMap, p: int): ChunkMap
    requires p in c && p + c[p].size in c
  {
    var k := c[p];
    var q := p + k.size;
    var c1 := (c - {q})[p := k.(size := k.size + c[q].size, st := c[q].st)];
    var e := q + c[q].size;
    if c[q].st == HeldTop || e !in c then c1 else c1[e := c[e].(prev := p)]
  }

  ghost predicate CanMerge(c: ChunkMap, p: int) {
    p in c && c[p].st == Held && p + c[p].size in c && Loose(c[p + c[p].size])
  }

  lemma MergeShape(c: ChunkMap, segs: seq<Segment>, p: int, x: int)
    requires Tiled(c, segs) && CanMerge(c, p)
    ensures ShapeOk(MergeMap(c, p), segs, x)
  {
    var q := p + c[p].size;
    assert ShapeOk(c, segs, p) && ShapeOk(c, segs, q) && ShapeOk(c, segs, x) && NextOk(c, p);
    Multiples(c[p].size, c[q].size);
  }

  lemma MergeNext(c: ChunkMap, segs: seq<Segment>, p: int, x: int)
    requires Tiled(c, segs) && CanMerge(c, p)
    ensures NextOk(MergeMap(c, p), x)
  {
    var q := p + c[p].size;
    assert ShapeOk(c, segs, p) && ShapeOk(c, segs, q);
    assert NextOk(c, p) && NextOk(c, q) && NextOk(c, x);
    assert p + (c[p].size + c[q].size) == q + c[q].size;
  }

  lemma MergePrev(c: ChunkMap, segs: seq<Segment>, p: int, x: int)
    requires Tiled(c, segs) && CanMerge(c, p)
    ensures PrevOk(MergeMap(c, p), segs, x)
  {
    var q := p + c[p].size;
    assert ShapeOk(c, segs, p) && ShapeOk(c, segs, q);
    AboveLow(c, segs, p);
    assert NextOk(c, p) && NextOk(c, q) && PrevOk(c, segs, p) && PrevOk(c, segs, x);
    assert p + (c[p].size + c[q].size) == q + c[q].size;
  }

  lemma MergeTag(mem: Mem, c: ChunkMap, segs: seq<Segment>, p: int, x: int)
    requires Tiled(c, segs) && Tagged(mem, c, segs) && CanMerge(c, p)
    ensures TagOk(mem, MergeMap(c, p), segs, x)
  {
    var q := p + c[p].size;
    assert TagOk(mem, c, segs, q) && TagOk(mem, c, segs, x);
    assert p + (c[p].size + c[q].size) == q + c[q].size;
  }

  lemma MergeApart(c: ChunkMap, segs: seq<Segment>, p: int, x: int, y: int)
    requires Tiled(c, segs) && CanMerge(c, p)
    ensures ChunksApart(MergeMap(c, p), segs, x, y)
  {
    var q := p + c[p].size;
    assert ChunksApart(c, segs, x, y) && ChunksApart(c, segs, q, y) && ChunksApart(c, segs, p, y);
    assert ShapeOk(c, segs, p) && ShapeOk(c, segs, q) && NextOk(c, p);
  }

  lemma MergeEnds(c: ChunkMap, segs: seq<Segment>, p: int, i: int)
    requires Tiled(c, segs) && CanMerge(c, p)
    ensures EndsOk(MergeMap(c, p), segs, i)
  {
    var q := p + c[p].size;
    assert EndsOk(c, segs, i) && ShapeOk(c, segs, p) && NextOk(c, p) && NextOk(c, q);
  }

  lemma Merge(mem: Mem, c: ChunkMap, segs: seq<Segment>, p: int)
    requires Tiled(c, segs) && Tagged(mem, c, segs) && CanMerge(c, p)
    ensures var c' := MergeMap(c, p); Tiled(c', segs) && Tagged(mem, c', segs)
  {
    hide ShapeOk, NextOk, PrevOk, TagOk, ChunksApart, EndsOk, MergeMap;
    forall q { MergeShape(c, segs, p, q); }
    forall q { MergeNext(c, segs, p, q); }
    forall q { MergePrev(c, segs, p, q); }
    forall q { MergeTag(mem, c, segs, p, q); }
    forall q, s { MergeApart(c, segs, p, q, s); }
    forall i { MergeEnds(c, segs, p, i); }
  }

  // ---------- giving chunks back, writing their tags ----------

  /** Chunks do not overlap: a word at p + HEAD or p + PREV_FOOT belongs to p alone, and a
      chunk is bordered by the next one. */
  lemma Distinct(c: ChunkMap, segs: seq<Segment>, p: int, q: int)
    requires Tiled(c, segs) && p in c && q in c && p != q
    ensures p + Extent(c, segs, p) <= q || q + Extent(c, segs, q) <= p
    ensures Extent(c, segs, p) >= c[p].size >= 8
    ensures Extent(c, segs, q) >= c[q].size >= 8
  {
    assert ChunksApart(c, segs, p, q) && ChunksApart(c, segs, q, p);
    assert ShapeOk(c, segs, p) && ShapeOk(c, segs, q);
  }

  /** The chunk map after the held chunk p becomes st: the pin bit above it follows. */
  function SealMap(c: ChunkMap, p: int, st: Status): ChunkMap
    requires p in c
  {
    var n := p + c[p].size;
    if n in c && n != p then c[p := c[p].(st := st)][n := c[n].(pin := (st == Used))] else c[p := c[p].(st := st)]
  }

  /** mem' differs from mem only in the tags of p, which now say st. */
  ghost predicate SealedBy(mem: Mem, mem': Mem, c: ChunkMap, p: int, st: Status)
    requires p in c
  {
    var n := p + c[p].size;
    && Rd(mem', p + HEAD) == Enc(c[p].(st := st))
    && (st != Used ==> Rd(mem', n) == c[p].size)
    && (n in c && !Loose(c[n]) ==> Rd(mem', n + HEAD) == Enc(c[n].(pin := (st == Used))))
    && (forall a {:trigger Rd(mem', a)} ::
          a != p + HEAD && a != n + HEAD && (st == Used || a != n) ==> Rd(mem', a) == Rd(mem, a))
  }

  /** A held chunk may become used, or free if it is pinned and no free chunk follows. */
  ghost predicate CanSeal(c: ChunkMap, p: int, st: Status) {
    && p in c && c[p].st == Held
    && (st == Used || ((st == Binned || st == Victim) && c[p].pin
        && (p + c[p].size in c ==> c[p + c[p].size].st in {Used, Record, Held, HeldTop})))
  }

  lemma SealShape(c: ChunkMap, segs: seq<Segment>, p: int, st: Status, q: int)
    requires Tiled(c, segs) && CanSeal(c, p, st)
    ensures ShapeOk(SealMap(c, p, st), segs, q)
  {
    assert ShapeOk(c, segs, q);
  }

  lemma SealNext(c: ChunkMap, segs: seq<Segment>, p: int, st: Status, q: int)
    requires Tiled(c, segs) && CanSeal(c, p, st)
    ensures NextOk(SealMap(c, p, st), q)
  {
    assert NextOk(c, q);
  }

  lemma SealPrev(c: ChunkMap, segs: seq<Segment>, p: int, st: Status, q: int)
    requires Tiled(c, segs) && CanSeal(c, p, st)
    ensures PrevOk(SealMap(c, p, st), segs, q)
  {
    AboveLow(c, segs, p);
    assert PrevOk(c, segs, q) && NextOk(c, p) && ShapeOk(c, segs, p);
  }

  lemma SealTag(mem: Mem, mem': Mem, c: ChunkMap, segs: seq<Segment>, p: int, st: Status, q: int)
    requires Tiled(c, segs) && Tagged(mem, c, segs) && CanSeal(c, p, st)
    requires SealedBy(mem, mem', c, p, st)
    ensures TagOk(mem', SealMap(c, p, st), segs, q)
  {
    var n := p + c[p].size;
    assert TagOk(mem, c, segs, q) && NextOk(c, p) && ShapeOk(c, segs, p);
    if q in c && q != p {
      assert ShapeOk(c, segs, q);
      Distinct(c, segs, p, q);
      if q != n { Distinct(c, segs, n, q); }
    }
  }

  lemma SealApart(c: ChunkMap, segs: seq<Segment>, p: int, st: Status, q: int, s: int)
    requires Tiled(c, segs) && CanSeal(c, p, st)
    ensures ChunksApart(SealMap(c, p, st), segs, q, s)
  {
    assert ChunksApart(c, segs, q, s);
  }

  lemma SealEnds(c: ChunkMap, segs: seq<Segment>, p: int, st: Status, i: int)
    requires Tiled(c, segs) && CanSeal(c, p, st)
    ensures EndsOk(SealMap(c, p, st), segs, i)
  {
    assert EndsOk(c, segs, i);
  }

  lemma Seal(mem: Mem, mem': Mem, c: ChunkMap, segs: seq<Segment>, p: int, st: Status)
    requires Tiled(c, segs) && Tagged(mem, c, segs) && CanSeal(c, p, st)
    requires SealedBy(mem, mem', c, p, st)
    ensures var c' := SealMap(c, p, st); Tiled(c', segs) && Tagged(mem', c', segs)
  {
    hide ShapeOk, NextOk, PrevOk, TagOk, ChunksApart, EndsOk, SealMap;
    forall q { SealShape(c, segs, p, st, q); }
    forall q { SealNext(c, segs, p, st, q); }
    forall q { SealPrev(c, segs, p, st, q); }
    forall q { SealTag(mem, mem', c, segs, p, st, q); }
    forall q, s { SealApart(c, segs, p, st, q, s); }
    forall i { SealEnds(c, segs, p, st, i); }
  }

  /** The held top chunk gets its head back. */
  lemma SealTop(mem: Mem, mem': Mem, c: ChunkMap, segs: seq<Segment>, p: int)
    requires Tiled(c, segs) && Tagged(mem, c, segs)
    requires p in c && c[p].st == HeldTop && c[p].pin
    requires Rd(mem', p + HEAD) == Enc(c[p])
    requires forall a {:trigger Rd(mem', a)} :: a != p + HEAD ==> Rd(mem', a) == Rd(mem, a)
    ensures var c' := SetStatus(c, p, Top); Tiled(c', segs) && Tagged(mem', c', segs)
  {
    var c' := SetStatus(c, p, Top);
    forall q
      ensures ShapeOk(c', segs, q)
    {
      assert ShapeOk(c, segs, q);
    }
    forall q
      ensures NextOk(c', q)
    {
      assert NextOk(c, q);
    }
    forall q
      ensures PrevOk(c', segs, q)
    {
      assert PrevOk(c, segs, q);
    }
    forall q
      ensures TagOk(mem', c', segs, q)
    {
      TopTag(mem, mem', c, segs, p, q);
    }
    forall q, r
      ensures ChunksApart(c', segs, q, r)
    {
      assert ChunksApart(c, segs, q, r);
    }
    forall i
      ensures EndsOk(c', segs, i)
    {
      assert EndsOk(c, segs, i);
    }
  }

  lemma TopTag(mem: Mem, mem': Mem, c: ChunkMap, segs: seq<Segment>, p: int, q: int)
    requires Tiled(c, segs) && Tagged(mem, c, segs)
    requires p in c && c[p].st == HeldTop && c[p].pin
    requires Rd(mem', p + HEAD) == Enc(c[p])
    requires forall a {:trigger Rd(mem', a)} :: a != p + HEAD ==> Rd(mem', a) == Rd(mem, a)
    ensures TagOk(mem', SetStatus(c, p, Top), segs, q)
  {
    assert TagOk(mem, c, segs, q) && ShapeOk(c, segs, p);
    if q in c && q != p {
      assert ShapeOk(c, segs, q);
      Distinct(c, segs, p, q);
    }
  }

  // ---------- what tag writes leave alone ----------

  /** The words a client may use: past the header, up to and including the borrowed foot. */
  predicate PayloadWord(c: ChunkMap, p: int, a: int) {
    p in c && InUse(c[p]) && p + 16 <= a < p + c[p].size + 8
  }

  /** The link words of a binned chunk. */
  predicate LinkWord(c: ChunkMap, p: int, a: int) {
    p in c && c[p].st == Binned && p + 16 <= a < p + (if IsSmall(c[p].size) then 32 else 64)
  }

  /** Heads, and everything in a chunk that is neither used nor binned up to its foot, are
      neither payload nor links of any chunk. */
  lemma NotClaimed(c: ChunkMap, segs: seq<Segment>, p: int, a: int, q: int)
    requires Tiled(c, segs) && p in c
    requires a == p + HEAD || (!InUse(c[p]) && c[p].st != Binned && p + 8 <= a < p + Extent(c, segs, p) + 8)
    ensures !PayloadWord(c, q, a) && !LinkWord(c, q, a)
  {
    if q in c {
      assert ShapeOk(c, segs, q) && ShapeOk(c, segs, p);
      if q != p { Distinct(c, segs, p, q); }
    }
  }
}
