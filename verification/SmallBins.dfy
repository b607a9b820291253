/** The small bins: circular doubly linked lists threaded through the free chunks of one
    size each, with a header that poses as a chunk. */
module SmallBins {
  import opened Words
  import opened BinMaps
  import opened Chunks

  /** For each bin, its chunks in list order. */
  type Lists = seq<seq<int>>

  // ---------- words ----------

  /** A link word of a binned small chunk. */
  predicate SmallLink(c: ChunkMap, q: int, a: int) {
    LinkWord(c, q, a) && IsSmall(c[q].size)
  }

  /** The words that belong to the small bins. */
  ghost predicate SmallWord(c: ChunkMap, a: int) {
    SMALLBINS <= a < TREEBINS || exists q {:trigger SmallLink(c, q, a)} :: SmallLink(c, q, a)
  }

  /** mem' differs from mem at most in words of the small bins. */
  ghost predicate OnlySmallWords(mem: Mem, mem': Mem, c: ChunkMap) {
    forall a {:trigger Rd(mem', a)} :: !SmallWord(c, a) ==> Rd(mem', a) == Rd(mem, a)
  }

  // ---------- one list ----------

  predicate LinkOk(mem: Mem, l: seq<int>, h: int, k: int) {
    0 <= k < |l| ==>
      && Rd(mem, l[k] + FD) == (if k + 1 < |l| then l[k + 1] else h)
      && Rd(mem, l[k] + BK) == (if k > 0 then l[k - 1] else h)
  }

  ghost predicate ListOk(mem: Mem, l: seq<int>, h: int) {
    |l| > 0 ==>
      && Rd(mem, h + FD) == l[0]
      && Rd(mem, h + BK) == l[|l| - 1]
      && forall k {:trigger LinkOk(mem, l, h, k)} :: LinkOk(mem, l, h, k)
  }

  // ---------- all bins ----------

  predicate MemberOk(c: ChunkMap, lists: Lists, i: int, k: int) {
    0 <= i < |lists| && 0 <= k < |lists[i]| ==>
      var p := lists[i][k];
      p in c && c[p].st == Binned && c[p].size == 8 * i
  }

  predicate DistinctOk(lists: Lists, i: int, j: int, k: int) {
    0 <= i < |lists| && 0 <= j < k < |lists[i]| ==> lists[i][j] != lists[i][k]
  }

  ghost predicate BinOk(mem: Mem, lists: Lists, smallmap: int, i: int) {
    0 <= i < |lists| && 0 <= smallmap ==>
      && ListOk(mem, lists[i], SmallBinAt(i))
      && (Marked(smallmap, i) <==> |lists[i]| > 0)
  }

  /** Every bin is a well-linked list of distinct binned chunks of its size, and its map bit
      says whether it is empty. */
  ghost predicate SmallOk(mem: Mem, c: ChunkMap, lists: Lists, smallmap: int) {
    && |lists| == 32 && 0 <= smallmap < U32
    && (forall i {:trigger BinOk(mem, lists, smallmap, i)} :: BinOk(mem, lists, smallmap, i))
    && (forall i, k {:trigger MemberOk(c, lists, i, k)} :: MemberOk(c, lists, i, k))
    && (forall i, j, k {:trigger DistinctOk(lists, i, j, k)} :: DistinctOk(lists, i, j, k))
  }

  /** The header and link words of the members are small words. */
  lemma MemberWords(c: ChunkMap, segs: seq<Segment>, lists: Lists, i: int, k: int)
    requires Tiled(c, segs) && |lists| == 32 && 0 <= i < 32 && 0 <= k < |lists[i]|
    requires MemberOk(c, lists, i, k)
    ensures SmallWord(c, lists[i][k] + FD) && SmallWord(c, lists[i][k] + BK)
    ensures lists[i][k] >= LOW
  {
    var p := lists[i][k];
    assert SmallLink(c, p, p + FD) && SmallLink(c, p, p + BK);
    AboveLow(c, segs, p);
  }

  /** Distinct members keep their link words apart. */
  lemma MembersApart(c: ChunkMap, segs: seq<Segment>, p: int, q: int)
    requires Tiled(c, segs) && p in c && q in c && p != q
    requires c[p].st == Binned && c[q].st == Binned
    ensures p + 32 <= q || q + 32 <= p
  {
    Distinct(c, segs, p, q);
    assert ShapeOk(c, segs, p) && ShapeOk(c, segs, q);
  }

  /** The bins depend on nothing but their own words and the sizes of binned chunks. */
  lemma SmallFrame(mem: Mem, mem': Mem, c: ChunkMap, c': ChunkMap, segs: seq<Segment>, lists: Lists, smallmap: int)
    requires Tiled(c, segs) && SmallOk(mem, c, lists, smallmap)
    requires forall a {:trigger Rd(mem', a)} :: SmallWord(c, a) ==> Rd(mem', a) == Rd(mem, a)
    requires forall i, k {:trigger MemberOk(c', lists, i, k)} :: 0 <= i < |lists| && 0 <= k < |lists[i]| ==>
               var p := lists[i][k]; p in c' && c'[p].st == Binned && p in c && c'[p].size == c[p].size
    ensures SmallOk(mem', c', lists, smallmap)
  {
    forall i, k
      ensures MemberOk(c', lists, i, k)
    {
      assert MemberOk(c, lists, i, k);
    }
    forall i
      ensures BinOk(mem', lists, smallmap, i)
    {
      assert BinOk(mem, lists, smallmap, i);
      if 0 <= i < |lists| {
        forall k
          ensures LinkOk(mem', lists[i], SmallBinAt(i), k)
        {
          assert LinkOk(mem, lists[i], SmallBinAt(i), k) && MemberOk(c, lists, i, k);
          if 0 <= k < |lists[i]| { MemberWords(c, segs, lists, i, k); }
        }
        assert SmallWord(c, SmallBinAt(i) + FD) && SmallWord(c, SmallBinAt(i) + BK);
      }
    }
  }

  // ---------- insert_small_chunk ----------

  /** The memory after the four link writes of insert_small_chunk. */
  function InsertLinks(mem: Mem, b: int, f: int, p: int): Mem {
    Wr(Wr(Wr(Wr(mem, b + FD, p), f + BK, p), p + FD, f), p + BK, b)
  }

  lemma InsertLinksRd(mem: Mem, b: int, f: int, p: int, a: int)
    requires p + 32 <= b || b + 32 <= p
    requires p + 32 <= f || f + 32 <= p
    ensures Rd(InsertLinks(mem, b, f, p), a) ==
            if a == p + BK then b else if a == p + FD then f else if a == f + BK then p else if a == b + FD then p else Rd(mem, a)
  {
    hide Rd, Wr;
  }

  ghost predicate CanInsert(c: ChunkMap, lists: Lists, p: int) {
    && p in c && c[p].st == Binned && IsSmall(c[p].size)
    && |lists| == 32 && 0 <= c[p].size && p !in lists[c[p].size / 8]
  }

  /** Inserting p at the front of the list of its size. */
  lemma InsertSmall(mem: Mem, c: ChunkMap, segs: seq<Segment>, lists: Lists, smallmap: int, p: int)
    requires Tiled(c, segs) && SmallOk(mem, c, lists, smallmap) && CanInsert(c, lists, p)
    ensures var i := c[p].size / 8;
            var b := SmallBinAt(i);
            var f := if Marked(smallmap, i) then Rd(mem, b + FD) else b;
            var mem' := InsertLinks(mem, b, f, p);
            && SmallOk(mem', c, lists[i := [p] + lists[i]], if Marked(smallmap, i) then smallmap else Mark(smallmap, i))
            && OnlySmallWords(mem, mem', c)
  {
    hide Marked, Mark;
    var i := c[p].size / 8;
    var b := SmallBinAt(i);
    var f := if Marked(smallmap, i) then Rd(mem, b + FD) else b;
    var mem' := InsertLinks(mem, b, f, p);
    var lists' := lists[i := [p] + lists[i]];
    var map' := if Marked(smallmap, i) then smallmap else Mark(smallmap, i);
    assert ShapeOk(c, segs, p);
    assert i == c[p].size / 8 && c[p].size == 8 * i && 4 <= i < 32;
    AboveLow(c, segs, p);
    MarkClear(smallmap, i);
    InsertWhere(mem, c, segs, lists, smallmap, p);
    forall j, k
      ensures MemberOk(c, lists', j, k)
    {
      assert MemberOk(c, lists, j, if j == i then k - 1 else k);
    }
    forall j, k, l
      ensures DistinctOk(lists', j, k, l)
    {
      assert DistinctOk(lists, j, if j == i then k - 1 else k, if j == i then l - 1 else l);
      if j == i && k == 0 && 0 < l <= |lists[i]| { assert lists[i][l - 1] in lists[i]; }
    }
    forall j
      ensures BinOk(mem', lists', map', j)
    {
      assert BinOk(mem, lists, smallmap, j);
      if j == i {
        InsertedList(mem, c, segs, lists, smallmap, p);
      } else if 0 <= j < 32 {
        InsertOtherList(mem, c, segs, lists, smallmap, p, j);
      }
    }
    assert SmallLink(c, p, p + FD) && SmallLink(c, p, p + BK);
    forall a | !SmallWord(c, a)
      ensures Rd(mem', a) == Rd(mem, a)
    {
      InsertLinksRd(mem, b, f, p, a);
    }
  }

  /** The neighbour f that the insertion links p to. */
  lemma InsertWhere(mem: Mem, c: ChunkMap, segs: seq<Segment>, lists: Lists, smallmap: int, p: int)
    requires Tiled(c, segs) && SmallOk(mem, c, lists, smallmap) && CanInsert(c, lists, p)
    ensures var i := c[p].size / 8;
            var b := SmallBinAt(i);
            var f := if Marked(smallmap, i) then Rd(mem, b + FD) else b;
            && f == (if |lists[i]| > 0 then lists[i][0] else b)
            && SmallWord(c, f + BK) && SmallWord(c, b + FD)
            && (p + 32 <= b || b + 32 <= p) && (p + 32 <= f || f + 32 <= p)
  {
    var i := c[p].size / 8;
    assert BinOk(mem, lists, smallmap, i) && MemberOk(c, lists, i, 0);
    AboveLow(c, segs, p);
    if |lists[i]| > 0 {
      MemberWords(c, segs, lists, i, 0);
      MembersApart(c, segs, p, lists[i][0]);
    }
  }

  lemma InsertedList(mem: Mem, c: ChunkMap, segs: seq<Segment>, lists: Lists, smallmap: int, p: int)
    requires Tiled(c, segs) && SmallOk(mem, c, lists, smallmap) && CanInsert(c, lists, p)
    ensures var i := c[p].size / 8;
            var b := SmallBinAt(i);
            var f := if Marked(smallmap, i) then Rd(mem, b + FD) else b;
            ListOk(InsertLinks(mem, b, f, p), [p] + lists[i], b)
  {
    hide InsertLinks;
    var i := c[p].size / 8;
    var b := SmallBinAt(i);
    var f := if Marked(smallmap, i) then Rd(mem, b + FD) else b;
    var l, l' := lists[i], [p] + lists[i];
    var mem' := InsertLinks(mem, b, f, p);
    InsertWhere(mem, c, segs, lists, smallmap, p);
    assert BinOk(mem, lists, smallmap, i);
    forall k
      ensures LinkOk(mem', l', b, k)
    {
      if k == 0 {
        InsertLinksRd(mem, b, f, p, p + FD);
        InsertLinksRd(mem, b, f, p, p + BK);
      } else if 0 < k < |l'| {
        assert LinkOk(mem, l, b, k - 1) && MemberOk(c, lists, i, k - 1) && MemberOk(c, lists, i, 0);
        assert DistinctOk(lists, i, 0, k - 1);
        MemberWords(c, segs, lists, i, k - 1);
        MembersApart(c, segs, p, l[k - 1]);
        if k > 1 { MembersApart(c, segs, l[0], l[k - 1]); }
        InsertLinksRd(mem, b, f, p, l[k - 1] + FD);
        InsertLinksRd(mem, b, f, p, l[k - 1] + BK);
      }
    }
    AboveLow(c, segs, p);
    if |l| > 0 { MemberWords(c, segs, lists, i, 0); }
    InsertLinksRd(mem, b, f, p, b + FD);
    InsertLinksRd(mem, b, f, p, b + BK);
  }

  lemma InsertOtherList(mem: Mem, c: ChunkMap, segs: seq<Segment>, lists: Lists, smallmap: int, p: int, j: int)
    requires Tiled(c, segs) && SmallOk(mem, c, lists, smallmap) && CanInsert(c, lists, p)
    requires 0 <= j < 32 && j != c[p].size / 8
    ensures var i := c[p].size / 8;
            var b := SmallBinAt(i);
            var f := if Marked(smallmap, i) then Rd(mem, b + FD) else b;
            ListOk(InsertLinks(mem, b, f, p), lists[j], SmallBinAt(j))
  {
    hide InsertLinks;
    var i := c[p].size / 8;
    var b := SmallBinAt(i);
    var f := if Marked(smallmap, i) then Rd(mem, b + FD) else b;
    var h := SmallBinAt(j);
    var mem' := InsertLinks(mem, b, f, p);
    InsertWhere(mem, c, segs, lists, smallmap, p);
    assert BinOk(mem, lists, smallmap, j) && MemberOk(c, lists, i, 0);
    AboveLow(c, segs, p);
    if |lists[i]| > 0 { MemberWords(c, segs, lists, i, 0); }
    forall k
      ensures LinkOk(mem', lists[j], h, k)
    {
      if 0 <= k < |lists[j]| {
        assert LinkOk(mem, lists[j], h, k) && MemberOk(c, lists, j, k);
        MemberWords(c, segs, lists, j, k);
        MembersApart(c, segs, p, lists[j][k]);
        if |lists[i]| > 0 { MembersApart(c, segs, lists[i][0], lists[j][k]); }
        InsertLinksRd(mem, b, f, p, lists[j][k] + FD);
        InsertLinksRd(mem, b, f, p, lists[j][k] + BK);
      }
    }
    InsertLinksRd(mem, b, f, p, h + FD);
    InsertLinksRd(mem, b, f, p, h + BK);
  }

  // ---------- unlink_small_chunk, unlink_first_small_chunk ----------

  function RemoveAt(l: seq<int>, k: int): seq<int>
    requires 0 <= k < |l|
  {
    l[..k] + l[k + 1..]
  }

  /** The memory after unlinking a chunk with neighbours f and b. */
  function UnlinkLinks(mem: Mem, f: int, b: int): Mem {
    if f == b then mem else Wr(Wr(mem, f + BK, b), b + FD, f)
  }

  lemma UnlinkLinksRd(mem: Mem, f: int, b: int, a: int)
    requires f == b || f + 16 <= b || b + 16 <= f
    ensures Rd(UnlinkLinks(mem, f, b), a) ==
            if f != b && a == f + BK then b else if f != b && a == b + FD then f else Rd(mem, a)
  {
    hide Rd, Wr;
  }

  ghost predicate IsMember(lists: Lists, i: int, k: int) {
    |lists| == 32 && 0 <= i < 32 && 0 <= k < |lists[i]|
  }

  /** The neighbours of member k; they coincide exactly when the list has one member. */
  lemma UnlinkWhere(mem: Mem, c: ChunkMap, segs: seq<Segment>, lists: Lists, smallmap: int, i: int, k: int)
    requires Tiled(c, segs) && SmallOk(mem, c, lists, smallmap) && IsMember(lists, i, k)
    ensures var l, h := lists[i], SmallBinAt(i);
            var f, b := Rd(mem, l[k] + FD), Rd(mem, l[k] + BK);
            && f == (if k + 1 < |l| then l[k + 1] else h)
            && b == (if k > 0 then l[k - 1] else h)
            && (f == b <==> |l| == 1)
            && (f == b || f + 32 <= b || b + 32 <= f)
            && SmallWord(c, f + BK) && SmallWord(c, b + FD)
  {
    var l, h := lists[i], SmallBinAt(i);
    assert BinOk(mem, lists, smallmap, i) && LinkOk(mem, l, h, k);
    if k + 1 < |l| {
      assert MemberOk(c, lists, i, k + 1);
      MemberWords(c, segs, lists, i, k + 1);
    }
    if k > 0 {
      assert MemberOk(c, lists, i, k - 1);
      MemberWords(c, segs, lists, i, k - 1);
    }
    if 0 < k && k + 1 < |l| {
      assert DistinctOk(lists, i, k - 1, k + 1);
      MembersApart(c, segs, l[k - 1], l[k + 1]);
    }
  }

  lemma UnlinkedList(mem: Mem, c: ChunkMap, segs: seq<Segment>, lists: Lists, smallmap: int, i: int, k: int)
    requires Tiled(c, segs) && SmallOk(mem, c, lists, smallmap) && IsMember(lists, i, k)
    ensures var p := lists[i][k];
            ListOk(UnlinkLinks(mem, Rd(mem, p + FD), Rd(mem, p + BK)), RemoveAt(lists[i], k), SmallBinAt(i))
  {
    hide UnlinkLinks;
    var l, h := lists[i], SmallBinAt(i);
    var f, b := Rd(mem, l[k] + FD), Rd(mem, l[k] + BK);
    var l' := RemoveAt(l, k);
    var mem' := UnlinkLinks(mem, f, b);
    UnlinkWhere(mem, c, segs, lists, smallmap, i, k);
    assert BinOk(mem, lists, smallmap, i);
    forall j
      ensures LinkOk(mem', l', h, j)
    {
      if 0 <= j < |l'| { UnlinkedLink(mem, c, segs, lists, smallmap, i, k, j); }
    }
    if |l'| > 0 {
      UnlinkLinksRd(mem, f, b, h + FD);
      UnlinkLinksRd(mem, f, b, h + BK);
      assert MemberOk(c, lists, i, if k == 0 then 1 else 0) && MemberOk(c, lists, i, if k == |l| - 1 then k - 1 else |l| - 1);
      MemberWords(c, segs, lists, i, if k == 0 then 1 else 0);
      MemberWords(c, segs, lists, i, if k == |l| - 1 then k - 1 else |l| - 1);
      if 0 < k { assert MemberOk(c, lists, i, k - 1); MemberWords(c, segs, lists, i, k - 1); }
      if k + 1 < |l| { assert MemberOk(c, lists, i, k + 1); MemberWords(c, segs, lists, i, k + 1); }
    }
  }

  lemma UnlinkedLink(mem: Mem, c: ChunkMap, segs: seq<Segment>, lists: Lists, smallmap: int, i: int, k: int, j: int)
    requires Tiled(c, segs) && SmallOk(mem, c, lists, smallmap) && IsMember(lists, i, k)
    requires 0 <= j < |lists[i]| - 1
    ensures var p := lists[i][k];
            LinkOk(UnlinkLinks(mem, Rd(mem, p + FD), Rd(mem, p + BK)), RemoveAt(lists[i], k), SmallBinAt(i), j)
  {
    hide UnlinkLinks;
    var l, h := lists[i], SmallBinAt(i);
    var f, b := Rd(mem, l[k] + FD), Rd(mem, l[k] + BK);
    var x := if j < k then j else j + 1;
    UnlinkWhere(mem, c, segs, lists, smallmap, i, k);
    assert BinOk(mem, lists, smallmap, i) && LinkOk(mem, l, h, x) && MemberOk(c, lists, i, x);
    MemberWords(c, segs, lists, i, x);
    if k > 0 {
      assert MemberOk(c, lists, i, k - 1);
      MemberWords(c, segs, lists, i, k - 1);
      assert DistinctOk(lists, i, x, k - 1) && DistinctOk(lists, i, k - 1, x);
      if x != k - 1 { MembersApart(c, segs, l[x], l[k - 1]); }
    }
    if k + 1 < |l| {
      assert MemberOk(c, lists, i, k + 1);
      MemberWords(c, segs, lists, i, k + 1);
      assert DistinctOk(lists, i, x, k + 1) && DistinctOk(lists, i, k + 1, x);
      if x != k + 1 { MembersApart(c, segs, l[x], l[k + 1]); }
    }
    UnlinkLinksRd(mem, f, b, l[x] + FD);
    UnlinkLinksRd(mem, f, b, l[x] + BK);
  }

  lemma UnlinkOtherList(mem: Mem, c: ChunkMap, segs: seq<Segment>, lists: Lists, smallmap: int, i: int, k: int, j: int)
    requires Tiled(c, segs) && SmallOk(mem, c, lists, smallmap) && IsMember(lists, i, k)
    requires 0 <= j < 32 && j != i
    ensures var p := lists[i][k];
            ListOk(UnlinkLinks(mem, Rd(mem, p + FD), Rd(mem, p + BK)), lists[j], SmallBinAt(j))
  {
    hide UnlinkLinks;
    var l, h := lists[i], SmallBinAt(j);
    var f, b := Rd(mem, l[k] + FD), Rd(mem, l[k] + BK);
    var mem' := UnlinkLinks(mem, f, b);
    UnlinkWhere(mem, c, segs, lists, smallmap, i, k);
    assert BinOk(mem, lists, smallmap, j);
    if k > 0 { assert MemberOk(c, lists, i, k - 1); MemberWords(c, segs, lists, i, k - 1); }
    if k + 1 < |l| { assert MemberOk(c, lists, i, k + 1); MemberWords(c, segs, lists, i, k + 1); }
    forall y
      ensures LinkOk(mem', lists[j], h, y)
    {
      if 0 <= y < |lists[j]| {
        var q := lists[j][y];
        assert LinkOk(mem, lists[j], h, y) && MemberOk(c, lists, j, y);
        MemberWords(c, segs, lists, j, y);
        if k > 0 { MembersApart(c, segs, q, l[k - 1]); }
        if k + 1 < |l| { MembersApart(c, segs, q, l[k + 1]); }
        UnlinkLinksRd(mem, f, b, q + FD);
        UnlinkLinksRd(mem, f, b, q + BK);
      }
    }
    UnlinkLinksRd(mem, f, b, h + FD);
    UnlinkLinksRd(mem, f, b, h + BK);
  }

  /** Unlinking any member leaves exactly the other members, in order. */
  lemma UnlinkSmall(mem: Mem, c: ChunkMap, segs: seq<Segment>, lists: Lists, smallmap: int, i: int, k: int)
    requires Tiled(c, segs) && SmallOk(mem, c, lists, smallmap) && IsMember(lists, i, k)
    ensures var p := lists[i][k];
            var f, b := Rd(mem, p + FD), Rd(mem, p + BK);
            var mem' := UnlinkLinks(mem, f, b);
            && SmallOk(mem', c, lists[i := RemoveAt(lists[i], k)], if f == b then Clear(smallmap, i) else smallmap)
            && OnlySmallWords(mem, mem', c)
            && p !in RemoveAt(lists[i], k)
  {
    hide Marked, Clear, UnlinkLinks;
    var l := lists[i];
    var p := l[k];
    var f, b := Rd(mem, p + FD), Rd(mem, p + BK);
    var mem' := UnlinkLinks(mem, f, b);
    var lists' := lists[i := RemoveAt(l, k)];
    var map' := if f == b then Clear(smallmap, i) else smallmap;
    UnlinkWhere(mem, c, segs, lists, smallmap, i, k);
    MarkClear(smallmap, i);
    forall j, y
      ensures MemberOk(c, lists', j, y)
    {
      assert MemberOk(c, lists, j, if j == i && y >= k then y + 1 else y);
    }
    forall j, y, z
      ensures DistinctOk(lists', j, y, z)
    {
      assert DistinctOk(lists, j, if j == i && y >= k then y + 1 else y, if j == i && z >= k then z + 1 else z);
    }
    forall j
      ensures BinOk(mem', lists', map', j)
    {
      assert BinOk(mem, lists, smallmap, j);
      if j == i {
        UnlinkedList(mem, c, segs, lists, smallmap, i, k);
      } else if 0 <= j < 32 {
        UnlinkOtherList(mem, c, segs, lists, smallmap, i, k, j);
      }
    }
    forall a | !SmallWord(c, a)
      ensures Rd(mem', a) == Rd(mem, a)
    {
      UnlinkLinksRd(mem, f, b, a);
    }
    forall y | 0 <= y < |l| - 1
      ensures RemoveAt(l, k)[y] != p
    {
      assert DistinctOk(lists, i, y, k) && DistinctOk(lists, i, k, y + 1);
    }
  }
}
