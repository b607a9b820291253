/** internal_memalign: over-allocate, find an aligned spot, and give back what is left over on
    either side. */
module Memalign {
  import opened Words
  import opened Bits
  import opened BinMaps
  import opened Chunks
  import opened SmallBins
  import opened TreeBins
  import opened HeapOps
  import opened Mapping
  import opened HeapState
  import opened HeapSteps
  import opened BestFit
  import opened Releasing
  import opened Growing
  import opened Heap

  // ---------- powers of two ----------

  ghost predicate IsPower(a: int) {
    exists k: nat {:trigger Scale(1, k)} :: a == Scale(1, k)
  }

  /** a & (a - 1) is zero exactly for powers of two. */
  lemma {:induction false} PowerTest(a: int)
    requires 1 <= a
    ensures And(a, a - 1) == 0 <==> IsPower(a)
  {
    if a == 1 {
      assert Scale(1, 0) == 1;
    } else if a % 2 == 0 {
      assert (a - 1) / 2 == a / 2 - 1;
      PowerTest(a / 2);
      PowerHalf(a);
    } else {
      assert (a - 1) / 2 == a / 2;
      AndSelf(a / 2);
      OddNotPower(a);
    }
  }

  lemma {:induction false} AndSelf(a: int)
    requires 0 <= a
    ensures And(a, a) == a
  {
    if a > 0 { AndSelf(a / 2); }
  }

  lemma PowerHalf(a: int)
    requires 2 <= a && a % 2 == 0
    ensures IsPower(a) <==> IsPower(a / 2)
  {
    if k: nat :| a == Scale(1, k) {
      assert k > 0 by { assert Scale(1, 0) == 1; }
      assert a / 2 == Scale(1, k - 1);
    }
    if k: nat :| a / 2 == Scale(1, k) {
      assert a == Scale(1, k + 1);
    }
  }

  lemma PowerParity(k: nat)
    ensures Scale(1, k) == 1 || Scale(1, k) % 2 == 0
    ensures k > 0 ==> Scale(1, k) == 2 * Scale(1, k - 1)
  {
  }

  lemma OddNotPower(a: int)
    requires 3 <= a && a % 2 == 1
    ensures !IsPower(a)
  {
    forall k: nat
      ensures a != Scale(1, k)
    {
      PowerParity(k);
    }
  }

  lemma AndEven(x: int, m: int)
    requires 0 <= x && 0 <= m && m % 2 == 0
    ensures And(x, m) == 2 * And(x / 2, m / 2)
  {
    if x != 0 && m != 0 {
    } else if x == 0 {
      assert And(0, m / 2) == 0;
    } else {
      assert And(x / 2, 0) == 0;
    }
  }

  lemma {:induction false} AndHigh(x: int, w: nat, k: nat)
    requires 0 <= x < Scale(1, w) && k <= w
    ensures Scale(1, k) <= Scale(1, w) && And(x, Scale(1, w) - Scale(1, k)) == x - x % Scale(1, k)
  {
    hide And, Scale;
    ScaleUpTo(k, w);
    PowerParity(k);
    PowerParity(w);
    if k == 0 {
      OnesIdentity(x, w);
      PowerZero();
    } else {
      var m := Scale(1, w) - Scale(1, k);
      assert m / 2 == Scale(1, w - 1) - Scale(1, k - 1);
      ScaleUpTo(k - 1, w - 1);
      AndHigh(x / 2, w - 1, k - 1);
      AndEven(x, m);
      ModDouble(x, Scale(1, k - 1));
    }
  }

  lemma PowerZero()
    ensures Scale(1, 0) == 1
  {
  }

  lemma {:induction false} OnesIdentity(x: int, w: nat)
    requires 0 <= x < Scale(1, w)
    ensures And(x, Scale(1, w) - 1) == x
  {
    if x > 0 {
      assert (Scale(1, w) - 1) / 2 == Scale(1, w - 1) - 1;
      OnesIdentity(x / 2, w - 1);
    }
  }

  lemma ModDouble(x: int, m: int)
    requires 0 <= x && 1 <= m
    ensures x % (2 * m) == 2 * (x / 2 % m) + x % 2
  {
    var q, r := x / 2 / m, x / 2 % m;
    assert x == (2 * m) * q + (2 * r + x % 2);
    ModUnique(x, 2 * m, q, 2 * r + x % 2);
  }

  lemma ModUnique(x: int, m: int, q: int, r: int)
    requires 1 <= m && x == m * q + r && 0 <= r < m
    ensures x % m == r && x / m == q
  {
    var d := x / m - q;
    assert m * d == r - x % m;
    MulSteps(m, d);
  }

  lemma MulSteps(m: int, d: int)
    requires 1 <= m
    ensures d >= 1 ==> m * d >= m
    ensures d <= -1 ==> m * d <= -m
  {
  }

  /** b, doubled until it reaches a. */
  function PowerUp(b: int, a: int): (r: int)
    requires 1 <= b
    ensures a <= r
    decreases a - b
  {
    if b >= a then b else PowerUp(2 * b, a)
  }

  /** The alignment that is used: the least power of two that is at least the request and
      MIN_CHUNK_SIZE. */
  function Effective(alignment: int): int {
    PowerUp(16, if alignment < MIN_CHUNK_SIZE then MIN_CHUNK_SIZE else alignment)
  }

  lemma {:induction false} PowerUpSelf(j: nat, k: nat)
    requires j <= k
    ensures 1 <= Scale(1, j) && PowerUp(Scale(1, j), Scale(1, k)) == Scale(1, k)
    decreases k - j
  {
    ScaleUpTo(0, j);
    PowerZero();
    if j < k {
      ScaleUpTo(j + 1, k);
      PowerParity(j + 1);
      PowerUpSelf(j + 1, k);
    }
  }

  lemma LargePower(a: int)
    requires IsPower(a) && MIN_CHUNK_SIZE <= a
    ensures PowerUp(16, a) == a
  {
    var k: nat :| a == Scale(1, k);
    assert Scale(1, 2) == 4;
    assert Scale(1, 4) == 16;
    if k < 4 { ScaleUpTo(k, 4); }
    if k >= 4 { PowerUpSelf(4, k); }
  }

  method RoundAlignment(alignment: int) returns (a: int)
    requires 8 < alignment <= 0x8000_0000_0000_0000
    ensures a == Effective(alignment)
    ensures IsPower(a) && alignment <= a <= 0x8000_0000_0000_0000 && MIN_CHUNK_SIZE <= a
    ensures a < 2 * alignment || a == MIN_CHUNK_SIZE
  {
    a := if alignment < MIN_CHUNK_SIZE then MIN_CHUNK_SIZE else alignment;
    ghost var wanted := a;
    assert Scale(1, 5) == MIN_CHUNK_SIZE;
    PowerTest(a);
    if And(a, a - 1) != 0 {
      var b := 16;
      ghost var k: nat := 4;
      Scale63();
      assert Scale(1, 4) == 16;
      while b < a
        invariant k <= 63 && b == Scale(1, k) && 16 <= b && (b == 16 || b < 2 * a)
        invariant PowerUp(b, a) == PowerUp(16, a)
        decreases 63 - k
      {
        if k == 63 { assert false; }
        ScaleUpTo(k + 1, 63);
        b := Double(b);
        k := k + 1;
        assert b == Scale(1, k);
      }
      ScaleUpTo(k, 63);
      a := b;
    } else {
      LargePower(a);
    }
  }

  /** The rounding of the alignment ends, because it is a power of two or because the doubling
      reaches it, exactly for alignments up to 2^63; beyond, the loop never ends. */
  lemma {:induction false} RoundingEnds(alignment: int)
    requires MIN_CHUNK_SIZE <= alignment < U64
    ensures (IsPower(alignment) || exists n: nat :: Shl64(16, n) >= alignment) <==> alignment <= 0x8000_0000_0000_0000
  {
    Scale63();
    Scale64();
    if alignment <= 0x8000_0000_0000_0000 {
      ShiftStays(59);
      assert Shl64(16, 59) >= alignment;
    } else {
      if k: nat :| alignment == Scale(1, k) {
        if k <= 63 { ScaleUpTo(k, 63); } else { ScaleUpTo(64, k); }
      }
      forall n: nat
        ensures Shl64(16, n) < alignment
      {
        ShiftStays(n);
      }
    }
  }

  /** Doubling 16 in a 64-bit register gives powers of two, and then zero for ever. */
  lemma {:induction false} ShiftStays(n: nat)
    ensures Shl64(16, n) == if n <= 59 then Scale(1, n + 4) else 0
    ensures Shl64(16, n) <= 0x8000_0000_0000_0000
  {
    hide Scale, Shl64;
    Scale63();
    if n == 0 {
      Scale4();
    } else {
      ShiftStays(n - 1);
      ShiftNext(n - 1);
      if n <= 59 {
        ScaleUpTo(n + 4, 63);
        ScaleNext(n + 3);
      } else if n == 60 {
        Scale64();
        ScaleNext(63);
      }
    }
  }

  lemma Scale4()
    ensures Scale(1, 4) == 16 == Shl64(16, 0)
  {
    assert Scale(1, 2) == 4;
  }

  lemma ShiftNext(n: nat)
    ensures Shl64(16, n + 1) == 2 * Shl64(16, n) % U64
  {
  }

  lemma ScaleNext(e: nat)
    ensures Scale(1, e + 1) == 2 * Scale(1, e)
  {
  }

  // ---------- the aligned spot ----------

  /** The address of the chunk whose payload is the first multiple of a from mem on. */
  function FirstAligned(mem: int, a: int): int
    requires 0 <= mem && 1 <= a <= U64
  {
    And((mem + a - 1) % U64, U64 - a) - 16
  }

  function AlignedSpot(p: int, a: int): int
    requires 0 <= p && 1 <= a <= U64
  {
    var br := FirstAligned(p + 16, a);
    if br - p >= MIN_CHUNK_SIZE then br else br + a
  }

  /** A misaligned chunk with room for nb, one alignment and one least chunk has an aligned
      spot whose leader is a chunk and whose rest has room for nb. */
  lemma SpotFits(p: int, size: int, nb: int, a: int)
    requires IsPower(a) && MIN_CHUNK_SIZE <= a && 0 <= p && p % 8 == 0 && p + size < U64
    requires nb + a + MIN_CHUNK_SIZE <= size && (p + 16) % a != 0 && 0 <= nb
    ensures a < U64
    ensures var pos := AlignedSpot(p, a);
            && (pos + 16) % a == 0 && (pos - p) % 8 == 0
            && MIN_CHUNK_SIZE <= pos - p && nb <= size - (pos - p)
  {
    hide And, Scale, FirstAligned;
    var k: nat :| a == Scale(1, k);
    PowerWithin(a, k);
    var m := p + 16 + a - 1 - (p + 16 + a - 1) % a;
    FirstAlignedAt(p + 16, a, k);
    MultipleBelow(p + 16 + a - 1, a);
    PowerOfEight(a, k);
    EightDivides(m, a);
    AddMultiple(m, a);
    assert m != p + 16;
    SpotArithmetic(p, size, nb, a, m);
  }

  lemma SpotArithmetic(p: int, size: int, nb: int, a: int, m: int)
    requires p % 8 == 0 && m % 8 == 0 && a % 8 == 0 && MIN_CHUNK_SIZE <= a
    requires p + 16 < m < p + 16 + a && nb + a + MIN_CHUNK_SIZE <= size
    ensures var br := m - 16;
            var pos := if br - p >= MIN_CHUNK_SIZE then br else br + a;
            (pos - p) % 8 == 0 && MIN_CHUNK_SIZE <= pos - p && nb <= size - (pos - p)
  {
    Multiples(m, p);
    Multiples(m - p, a);
    Multiples(m - p + a, 16);
    Multiples(m - p, 16);
  }

  lemma PowerWithin(a: int, k: nat)
    requires a == Scale(1, k) && a < U64
    ensures k <= 64
  {
    Scale64();
    if k > 64 { ScaleUpTo(64, k); }
  }

  lemma FirstAlignedAt(x: int, a: int, k: nat)
    requires 0 <= x && 1 <= a < U64 && a == Scale(1, k) && k <= 64 && x + a - 1 < U64
    ensures FirstAligned(x, a) == x + a - 1 - (x + a - 1) % a - 16
  {
    hide And, Scale;
    Scale64();
    AndHigh(x + a - 1, 64, k);
  }

  lemma MultipleBelow(x: int, a: int)
    requires 1 <= a && 0 <= x
    ensures (x - x % a) % a == 0 && x - a < x - x % a <= x
  {
    ModUnique(x - x % a, a, x / a, 0);
  }

  lemma AddMultiple(m: int, a: int)
    requires 1 <= a && m % a == 0
    ensures (m + a) % a == 0
  {
    ModUnique(m + a, a, m / a + 1, 0);
  }

  lemma PowerOfEight(a: int, k: nat)
    requires a == Scale(1, k) && MIN_CHUNK_SIZE <= a
    ensures a % 8 == 0
  {
    assert Scale(1, 2) == 4;
    if k <= 2 {
      ScaleUpTo(k, 2);
    } else {
      PowerParity(k);
      PowerParity(k - 1);
      PowerParity(k - 2);
    }
  }

  lemma EightDivides(m: int, a: int)
    requires 1 <= a && a % 8 == 0 && m % a == 0
    ensures m % 8 == 0
  {
    var q := m / a;
    assert m == a * q && a == 8 * (a / 8);
    assert m == 8 * ((a / 8) * q) by { assert (8 * (a / 8)) * q == 8 * ((a / 8) * q); }
  }

  // ---------- cutting a live block in two ----------

  /** set_inuse */
  function SetInUse(mem: Mem, p: int, s: int): Mem {
    var m := Wr(mem, p + HEAD, Rd(mem, p + HEAD) % 2 + s + 2);
    Wr(m, p + s + HEAD, SetPInUse(Rd(m, p + s + HEAD)))
  }

  /** Every block outside x is kept. */
  ghost predicate KeptBut(s: State, s': State, x: set<int>) {
    forall q {:trigger UserKept(s, s', q)} :: q !in x ==> UserKept(s, s', q)
  }

  lemma KeptButTrans(s: State, s1: State, s2: State, x: set<int>, y: set<int>)
    requires KeptBut(s, s1, x) && KeptBut(s1, s2, y)
    ensures KeptBut(s, s2, x + y)
  {
    forall q | q !in x + y
      ensures UserKept(s, s2, q)
    {
      assert UserKept(s, s1, q) && UserKept(s1, s2, q);
      forall a | IsLive(s.c, q) && PayloadWord(s.c, q, a)
        ensures Rd(s2.mem, a) == Rd(s.mem, a)
      {
        assert PayloadWord(s1.c, q, a);
        assert Rd(s1.mem, a) == Rd(s.mem, a);
      }
    }
  }

  function CutMap(c: ChunkMap, p: int, lead: int): ChunkMap
    requires p in c && lead > 0
  {
    SealMap(SealMap(SplitMap(SetStatus(c, p, Held), p, lead), p, Used), p + lead, Used)
  }

  /** The tags of the two parts have been written. */
  ghost predicate CutTags(s: State, mem': Mem, p: int, lead: int)
    requires p in s.c
  {
    && Rd(mem', p + HEAD) == lead + (if s.c[p].pin then 1 else 0) + 2
    && Rd(mem', p + lead + HEAD) == BothInUse(s.c[p].size - lead)
    && (forall a {:trigger Rd(mem', a)} :: a == p + HEAD || a == p + lead + HEAD || Rd(mem', a) == Rd(s.mem, a))
  }

  lemma CutCore(s: State, s': State, p: int, lead: int)
    requires Core(s, NOBODY) && IsLive(s.c, p)
    requires lead % 8 == 0 && MIN_CHUNK_SIZE <= lead && lead + MIN_CHUNK_SIZE <= s.c[p].size
    requires s' == s.(mem := s'.mem, c := CutMap(s.c, p, lead)) && CutTags(s, s'.mem, p, lead)
    ensures Core(s', NOBODY) && KeptBut(s, s', {p, p + lead}) && SameElsewhere(s.c, s'.c, {p, p + lead})
    ensures IsLive(s'.c, p) && s'.c[p].size == lead && !IsLive(s.c, p + lead)
    ensures IsLive(s'.c, p + lead) && s'.c[p + lead].size == s.c[p].size - lead
  {
    hide SmallOk, TreesOk, RecordsOk, InBins, Rd, Wr, SealMap, SplitMap, InTrees;
    var q := p + lead;
    HoldCore(s, p, NOBODY);
    var h := s.(c := SetStatus(s.c, p, Held));
    assert ShapeOk(s.c, s.segs, p);
    Split(h.mem, h.c, h.segs, p, lead);
    SplitSame(h.c, p, lead);
    CutSeals(s, h, s', p, lead);
    SplitSame(h.c, p, lead);
    NotBinned(s, p);
    AboveLow(s.c, s.segs, p);
    NotBinned(s, q);
    forall x | x !in {p, q}
      ensures SameAt(s.c, s'.c, x)
    {
      CutSameAt(s, p, lead, x);
    }
    forall x, a | x !in {p, q} && Claim(s.c, x, a)
      ensures Rd(s'.mem, a) == Rd(s.mem, a)
    {
      CutUnclaimed(s, p, lead, x, a);
    }
    assert TagStep(s, s', {p, q});
    TagStepCore(s, s', {p, q}, NOBODY, NOBODY);
    CutUsers(s, s', p, lead);
  }

  lemma CutSameAt(s: State, p: int, lead: int, x: int)
    requires p in s.c && 0 < lead < s.c[p].size && x !in {p, p + lead}
    ensures SameAt(s.c, CutMap(s.c, p, lead), x)
  {
  }

  lemma CutUnclaimed(s: State, p: int, lead: int, x: int, a: int)
    requires Core(s, NOBODY) && IsLive(s.c, p) && MIN_CHUNK_SIZE <= lead && lead + MIN_CHUNK_SIZE <= s.c[p].size
    requires x != p && x != p + lead && Claim(s.c, x, a)
    ensures a != p + HEAD && a != p + lead + HEAD
  {
    assert ShapeOk(s.c, s.segs, x) && ShapeOk(s.c, s.segs, p);
    Distinct(s.c, s.segs, p, x);
  }

  lemma CutUsers(s: State, s': State, p: int, lead: int)
    requires s'.segs == s.segs && SameElsewhere(s.c, s'.c, {p, p + lead}) && ClaimsKept(s.c, s.mem, s'.mem, {p, p + lead})
    ensures KeptBut(s, s', {p, p + lead})
  {
    forall q | q !in {p, p + lead}
      ensures UserKept(s, s', q)
    {
      assert SameAt(s.c, s'.c, q);
      forall a | PayloadWord(s.c, q, a)
        ensures Rd(s'.mem, a) == Rd(s.mem, a)
      {
        assert Claim(s.c, q, a);
      }
    }
  }

  /** Both parts of the split get the tags of blocks in use. */
  lemma CutSeals(s: State, h: State, s': State, p: int, lead: int)
    requires Core(s, NOBODY) && IsLive(s.c, p) && h == s.(c := SetStatus(s.c, p, Held))
    requires lead % 8 == 0 && MIN_CHUNK_SIZE <= lead && lead + MIN_CHUNK_SIZE <= s.c[p].size
    requires var c := SplitMap(h.c, p, lead); Tiled(c, s.segs) && Tagged(s.mem, c, s.segs)
    requires p + lead !in s.c
    requires s'.c == CutMap(s.c, p, lead) && CutTags(s, s'.mem, p, lead)
    ensures Tiled(s'.c, s.segs) && Tagged(s'.mem, s'.c, s.segs)
    ensures IsLive(s'.c, p) && s'.c[p].size == lead
    ensures IsLive(s'.c, p + lead) && s'.c[p + lead].size == s.c[p].size - lead
  {
    hide Rd, Wr, Core, Tiled, Tagged;
    var c := SplitMap(h.c, p, lead);
    var q, n := p + lead, p + s.c[p].size;
    var m1 := Wr(s.mem, p + HEAD, lead + (if s.c[p].pin then 1 else 0) + 2);
    assert c[p].size == lead && c[p].st == Held && c[q].st == Held && c[q].size == s.c[p].size - lead && c[q].pin;
    assert CanSeal(c, p, Used) && SealedBy(s.mem, m1, c, p, Used);
    Seal(s.mem, m1, c, s.segs, p, Used);
    var c1 := SealMap(c, p, Used);
    NextPinned(s, p);
    assert c1[n] == s.c[n].(prev := q);
    assert CanSeal(c1, q, Used) && SealedBy(m1, s'.mem, c1, q, Used);
    Seal(m1, s'.mem, c1, s.segs, q, Used);
  }

  /** The chunk above a live block has its pin bit set, and its head says so. */
  lemma NextPinned(s: State, p: int)
    requires Core(s, NOBODY) && IsLive(s.c, p)
    ensures var n := p + s.c[p].size;
            && n in s.c && n != p && s.c[n].pin && (!Loose(s.c[n]) ==> Rd(s.mem, n + HEAD) == Enc(s.c[n]))
            && SetPInUse(Enc(s.c[n])) == Enc(s.c[n])
  {
    var n := p + s.c[p].size;
    assert ShapeOk(s.c, s.segs, p) && NextOk(s.c, p) && PrevOk(s.c, s.segs, n) && TagOk(s.mem, s.c, s.segs, n) && ShapeOk(s.c, s.segs, n);
    Decode(s.c[n]);
    assert s.c[n].(pin := true) == s.c[n];
  }

  /** The two orders in which internal_memalign writes the tags. */
  lemma CutWritten(s: State, p: int, lead: int, upperFirst: bool)
    requires Core(s, NOBODY) && IsLive(s.c, p) && !Loose(s.c[p])
    requires lead % 8 == 0 && MIN_CHUNK_SIZE <= lead && lead + MIN_CHUNK_SIZE <= s.c[p].size
    requires p + s.c[p].size in s.c ==> !Loose(s.c[p + s.c[p].size])
    ensures var rest := s.c[p].size - lead;
            var mem' := if upperFirst then SetInUse(SetInUse(s.mem, p + lead, rest), p, lead)
                        else SetInUse(SetInUse(s.mem, p, lead), p + lead, rest);
            CutTags(s, mem', p, lead)
  {
    hide Rd, Wr, Core;
    var q, n, rest := p + lead, p + s.c[p].size, s.c[p].size - lead;
    NextPinned(s, p);
    HeadWord(s, p);
    assert q + rest == n;
    PinnedSum(rest, if upperFirst then Rd(s.mem, q + HEAD) % 2 else 1);
  }

  lemma HeadWord(s: State, p: int)
    requires Core(s, NOBODY) && IsLive(s.c, p)
    ensures Rd(s.mem, p + HEAD) % 2 == (if s.c[p].pin then 1 else 0) && s.c[p].size % 8 == 0
  {
    HeadOf(s, p);
    assert ShapeOk(s.c, s.segs, p);
  }

  lemma PinnedSum(rest: int, bit: int)
    requires rest % 8 == 0 && 0 <= bit <= 1
    ensures SetPInUse(bit + rest + 2) == rest + 3
  {
    var m := rest / 8;
    assert rest == 8 * m;
    DecodeWord(m, bit, 1);
  }

  // ---------- internal_memalign ----------

  /** The request that internal_memalign makes, whatever the alignment. */
  function Overall(alignment: int, bytes: int): int {
    Request2Size(bytes) + alignment + MIN_CHUNK_SIZE - CHUNK_OVERHEAD
  }

  /** Request sizes stay in range, and the over-allocation is what the aligned spot needs. */
  lemma OverallFits(alignment: int, bytes: int)
    requires IsPower(alignment) && MIN_CHUNK_SIZE <= alignment <= 0x8000_0000_0000_0000 && 0 <= bytes
    ensures var nb := Request2Size(bytes);
            && nb % 8 == 0 && MIN_CHUNK_SIZE <= nb && bytes + CHUNK_OVERHEAD <= nb && 0 <= Overall(alignment, bytes)
            && Request2Size(Overall(alignment, bytes)) == nb + alignment + MIN_CHUNK_SIZE
            && (bytes < MAX_REQUEST - alignment ==> Overall(alignment, bytes) < U64)
  {
    hide Scale;
    Request2SizeFits(bytes);
    var k: nat :| alignment == Scale(1, k);
    PowerOfEight(alignment, k);
  }

  lemma CutPointers(s: State, s': State, p: int, q: int, dv: int, dvsize: int, top: int, topsize: int)
    requires PointersOk(s, dv, dvsize, top, topsize) && IsLive(s.c, p) && s'.segs == s.segs
    requires SameElsewhere(s.c, s'.c, {p, q}) && IsLive(s'.c, p) && IsLive(s'.c, q) && !IsLive(s.c, q)
    requires q !in s.c
    ensures PointersOk(s', dv, dvsize, top, topsize)
  {
    assert PointerOk(s.c, dv, dvsize, top, p) && PointerOk(s.c, dv, dvsize, top, top) && PointerOk(s.c, dv, dvsize, top, dv);
    PointersStep(s, s', {p, q}, dv, dvsize, top, topsize, dv, dvsize, top, topsize);
  }

  lemma CutFresh(s: State, p: int, lead: int, dv: int, dvsize: int, top: int, topsize: int)
    requires Core(s, NOBODY) && PointersOk(s, dv, dvsize, top, topsize) && IsLive(s.c, p) && MIN_CHUNK_SIZE <= lead < s.c[p].size
    ensures p + lead !in s.c && s.c[p].size % 8 == 0
    ensures forall q {:trigger q in s.c} :: q in s.c ==> !Loose(s.c[q])
  {
    assert ChunksApart(s.c, s.segs, p, p + lead) && ShapeOk(s.c, s.segs, p);
    forall q | q in s.c
      ensures !Loose(s.c[q])
    {
      assert PointerOk(s.c, dv, dvsize, top, q);
    }
  }

  /** Cutting the live block p in two live blocks, by two uses of set_inuse. */
  method CutLive(m: MallocState, p: int, lead: int, rest: int, upperFirst: bool)
    requires m.Valid() && IsLive(m.chunks, p) && m.chunks[p].size == lead + rest
    requires lead % 8 == 0 && MIN_CHUNK_SIZE <= lead && MIN_CHUNK_SIZE <= rest
    modifies m`mem, m`chunks
    ensures m.Valid() && KeptBut(old(m.S()), m.S(), {p, p + lead})
    ensures IsLive(m.chunks, p) && m.chunks[p].size == lead && !IsLive(old(m.chunks), p + lead)
    ensures IsLive(m.chunks, p + lead) && m.chunks[p + lead].size == rest
  {
    hide Core, PointersOk, ImagesOk, KeptBut, SameElsewhere, SetInUse, CutMap, CutTags;
    ghost var s := m.S();
    CutFresh(s, p, lead, m.dv, m.dvsize, m.top, m.topsize);
    CutWritten(s, p, lead, upperFirst);
    if upperFirst {
      m.mem := SetInUse(m.mem, p + lead, rest);
      m.mem := SetInUse(m.mem, p, lead);
    } else {
      m.mem := SetInUse(m.mem, p, lead);
      m.mem := SetInUse(m.mem, p + lead, rest);
    }
    m.chunks := CutMap(m.chunks, p, lead);
    CutCore(s, m.S(), p, lead);
    CutPointers(s, m.S(), p, p + lead, m.dv, m.dvsize, m.top, m.topsize);
  }

  /** The block p is new, has room for nb bytes and at most MIN_CHUNK_SIZE more, and nothing else
      has changed for any client. */
  ghost predicate AlignedBlock(s: State, s': State, p: int, nb: int) {
    !IsLive(s.c, p) && IsLive(s'.c, p) && nb <= s'.c[p].size <= nb + MIN_CHUNK_SIZE && Undisturbed(s, s', p)
  }

  /** Leader and trailer are new with the block and gone at the end, so only the block remains. */
  lemma OnlyTheBlock(s: State, s': State, x: set<int>, p: int)
    requires KeptBut(s, s', x) && (forall q :: q in x ==> !IsLive(s.c, q)) && (forall q :: q in x && q != p ==> !IsLive(s'.c, q))
    ensures Undisturbed(s, s', p)
  {
    forall q | q != p
      ensures UserKept(s, s', q)
    {
      if q in x { assert !IsLive(s.c, q) && !IsLive(s'.c, q); }
    }
  }

  lemma UndisturbedIsKept(s: State, s': State, p: int)
    requires Undisturbed(s, s', p)
    ensures KeptBut(s, s', {p})
  {
  }

  lemma LiveOutside(s: State, s': State, x: set<int>, q: int)
    requires KeptBut(s, s', x) && q !in x
    ensures IsLive(s.c, q) <==> IsLive(s'.c, q)
    ensures IsLive(s.c, q) ==> s'.c[q].size == s.c[q].size
  {
    assert UserKept(s, s', q);
  }

  /** The chunk size that is needed, with room for an aligned spot and a leader. */
  function Wanted(alignment: int, bytes: int): int {
    if alignment <= 8 then Request2Size(bytes) else Request2Size(bytes) + Effective(alignment) + MIN_CHUNK_SIZE
  }

  /** internal_memalign */
  method InternalMemalign(m: MallocState, alignment: int, bytes: int, sys: System) returns (r: int)
    requires m.Valid() && 0 <= alignment <= 0x8000_0000_0000_0000 && 0 <= bytes < U64
    requires sys.Mapped? && Wanted(alignment, bytes) + TOP_FOOT_SIZE + 1 + PAGE < U64 ==> FreshBlock(m.segs, sys.base, MapSize(Wanted(alignment, bytes)))
    modifies m
    ensures m.Valid()
    ensures r == 0 ==> m.S() == old(m.S()) && m.P() == old(m.P())
    ensures r != 0 && alignment <= 8 ==> r % 8 == 0 && HandedOut(old(m.S()), m.S(), r - 16, Request2Size(bytes))
    ensures r != 0 && alignment > 8 ==> r % Effective(alignment) == 0 && AlignedBlock(old(m.S()), m.S(), r - 16, Request2Size(bytes))
    // When it fails.
    ensures r == 0 <==> OnlySystem(old(m.chunks), old(m.dvsize), old(m.topsize), Wanted(alignment, bytes))
                        && (sys.Refused? || Wanted(alignment, bytes) + TOP_FOOT_SIZE + 1 + PAGE >= U64)
    ensures r == 0 ==> sys.Refused? || Request2Size(bytes) + 2 * alignment + 2 * MIN_CHUNK_SIZE + TOP_FOOT_SIZE + 1 + PAGE >= U64
  {
    hide Core, PointersOk, ImagesOk, Smallest, SomePreferred, MapSize, FreshBlock, Grown, Undisturbed, And, Effective, IsPower, Request2Size, AfterMapping,
      AfterBin, OnlySystem;
    if alignment <= 8 {
      r := m.Dlmalloc(bytes, sys);
      return;
    }
    var a := RoundAlignment(alignment);
    r := 0;
    OverallFits(a, bytes);
    if bytes >= Sub64(MAX_REQUEST, a) {
      NothingHuge(m.S(), m.dv, m.dvsize, m.top, m.topsize, Wanted(alignment, bytes));
      return;
    }
    var nb := Request2Size(bytes);
    var mem := m.Dlmalloc(Overall(a, bytes), sys);
    if mem != 0 {
      r := CarveAligned(m, mem, a, nb, old(m.S()));
    }
  }

  /** The part of internal_memalign that follows the call of malloc. */
  method CarveAligned(m: MallocState, mem: int, a: int, nb: int, ghost s0: State) returns (r: int)
    requires m.Valid() && IsPower(a) && MIN_CHUNK_SIZE <= a <= 0x8000_0000_0000_0000 && nb % 8 == 0 && MIN_CHUNK_SIZE <= nb
    requires IsLive(m.chunks, mem - 16) && !IsLive(s0.c, mem - 16) && m.chunks[mem - 16].size >= nb + a + MIN_CHUNK_SIZE
    requires Undisturbed(s0, m.S(), mem - 16)
    modifies m
    ensures m.Valid() && r != 0 && r % a == 0 && AlignedBlock(s0, m.S(), r - 16, nb)
  {
    hide Core, PointersOk, ImagesOk, Undisturbed, KeptBut, IsPower;
    ghost var s1 := m.S();
    ghost var p0 := mem - 16;
    UndisturbedIsKept(s0, s1, p0);
    HeadLive(s1, p0);
    var p, leader := SkipLeader(m, mem, a, nb);
    ghost var s2 := m.S();
    KeptButTrans(s0, s1, s2, {p0}, {p0, p});
    if p != p0 { LiveOutside(s0, s1, {p0}, p); }
    HeadLive(s2, p);
    var trailer := CutTrailer(m, p, nb);
    ghost var s3, t := m.S(), if trailer != 0 then trailer - 16 else p;
    KeptButTrans(s0, s2, s3, {p0} + {p0, p}, {p, t});
    if t !in {p0, p} { LiveOutside(s0, s2, {p0} + {p0, p}, t); }
    if leader != 0 { LiveOutside(s2, s3, {p, t}, p0); }
    GiveBack(m, s0, p, p0, t, leader, trailer);
    r := p + 16;
  }

  /** If the block is misaligned, its front is cut off up to an aligned spot. */
  method SkipLeader(m: MallocState, mem: int, a: int, nb: int) returns (p: int, leader: int)
    requires m.Valid() && IsPower(a) && MIN_CHUNK_SIZE <= a <= 0x8000_0000_0000_0000 && MIN_CHUNK_SIZE <= nb
    requires IsLive(m.chunks, mem - 16) && m.chunks[mem - 16].size >= nb + a + MIN_CHUNK_SIZE
    modifies m`mem, m`chunks
    ensures m.Valid() && KeptBut(old(m.S()), m.S(), {mem - 16, p}) && (p + 16) % a == 0
    ensures mem - 16 <= p && IsLive(m.chunks, mem - 16) && IsLive(m.chunks, p) && m.chunks[p].size >= nb
    ensures leader == (if p == mem - 16 then 0 else mem) && (p != mem - 16 ==> !IsLive(old(m.chunks), p))
  {
    hide Core, PointersOk, ImagesOk, KeptBut, And, IsPower;
    p := mem - 16;
    leader := 0;
    ghost var s := m.S();
    BlockBounds(s, p);
    HeadOf(s, p);
    if mem % a != 0 {
      SpotFits(p, m.chunks[p].size, nb, a);
      var br := And((mem + a - 1) % U64, U64 - a) - 16;
      var pos := if br - p >= MIN_CHUNK_SIZE then br else br + a;
      var newp := pos;
      var leadsize := pos - p;
      var newsize := ChunkSize(Rd(m.mem, p + HEAD)) - leadsize;
      CutLive(m, p, leadsize, newsize, true);
      leader := p + 16;
      p := newp;
    } else {
      KeptRefl(s, {p, p});
    }
  }

  lemma KeptRefl(s: State, x: set<int>)
    ensures KeptBut(s, s, x)
  {
  }

  /** Spare room behind the first nb bytes of the block is cut off, if it makes a chunk. */
  method CutTrailer(m: MallocState, p: int, nb: int) returns (trailer: int)
    requires m.Valid() && IsLive(m.chunks, p) && nb % 8 == 0 && MIN_CHUNK_SIZE <= nb <= m.chunks[p].size
    modifies m`mem, m`chunks
    ensures m.Valid() && IsLive(m.chunks, p) && nb <= m.chunks[p].size <= nb + MIN_CHUNK_SIZE
    ensures trailer == 0 || (trailer == p + nb + 16 && IsLive(m.chunks, p + nb) && !IsLive(old(m.chunks), p + nb))
    ensures KeptBut(old(m.S()), m.S(), {p, if trailer != 0 then trailer - 16 else p})
  {
    hide Core, PointersOk, ImagesOk, KeptBut;
    trailer := 0;
    ghost var s := m.S();
    HeadLive(s, p);
    var size := ChunkSize(Rd(m.mem, p + HEAD));
    if size > nb + MIN_CHUNK_SIZE {
      var remainderSize := size - nb;
      var remainder := p + nb;
      CutLive(m, p, nb, remainderSize, false);
      trailer := remainder + 16;
    } else {
      KeptRefl(s, {p, p});
    }
  }

  /** The end of internal_memalign: leader and trailer are released. */
  method GiveBack(m: MallocState, ghost s0: State, ghost p: int, ghost p0: int, ghost t: int, leader: int, trailer: int)
    requires m.Valid() && IsLive(m.chunks, p) && !IsLive(s0.c, p) && !IsLive(s0.c, p0) && !IsLive(s0.c, t)
    requires KeptBut(s0, m.S(), {p0} + {p0, p} + {p, t})
    requires if leader == 0 then p0 == p else leader == p0 + 16 && p0 != p && IsLive(m.chunks, p0)
    requires if trailer == 0 then t == p else trailer == t + 16 && t != p && IsLive(m.chunks, t)
    requires leader != 0 && trailer != 0 ==> p0 != t
    modifies m
    ensures m.Valid() && IsLive(m.chunks, p) && m.chunks[p].size == old(m.chunks)[p].size && Undisturbed(s0, m.S(), p)
  {
    hide Core, PointersOk, ImagesOk, Undisturbed, KeptBut;
    ghost var x := {p0} + {p0, p} + {p, t};
    ghost var s3 := m.S();
    if leader != 0 {
      HeadLive(s3, p0);
      m.Dlfree(leader);
      UndisturbedIsKept(s3, m.S(), p0);
      KeptButTrans(s0, s3, m.S(), x, {p0});
      LiveOutside(s3, m.S(), {p0}, p);
      if trailer != 0 { LiveOutside(s3, m.S(), {p0}, t); }
      assert x + {p0} == x;
    }
    ghost var s4 := m.S();
    if trailer != 0 {
      HeadLive(s4, t);
      m.Dlfree(trailer);
      UndisturbedIsKept(s4, m.S(), t);
      KeptButTrans(s0, s4, m.S(), x, {t});
      LiveOutside(s4, m.S(), {t}, p);
      if leader != 0 { LiveOutside(s4, m.S(), {t}, p0); }
      assert x + {t} == x;
    }
    OnlyTheBlock(s0, m.S(), x, p);
  }

  lemma BlockBounds(s: State, p: int)
    requires Core(s, NOBODY) && IsLive(s.c, p)
    ensures LOW <= p && p % 8 == 0 && p + s.c[p].size < U64 && s.c[p].size % 8 == 0 && !Loose(s.c[p])
    ensures Tiled(s.c, s.segs) && Tagged(s.mem, s.c, s.segs)
  {
    AboveLow(s.c, s.segs, p);
    InsideSegment(s.c, s.segs, p);
    assert ShapeOk(s.c, s.segs, p) && SegmentOk(s.segs, s.c[p].sid);
  }

  lemma HeadLive(s: State, p: int)
    requires Core(s, NOBODY) && IsLive(s.c, p)
    ensures ChunkSize(Rd(s.mem, p + HEAD)) == s.c[p].size && s.c[p].size % 8 == 0 && LOW <= p
  {
    BlockBounds(s, p);
    HeadOf(s, p);
  }
}
