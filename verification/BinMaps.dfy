/** The 32-bit maps that record which bins hold chunks, and the search for the lowest
    non-empty bin above an index. Bitwise operators are defined on natural numbers. */
module BinMaps {
  import opened Bits

  const U32: int := 0x1_0000_0000

  /** a & b */
  function And(a: int, b: int): (r: int)
    requires 0 <= a && 0 <= b
    ensures 0 <= r <= a && r <= b
  {
    if a == 0 || b == 0 then 0 else (if a % 2 == 1 && b % 2 == 1 then 1 else 0) + 2 * And(a / 2, b / 2)
  }

  /** a | b */
  function Or(a: int, b: int): (r: int)
    requires 0 <= a && 0 <= b
    ensures a <= r && b <= r
  {
    if a == 0 then b else if b == 0 then a
    else (if a % 2 == 1 || b % 2 == 1 then 1 else 0) + 2 * Or(a / 2, b / 2)
  }

  /** a & ~b */
  function AndNot(a: int, b: int): (r: int)
    requires 0 <= a && 0 <= b
    ensures 0 <= r <= a
  {
    if a == 0 then 0 else (if a % 2 == 1 && b % 2 == 0 then 1 else 0) + 2 * AndNot(a / 2, b / 2)
  }

  /** Unsigned negation of a 32-bit value. */
  function Neg32(x: int): int
    requires 0 <= x < U32
  {
    if x == 0 then 0 else U32 - x
  }

  /** Bit i of m. */
  predicate Marked(m: int, i: nat)
    requires 0 <= m
  {
    if i == 0 then m % 2 == 1 else Marked(m / 2, i - 1)
  }

  /** idx2bit */
  function Idx2Bit(i: nat): int {
    Scale(1, i)
  }

  /** mark_smallmap, mark_treemap */
  function Mark(m: int, i: nat): (r: int)
    requires 0 <= m
    ensures 0 <= r
  {
    Or(m, Idx2Bit(i))
  }

  /** clear_smallmap, clear_treemap */
  function Clear(m: int, i: nat): (r: int)
    requires 0 <= m
    ensures 0 <= r <= m
  {
    AndNot(m, Idx2Bit(i))
  }

  /** least_bit */
  function LeastBit(x: int): (r: int)
    requires 0 <= x < U32
    ensures 0 <= r
  {
    And(x, Neg32(x))
  }

  /** left_bits */
  function LeftBits(x: int): int
    requires 0 <= x < U32
  {
    var y := 2 * x % U32;
    Or(y, Neg32(y))
  }

  /** y >> s & s for s a power of two: s when bit b of y is set, where s == 2^(step) */
  function Probe(y: int, b: nat, s: int): int
    requires 0 <= y
  {
    if Marked(y, b) then s else 0
  }

  /** The portable compute_bit2idx: halve the range five times, then add the last bit. */
  function Bit2Idx(x: int): int
    requires 0 <= x
  {
    var y0 := (x - 1) % U32;
    var k0 := Probe(y0, 16, 16);
    var y1 := Shr(y0, k0);
    var k1 := Probe(y1, 8, 8);
    var y2 := Shr(y1, k1);
    var k2 := Probe(y2, 4, 4);
    var y3 := Shr(y2, k2);
    var k3 := Probe(y3, 2, 2);
    var y4 := Shr(y3, k3);
    var k4 := Probe(y4, 0, 1);
    var y5 := Shr(y4, k4);
    k0 + k1 + k2 + k3 + k4 + y5
  }

  // ---------- bits of the operators ----------

  lemma {:induction false} AndMarked(a: int, b: int, i: nat)
    requires 0 <= a && 0 <= b
    ensures Marked(And(a, b), i) <==> Marked(a, i) && Marked(b, i)
  {
    if a == 0 || b == 0 {
      ZeroUnmarked(i);
    } else if i > 0 {
      AndMarked(a / 2, b / 2, i - 1);
    }
  }

  lemma {:induction false} OrMarked(a: int, b: int, i: nat)
    requires 0 <= a && 0 <= b
    ensures Marked(Or(a, b), i) <==> Marked(a, i) || Marked(b, i)
  {
    if a == 0 || b == 0 {
      ZeroUnmarked(i);
    } else if i > 0 {
      OrMarked(a / 2, b / 2, i - 1);
    }
  }

  lemma {:induction false} AndNotMarked(a: int, b: int, i: nat)
    requires 0 <= a && 0 <= b
    ensures Marked(AndNot(a, b), i) <==> Marked(a, i) && !Marked(b, i)
  {
    if a == 0 {
      ZeroUnmarked(i);
    } else if i > 0 {
      AndNotMarked(a / 2, b / 2, i - 1);
    }
  }

  lemma {:induction false} ZeroUnmarked(i: nat)
    ensures !Marked(0, i)
  {
    if i > 0 { ZeroUnmarked(i - 1); }
  }

  lemma {:induction false} PowerMarked(i: nat, j: nat)
    ensures Marked(Scale(1, i), j) <==> i == j
  {
    if i == 0 {
      if j > 0 { ZeroUnmarked(j - 1); }
    } else if j > 0 {
      PowerMarked(i - 1, j - 1);
    }
  }

  lemma {:induction false} ShrMarked(m: int, i: nat, j: nat)
    requires 0 <= m
    ensures Marked(Shr(m, i), j) <==> Marked(m, i + j)
  {
    if i > 0 {
      ShrHalf(m, i);
      ShrMarked(m / 2, i - 1, j);
    }
  }

  lemma {:induction false} ShlMarked(m: int, i: nat, j: nat)
    requires 0 <= m < U32
    ensures j < 32 ==> (Marked(Shl32(m, i), j) <==> i <= j && Marked(m, j - i))
  {
    if i > 0 && j < 32 {
      var p := Shl32(m, i - 1);
      if j == 0 {
        assert Shl32(m, i) % 2 == 0;
      } else {
        ShlMarked(m, i - 1, j - 1);
        assert Shl32(m, i) / 2 == p % 0x8000_0000;
        LowBits(p, j - 1);
      }
    }
  }

  lemma LowBits(p: int, j: nat)
    requires 0 <= p < U32 && j < 31
    ensures Marked(p % 0x8000_0000, j) <==> Marked(p, j)
  {
    if p >= 0x8000_0000 {
      Scale31();
      AddHigh(p - 0x8000_0000, 31, j);
    }
  }

  lemma Scale31()
    ensures Scale(1, 31) == 0x8000_0000
  {
    assert Scale(1, 7) == 128;
    assert Scale(1, 13) == 8192;
    assert Scale(1, 19) == 524288;
    assert Scale(1, 25) == 33554432;
  }

  lemma Scale32()
    ensures Scale(1, 32) == U32
  {
    Scale31();
  }

  lemma {:induction false} AddHigh(low: int, n: nat, j: nat)
    requires 0 <= low && j < n
    ensures Marked(low + Scale(1, n), j) <==> Marked(low, j)
  {
    if j > 0 {
      assert (low + Scale(1, n)) / 2 == low / 2 + Scale(1, n - 1);
      AddHigh(low / 2, n - 1, j - 1);
    }
  }

  lemma {:induction false} HighUnmarked(m: int, w: nat, i: nat)
    requires 0 <= m < Scale(1, w) && w <= i
    ensures !Marked(m, i)
  {
    if w == 0 {
      ZeroUnmarked(i);
    } else {
      HighUnmarked(m / 2, w - 1, i - 1);
    }
  }

  /** A map is zero exactly when no index is marked. */
  lemma EmptyMap(m: int)
    requires 0 <= m < U32
    ensures m == 0 ==> forall j: nat {:trigger Marked(m, j)} :: j < 32 ==> !Marked(m, j)
    ensures m != 0 ==> exists j: nat {:trigger Marked(m, j)} :: j < 32 && Marked(m, j)
  {
    Scale32();
    if m == 0 {
      forall j: nat | j < 32
        ensures !Marked(m, j)
      {
        ZeroUnmarked(j);
      }
    } else {
      LowestIsLowest(m, 32);
      var i := Lowest(m);
      assert i < 32 && Marked(m, i);
    }
  }

  /** Marking or clearing an index changes that index alone, and stays within 32 bits. */
  lemma MarkClear(m: int, i: nat)
    requires 0 <= m < U32 && i < 32
    ensures Mark(m, i) < U32
    ensures forall j: nat {:trigger Marked(Mark(m, i), j)} :: Marked(Mark(m, i), j) <==> Marked(m, j) || i == j
    ensures forall j: nat {:trigger Marked(Clear(m, i), j)} :: Marked(Clear(m, i), j) <==> Marked(m, j) && i != j
  {
    forall j: nat
      ensures Marked(Mark(m, i), j) <==> Marked(m, j) || i == j
      ensures Marked(Clear(m, i), j) <==> Marked(m, j) && i != j
    {
      OrMarked(m, Scale(1, i), j);
      AndNotMarked(m, Scale(1, i), j);
      PowerMarked(i, j);
    }
    Scale32();
    ScaleUpTo(i, 31);
    OrBound(m, Scale(1, i), 32);
  }

  lemma {:induction false} ScaleUpTo(i: nat, j: nat)
    requires i <= j
    ensures Scale(1, i) <= Scale(1, j)
  {
    if i < j { ScaleUpTo(i, j - 1); }
  }

  lemma {:induction false} OrBound(a: int, b: int, w: nat)
    requires 0 <= a < Scale(1, w) && 0 <= b < Scale(1, w)
    ensures Or(a, b) < Scale(1, w)
  {
    if a != 0 && b != 0 { OrBound(a / 2, b / 2, w - 1); }
  }

  // ---------- the least bit ----------

  /** Index of the lowest set bit. */
  function Lowest(x: int): nat
    requires 1 <= x
  {
    if x % 2 == 1 then 0 else 1 + Lowest(x / 2)
  }

  lemma {:induction false} LowestIsLowest(x: int, w: nat)
    requires 1 <= x < Scale(1, w)
    ensures Lowest(x) < w && Marked(x, Lowest(x))
    ensures forall j: nat {:trigger Marked(x, j)} :: j < Lowest(x) ==> !Marked(x, j)
  {
    if x % 2 == 0 {
      LowestIsLowest(x / 2, w - 1);
      forall j: nat | j < Lowest(x)
        ensures !Marked(x, j)
      {
        if j > 0 { assert !Marked(x / 2, j - 1); }
      }
    }
  }

  /** A value and its complement share no bit. */
  lemma {:induction false} Complement(h: int, w: nat)
    requires 0 <= h < Scale(1, w)
    ensures And(h, Scale(1, w) - 1 - h) == 0
  {
    if w > 0 && h != 0 {
      assert (Scale(1, w) - 1 - h) / 2 == Scale(1, w - 1) - 1 - h / 2;
      Complement(h / 2, w - 1);
    }
  }

  lemma {:induction false} LeastBitAt(x: int, w: nat)
    requires 1 <= x < Scale(1, w)
    ensures And(x, Scale(1, w) - x) == Scale(1, Lowest(x))
  {
    if x % 2 == 0 {
      assert (Scale(1, w) - x) / 2 == Scale(1, w - 1) - x / 2;
      LeastBitAt(x / 2, w - 1);
    } else {
      assert (Scale(1, w) - x) / 2 == Scale(1, w - 1) - 1 - x / 2;
      Complement(x / 2, w - 1);
    }
  }

  lemma ScaleBelow(i: nat)
    requires i < 32
    ensures 1 <= Scale(1, i) < U32
  {
    ScaleUpTo(i, 31);
    Scale31();
  }

  /** One halving step on y == 2^i - 1: remove s from i when i > s. */
  lemma ProbeStep(i: nat, s: nat) returns (i': nat)
    ensures i' == if i > s then i - s else i
    ensures Shr(Scale(1, i) - 1, Probe(Scale(1, i) - 1, s, s)) == Scale(1, i') - 1
    ensures i' + Probe(Scale(1, i) - 1, s, s) == i
  {
    i' := if i > s then i - s else i;
    OnesMarked(i, s);
    OnesShr(i, i - i');
  }

  lemma {:induction false} OnesMarked(i: nat, b: nat)
    ensures Marked(Scale(1, i) - 1, b) <==> i > b
  {
    if i == 0 {
      ZeroUnmarked(b);
    } else if b > 0 {
      OnesMarked(i - 1, b - 1);
    }
  }

  lemma {:induction false} OnesShr(i: nat, s: nat)
    requires s <= i
    ensures Shr(Scale(1, i) - 1, s) == Scale(1, i - s) - 1
  {
    if s > 0 { OnesShr(i, s - 1); }
  }

  /** compute_bit2idx inverts idx2bit. */
  lemma Bit2IdxInverse(i: nat)
    requires i < 32
    ensures Bit2Idx(Idx2Bit(i)) == i
  {
    hide Scale, Shr, Marked, Probe;
    ScaleBelow(i);
    var i1 := ProbeStep(i, 16);
    var i2 := ProbeStep(i1, 8);
    var i3 := ProbeStep(i2, 4);
    var i4 := ProbeStep(i3, 2);
    LastProbe(i4);
  }

  lemma LastProbe(i: nat)
    requires i <= 2
    ensures var y := Scale(1, i) - 1; Probe(y, 0, 1) + Shr(y, Probe(y, 0, 1)) == i
  {
    assert Scale(1, 0) == 1;
    assert Scale(1, 1) == 2;
    assert Shr(1, 0) == 1 && Shr(3, 0) == 3;
    assert Shr(1, 1) == 0 && Shr(3, 1) == 1;
  }

  /** least_bit followed by compute_bit2idx finds the lowest marked index. */
  lemma LowestMarked(m: int)
    requires 1 <= m < U32
    ensures var i := Bit2Idx(LeastBit(m));
            && 0 <= i < 32 && Marked(m, i)
            && forall j: nat {:trigger Marked(m, j)} :: j < i ==> !Marked(m, j)
  {
    Scale32();
    LeastBitAt(m, 32);
    LowestIsLowest(m, 32);
    Bit2IdxInverse(Lowest(m));
  }

  // ---------- the bits to the left ----------

  lemma {:induction false} RunMarked(w: nat, k: nat, j: nat)
    requires k <= w
    ensures Scale(1, k) <= Scale(1, w)
    ensures Marked(Scale(1, w) - Scale(1, k), j) <==> k <= j < w
  {
    ScaleUpTo(k, w);
    var v := Scale(1, w) - Scale(1, k);
    if k == 0 {
      OnesMarked(w, j);
    } else if j > 0 {
      assert v / 2 == Scale(1, w - 1) - Scale(1, k - 1);
      RunMarked(w - 1, k - 1, j - 1);
    }
  }

  /** left_bits of a power of two, as an arithmetic difference. */
  lemma LeftBitsValue(i: nat)
    requires i < 31
    ensures 0 <= Idx2Bit(i) < U32 && 0 <= Idx2Bit(i + 1) < U32
    ensures LeftBits(Idx2Bit(i)) == Or(Idx2Bit(i + 1), U32 - Idx2Bit(i + 1))
  {
    hide Or;
    ScaleBelow(i);
    ScaleBelow(i + 1);
  }

  lemma LeftBitsMarked(i: nat, j: nat)
    requires i < 32 && j < 32
    ensures 0 <= Idx2Bit(i) < U32 && 0 <= LeftBits(Idx2Bit(i))
    ensures Marked(LeftBits(Idx2Bit(i)), j) <==> i < j
  {
    hide *;
    LeftBitsDefined(i);
    if i == 31 {
      LeftBitsLast();
      ZeroUnmarked(j);
    } else {
      LeftBitsValue(i);
      OrMarked(Idx2Bit(i + 1), U32 - Idx2Bit(i + 1), j);
      Idx2BitDef(i + 1);
      PowerMarked(i + 1, j);
      Scale32();
      RunMarked(32, i + 1, j);
    }
  }

  lemma Idx2BitDef(i: nat)
    ensures Idx2Bit(i) == Scale(1, i)
  {
  }

  lemma LeftBitsLast()
    ensures 0 <= Idx2Bit(31) < U32 && LeftBits(Idx2Bit(31)) == 0
  {
    Scale31();
  }

  lemma LeftBitsDefined(i: nat)
    requires i < 32
    ensures 0 <= Idx2Bit(i) < U32 && 0 <= LeftBits(Idx2Bit(i))
  {
    ScaleBelow(i);
  }

  lemma LowestAbove(left: int, m: int, i: nat)
    requires 0 <= left < U32 && 0 <= m && i < 32
    requires forall j: nat {:trigger Marked(left, j)} :: j < 32 ==> (Marked(left, j) <==> i < j && Marked(m, j))
    ensures if left == 0 then forall j: nat {:trigger Marked(m, j)} :: i < j < 32 ==> !Marked(m, j)
            else var k := Bit2Idx(LeastBit(left));
              && i < k < 32 && Marked(m, k)
              && forall j: nat {:trigger Marked(m, j)} :: i < j < k ==> !Marked(m, j)
  {
    hide Marked, Bit2Idx, LeastBit;
    EmptyMap(left);
    if left == 0 {
      forall j: nat | i < j < 32
        ensures !Marked(m, j)
      {
        assert !Marked(left, j);
      }
    } else {
      LowestMarked(left);
      var k := Bit2Idx(LeastBit(left));
      forall j: nat | i < j < k
        ensures !Marked(m, j)
      {
        assert !Marked(left, j);
      }
    }
  }

  /** left_bits, least_bit and compute_bit2idx together find the lowest marked index
      strictly above i, and the masked map is zero exactly when there is none. */
  lemma NextMarked(m: int, i: nat)
    requires 0 <= m < U32 && i < 32
    ensures 0 <= Idx2Bit(i) < U32 && 0 <= LeftBits(Idx2Bit(i))
    ensures var left := And(LeftBits(Idx2Bit(i)), m);
            && left < U32
            && if left == 0 then forall j: nat {:trigger Marked(m, j)} :: i < j < 32 ==> !Marked(m, j)
               else var k := Bit2Idx(LeastBit(left));
                 && i < k < 32 && Marked(m, k)
                 && forall j: nat {:trigger Marked(m, j)} :: i < j < k ==> !Marked(m, j)
  {
    hide Marked, Bit2Idx, LeastBit, And, LeftBits, Idx2Bit;
    LeftBitsDefined(i);
    var left := And(LeftBits(Idx2Bit(i)), m);
    forall j: nat | j < 32
      ensures Marked(left, j) <==> i < j && Marked(m, j)
    {
      AndMarked(LeftBits(Idx2Bit(i)), m, j);
      LeftBitsMarked(i, j);
    }
    LowestAbove(left, m, i);
  }

  // ---------- the shifted small map ----------

  /** The two low bits of the shifted map tell whether the bin itself or the next is marked. */
  lemma ShiftedLowBits(m: int, i: nat)
    requires 0 <= m < U32 && i < 32
    ensures Shr(m, i) % 2 == 1 <==> Marked(m, i)
    ensures And(Shr(m, i), 3) != 0 <==> Marked(m, i) || Marked(m, i + 1)
    ensures Shr(m, i) != 0 <==> exists j: nat {:trigger Marked(m, j)} :: i <= j < 32 && Marked(m, j)
  {
    var s := Shr(m, i);
    ShrMarked(m, i, 0);
    ShrMarked(m, i, 1);
    assert And(s, 3) != 0 <==> Marked(s, 0) || Marked(s, 1) by { AndThree(s); }
    EmptyMap(s);
    Scale32();
    if s != 0 {
      LowestIsLowest(s, 32);
      var j := i + Lowest(s);
      ShrMarked(m, i, Lowest(s));
      if j >= 32 { HighUnmarked(m, 32, j); }
      assert i <= j < 32 && Marked(m, j);
    } else {
      forall j: nat | i <= j < 32
        ensures !Marked(m, j)
      {
        ShrMarked(m, i, j - i);
        ZeroUnmarked(j - i);
      }
    }
  }

  lemma AndThree(s: int)
    requires 0 <= s
    ensures And(s, 3) != 0 <==> Marked(s, 0) || Marked(s, 1)
  {
    assert And(s / 2, 1) == s / 2 % 2 by {
      assert And(s / 2 / 2, 0) == 0;
    }
    assert Marked(s, 1) <==> Marked(s / 2, 0);
  }

  /** The search for the next non-empty small bin, done on the shifted map. */
  lemma NextMarkedShifted(m: int, i: nat)
    requires 0 <= m < U32 && i < 32
    ensures 0 <= Idx2Bit(i) < U32 && 0 <= LeftBits(Idx2Bit(i))
    ensures var left := And(Shl32(Shr(m, i), i), LeftBits(Idx2Bit(i)));
            && left < U32
            && if left == 0 then forall j: nat {:trigger Marked(m, j)} :: i < j < 32 ==> !Marked(m, j)
               else var k := Bit2Idx(LeastBit(left));
                 && i < k < 32 && Marked(m, k)
                 && forall j: nat {:trigger Marked(m, j)} :: i < j < k ==> !Marked(m, j)
  {
    hide Marked, Bit2Idx, LeastBit, And, LeftBits, Idx2Bit;
    LeftBitsDefined(i);
    var back := Shl32(Shr(m, i), i);
    var left := And(back, LeftBits(Idx2Bit(i)));
    forall j: nat | j < 32
      ensures Marked(left, j) <==> i < j && Marked(m, j)
    {
      AndMarked(back, LeftBits(Idx2Bit(i)), j);
      LeftBitsMarked(i, j);
      if i < j {
        ShlMarked(Shr(m, i), i, j);
        ShrMarked(m, i, j - i);
      }
    }
    LowestAbove(left, m, i);
  }
}
