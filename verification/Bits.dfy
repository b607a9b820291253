/** Bit arithmetic of the tree bins: the bin index of a size, the order in which a trie
    inspects the bits of a size, and the prefix of a size that a trie position fixes. */
module Bits {
  import opened Words

  /** s >> e */
  function Shr(s: int, e: nat): (r: int)
    requires 0 <= s
    ensures 0 <= r <= s
  {
    if e == 0 then s else Shr(s, e - 1) / 2
  }

  /** s << e, without a register width */
  function Scale(s: int, e: nat): (r: int)
    requires 0 <= s
    ensures s <= r
  {
    if e == 0 then s else 2 * Scale(s, e - 1)
  }

  /** s << e in a 32-bit unsigned register */
  function Shl32(s: int, e: nat): int
    requires 0 <= s
    ensures 0 <= Shl32(s, e)
  {
    if e == 0 then s else 2 * Shl32(s, e - 1) % 0x1_0000_0000
  }

  /** s << e in a 64-bit unsigned register */
  function Shl64(s: int, e: nat): int
    requires 0 <= s
    ensures 0 <= Shl64(s, e)
  {
    if e == 0 then s else 2 * Shl64(s, e - 1) % U64
  }

  lemma {:induction false} ShrAdd(s: int, d: nat, e: nat)
    requires 0 <= s
    ensures Shr(Shr(s, d), e) == Shr(s, d + e)
  {
    if e > 0 { ShrAdd(s, d, e - 1); }
  }

  lemma {:induction false} ScaleAdd(s: int, d: nat, e: nat)
    requires 0 <= s
    ensures Scale(Scale(s, d), e) == Scale(s, d + e)
  {
    if e > 0 { ScaleAdd(s, d, e - 1); }
  }

  lemma {:induction false} ScaleSum(a: int, b: int, e: nat)
    requires 0 <= a && 0 <= b
    ensures Scale(a + b, e) == Scale(a, e) + Scale(b, e)
  {
    if e > 0 { ScaleSum(a, b, e - 1); }
  }

  lemma {:induction false} ShrMonotone(a: int, b: int, e: nat)
    requires 0 <= a <= b
    ensures Shr(a, e) <= Shr(b, e)
  {
    if e > 0 { ShrMonotone(a, b, e - 1); }
  }

  /** Comparing a shifted value with v is comparing the value with v << e. */
  lemma {:induction false} ShrBound(s: int, e: nat, v: int)
    requires 0 <= s && 0 <= v
    ensures Shr(s, e) >= v <==> s >= Scale(v, e)
    decreases e
  {
    if e > 0 {
      ShrBound(s, e - 1, 2 * v);
      ScaleAdd(v, 1, e - 1);
      assert Scale(v, 1) == 2 * Scale(v, 0);
    }
  }

  // ---------- compute_tree_index ----------

  /** (((y) - c) >> 16) & m in 32-bit unsigned arithmetic, for m one of 8, 4, 2 */
  function Borrow(y: int, c: int, m: int): int
    requires m > 0
  {
    (y - c) % 0x1_0000_0000 / 65536 / m % 2 * m
  }

  /** The branch-free macro. */
  function ComputeTreeIndex(s: int): int
    requires 0 <= s
  {
    var x := s / 256;
    if x == 0 then 0
    else if x > 0xFFFF then 31
    else
      var n0 := Borrow(x, 0x100, 8);
      var y0 := Shl32(x, n0);
      var k1 := Borrow(y0, 0x1000, 4);
      var y1 := Shl32(y0, k1);
      var k2 := Borrow(y1, 0x4000, 2);
      var y2 := Shl32(y1, k2);
      var k := 14 - (n0 + k1 + k2) + y2 / 32768;
      2 * k + Shr(s, k + 7) % 2
  }

  /** Floor of the binary logarithm. */
  function Log2(x: int): (r: nat)
    requires x >= 1
  {
    if x == 1 then 0 else 1 + Log2(x / 2)
  }

  lemma ShrOne(s: int)
    requires 0 <= s
    ensures Shr(s, 1) == s / 2
  {
    assert Shr(s, 0) == s;
  }

  lemma {:induction false} Log2Shr(x: int)
    requires x >= 1
    ensures Shr(x, Log2(x)) == 1
  {
    if x > 1 {
      Log2Shr(x / 2);
      ShrOne(x);
      ShrAdd(x, 1, Log2(x / 2));
    }
  }

  lemma {:induction false} Log2Unique(x: int, k: nat)
    requires x >= 1 && Shr(x, k) == 1
    ensures k == Log2(x)
  {
    if x > 1 && k > 0 {
      ShrOne(x);
      ShrAdd(x, 1, k - 1);
      Log2Unique(x / 2, k - 1);
    }
  }

  /** Twice the floor logarithm of the size over 256, plus the next lower bit, capped at 31. */
  function TreeIndex(s: int): int
    requires 0 <= s
  {
    var x := s / 256;
    if x == 0 then 0
    else if x > 0xFFFF then 31
    else 2 * Log2(x) + Shr(s, Log2(x) + 7) % 2
  }

  lemma BorrowTests(y: int, c: int, m: int)
    requires 0 <= y <= 0xFFFF && 0 < c <= 0x10000
    requires m == 8 || m == 4 || m == 2
    ensures Borrow(y, c, m) == if y < c then m else 0
  {
  }

  lemma {:induction false} Shl32Small(y: int, m: nat)
    requires 0 <= y && Scale(y, m) < 0x1_0000_0000
    ensures Shl32(y, m) == Scale(y, m)
  {
    if m > 0 { Shl32Small(y, m - 1); }
  }

  lemma ScaleConstants(y: int)
    requires 0 <= y
    ensures Scale(y, 0) == y && Scale(y, 2) == 4 * y && Scale(y, 4) == 16 * y && Scale(y, 8) == 256 * y
  {
    assert Scale(y, 1) == 2 * y;
    assert Scale(y, 3) == 8 * y;
    assert Scale(y, 5) == 32 * y;
    assert Scale(y, 6) == 64 * y;
    assert Scale(y, 7) == 128 * y;
  }

  /** One conditional left shift: y stays x shifted by the running total and reaches at least c. */
  lemma NormalizeStep(x: int, n: nat, y: int, low: int, c: int, m: nat) returns (k: nat, y': int)
    requires 1 <= x && y == Scale(x, n) && low <= y <= 0xFFFF
    requires (low == 1 && c == 0x100 && m == 8) || (low == 0x100 && c == 0x1000 && m == 4)
          || (low == 0x1000 && c == 0x4000 && m == 2)
    ensures k == Borrow(y, c, m) && (k == 0 || k == m)
    ensures y' == Shl32(y, k) && y' == Scale(x, n + k) && c <= y' <= 0xFFFF
  {
    BorrowTests(y, c, m);
    k := Borrow(y, c, m);
    ScaleConstants(y);
    y' := Scale(y, k);
    Shl32Small(y, k);
    ScaleAdd(x, n, k);
  }

  /** The value k found by three conditional left shifts and a final carry is the logarithm. */
  lemma TopBitFound(x: int, n: nat, y2: int)
    requires 1 <= x && n <= 14
    requires y2 == Scale(x, n) && 0x4000 <= y2 <= 0xFFFF
    ensures 14 - n + y2 / 32768 == Log2(x)
  {
    var k := 14 - n + y2 / 32768;
    ShrScale(x, n);
    ShrAdd(y2, n, k);
    Shr14(y2);
    assert Shr(x, k) == Shr(y2, n + k);
    Log2Unique(x, k);
  }

  lemma {:induction false} ShrScale(x: int, n: nat)
    requires 0 <= x
    ensures Shr(Scale(x, n), n) == x
  {
    if n > 0 {
      ShrScale(x, n - 1);
      ShrOne(Scale(x, n));
      ShrAdd(Scale(x, n), 1, n - 1);
    }
  }

  lemma Shr14(y: int)
    requires 0x4000 <= y <= 0xFFFF
    ensures Shr(y, 14 + y / 32768) == 1
  {
    Shr8(y);
    assert Shr(y, 9) == y / 512;
    assert Shr(y, 10) == y / 1024;
    assert Shr(y, 11) == y / 2048;
    assert Shr(y, 12) == y / 4096;
    assert Shr(y, 13) == y / 8192;
    assert Shr(y, 14) == y / 16384;
    assert Shr(y, 15) == y / 32768;
  }

  /** The branch-free macro computes the tree index. */
  lemma ComputeTreeIndexCorrect(s: int)
    requires 0 <= s
    ensures ComputeTreeIndex(s) == TreeIndex(s)
  {
    hide Borrow, Shl32, Scale, Shr, Log2;
    var x := s / 256;
    if 0 < x <= 0xFFFF {
      ScaleConstants(x);
      var n0, y0 := NormalizeStep(x, 0, x, 1, 0x100, 8);
      var k1, y1 := NormalizeStep(x, n0, y0, 0x100, 0x1000, 4);
      var k2, y2 := NormalizeStep(x, n0 + k1, y1, 0x1000, 0x4000, 2);
      TopBitFound(x, n0 + k1 + k2, y2);
    }
  }

  // ---------- bounds of a tree bin ----------

  /** minsize_for_tree_index */
  function MinSizeForTreeIndex(i: int): int
    requires 0 <= i
  {
    Scale(1, i / 2 + 8) + Scale(i % 2, i / 2 + 7)
  }

  lemma MinSizeAsShift(i: int)
    requires 0 <= i
    ensures MinSizeForTreeIndex(i) == Scale(2 + i % 2, i / 2 + 7)
  {
    ScaleAdd(1, 1, i / 2 + 7);
    assert Scale(1, 1) == 2 * Scale(1, 0);
    ScaleSum(2, i % 2, i / 2 + 7);
  }

  lemma ScaleTwo()
    ensures Scale(2, 1) == 4
  {
    assert Scale(2, 0) == 2;
  }

  lemma NextMinSize(i: int)
    requires 0 <= i
    ensures MinSizeForTreeIndex(i + 1) == Scale(3 + i % 2, i / 2 + 7)
  {
    hide Scale;
    MinSizeAsShift(i + 1);
    if i % 2 == 1 {
      ScaleAdd(2, 1, i / 2 + 7);
      ScaleTwo();
    }
  }

  lemma {:induction false} Log2Upper(x: int, k: nat)
    requires x >= 1 && x < Scale(2, k)
    ensures Log2(x) <= k
  {
    if k > 0 && x > 1 { Log2Upper(x / 2, k - 1); }
  }

  lemma Shr8(s: int)
    requires 0 <= s
    ensures Shr(s, 8) == s / 256
  {
    assert Shr(s, 0) == s;
    assert Shr(s, 1) == s / 2;
    assert Shr(s, 2) == s / 4;
    assert Shr(s, 3) == s / 8;
    assert Shr(s, 4) == s / 16;
    assert Shr(s, 5) == s / 32;
    assert Shr(s, 6) == s / 64;
    assert Shr(s, 7) == s / 128;
  }

  lemma Scale2At15()
    ensures Scale(2, 15) == 0x10000
  {
    assert Scale(2, 3) == 16 && Scale(2, 7) == 256 && Scale(2, 11) == 4096;
  }

  /** The bits of a size above the ones its bin leaves open. */
  lemma TreeIndexTop(s: int)
    requires MIN_LARGE_SIZE <= s
    ensures 0 <= TreeIndex(s) < 32
    ensures s / 256 <= 0xFFFF ==>
              var i := TreeIndex(s); i / 2 == Log2(s / 256) && Shr(s, i / 2 + 7) == 2 + i % 2
  {
    var x := s / 256;
    if x <= 0xFFFF {
      var k := Log2(x);
      Scale2At15();
      Log2Upper(x, 15);
      Log2Shr(x);
      Shr8(s);
      ShrAdd(s, 8, k);
      assert Shr(s, k + 8) == Shr(s, k + 7) / 2;
    }
  }

  /** Every large size lies between the least size of its bin and that of the next bin. */
  lemma TreeIndexBounds(s: int)
    requires MIN_LARGE_SIZE <= s
    ensures 0 <= TreeIndex(s) < 32
    ensures MinSizeForTreeIndex(TreeIndex(s)) <= s
    ensures TreeIndex(s) < 31 ==> s < MinSizeForTreeIndex(TreeIndex(s) + 1)
  {
    hide Shr, Scale, Log2, MinSizeForTreeIndex;
    TreeIndexTop(s);
    var i := TreeIndex(s);
    MinSizeAsShift(i);
    if s / 256 <= 0xFFFF {
      var e := i / 2 + 7;
      ShrBound(s, e, 2 + i % 2);
      ShrBound(s, e, 3 + i % 2);
      NextMinSize(i);
    } else {
      assert i == 31;
      MinSizeOfLastBin();
    }
  }

  lemma Scale3At22()
    ensures Scale(3, 22) == 0xC0_0000
  {
    assert Scale(3, 2) == 12;
    assert Scale(3, 6) == 192;
    assert Scale(3, 10) == 3072;
    assert Scale(3, 14) == 49152;
    assert Scale(3, 18) == 786432;
  }

  lemma MinSizeOfLastBin()
    ensures MinSizeForTreeIndex(31) == 0xC0_0000
  {
    hide Scale;
    MinSizeAsShift(31);
    Scale3At22();
  }

  /** A larger bin index means a larger size. */
  lemma TreeIndexMonotone(a: int, b: int)
    requires MIN_LARGE_SIZE <= a && MIN_LARGE_SIZE <= b
    requires TreeIndex(a) < TreeIndex(b)
    ensures a < b
  {
    hide Shr, Log2;
    TreeIndexTop(a);
    TreeIndexTop(b);
    if b <= a && a / 256 <= 0xFFFF {
      var i, j := TreeIndex(a), TreeIndex(b);
      ShrMonotone(b, a, j / 2 + 7);
      if i / 2 < j / 2 {
        var d := j / 2 - i / 2;
        ShrAdd(a, i / 2 + 7, d);
        ShrThree(Shr(a, i / 2 + 7), d);
      }
      assert false;
    }
  }

  lemma {:induction false} ShrThree(v: int, e: nat)
    requires 0 <= v <= 3 && e >= 1
    ensures Shr(v, e) <= 1
  {
    if e > 1 { ShrThree(v, e - 1); } else { ShrOne(v); }
  }

  // ---------- trie positions ----------

  /** The number of the bit that the root of the trie in bin i inspects. */
  function TopBit(i: int): (r: nat)
    requires 0 <= i < 32
    ensures r <= 63
  {
    if i == 31 then 63 else i / 2 + 6
  }

  /** leftshift_for_tree_index */
  function LeftShift(i: int): nat
    requires 0 <= i < 32
  {
    if i == 31 then 0 else 63 - (i / 2 + 6)
  }

  /** The part of a size that is fixed by a position at depth d in the trie of bin i. */
  function Pfx(s: int, i: int, d: nat): (r: int)
    requires 0 <= s && 0 <= i < 32
    ensures 0 <= r <= s
  {
    if d > TopBit(i) then s else Shr(s, TopBit(i) + 1 - d)
  }

  /** The bit of a size that a node at depth d in the trie of bin i inspects. */
  function Bit(s: int, i: int, d: nat): (r: int)
    requires 0 <= s && 0 <= i < 32
    ensures 0 <= r <= 1
  {
    if d > TopBit(i) then 0 else Shr(s, TopBit(i) - d) % 2
  }

  lemma PfxStep(s: int, i: int, d: nat)
    requires 0 <= s && 0 <= i < 32 && d <= TopBit(i)
    ensures Pfx(s, i, d + 1) == 2 * Pfx(s, i, d) + Bit(s, i, d)
  {
  }

  lemma {:induction false} PfxShorter(s: int, t: int, i: int, d: nat, e: nat)
    requires 0 <= s && 0 <= t && 0 <= i < 32 && e <= d
    requires Pfx(s, i, d) == Pfx(t, i, d)
    ensures Pfx(s, i, e) == Pfx(t, i, e)
  {
    if e < d {
      if d <= TopBit(i) + 1 {
        PfxStep(s, i, d - 1);
        PfxStep(t, i, d - 1);
        PfxShorter(s, t, i, d - 1, e);
      }
    }
  }

  lemma PfxMonotone(s: int, t: int, i: int, d: nat)
    requires 0 <= s <= t && 0 <= i < 32
    ensures Pfx(s, i, d) <= Pfx(t, i, d)
  {
    if d <= TopBit(i) { ShrMonotone(s, t, TopBit(i) + 1 - d); }
  }

  /** All sizes of one bin share the empty prefix. */
  lemma PfxRoot(s: int, t: int, i: int)
    requires MIN_LARGE_SIZE <= s < U64 && MIN_LARGE_SIZE <= t < U64
    requires 0 <= i < 32 && TreeIndex(s) == i && TreeIndex(t) == i
    ensures Pfx(s, i, 0) == Pfx(t, i, 0)
  {
    hide Log2;
    TreeIndexTop(s);
    TreeIndexTop(t);
    if i == 31 {
      Scale64();
      ShrBound(s, 64, 1);
      ShrBound(t, 64, 1);
    }
  }

  lemma Scale64()
    ensures Scale(1, 64) == U64
  {
    assert Scale(1, 4) == 16 && Scale(1, 8) == 256 && Scale(1, 12) == 4096 && Scale(1, 16) == 0x1_0000;
    assert Scale(1, 20) == 0x10_0000 && Scale(1, 24) == 0x100_0000 && Scale(1, 28) == 0x1000_0000;
    assert Scale(1, 32) == 0x1_0000_0000 && Scale(1, 36) == 0x10_0000_0000 && Scale(1, 40) == 0x100_0000_0000;
    assert Scale(1, 44) == 0x1000_0000_0000 && Scale(1, 48) == 0x1_0000_0000_0000;
    assert Scale(1, 52) == 0x10_0000_0000_0000 && Scale(1, 56) == 0x100_0000_0000_0000;
    assert Scale(1, 60) == 0x1000_0000_0000_0000;
  }

  // ---------- the shifting copy of a size ----------

  /** (k >> 63) & 1 */
  function SignBit(k: int): int {
    k / 0x8000_0000_0000_0000 % 2
  }

  /** k <<= 1 */
  function Double(k: int): int {
    2 * k % U64
  }

  /** The register k holds s with the bit inspected at depth d on top. */
  ghost predicate Aligned(k: int, s: int, i: int, d: nat)
    requires 0 <= s && 0 <= i < 32
  {
    k == Shl64(s, LeftShift(i) + d)
  }

  lemma {:induction false} Shl64Bit(s: int, n: nat, j: nat)
    requires 0 <= s < U64 && n <= j <= 63
    ensures Shr(Shl64(s, n), j) % 2 == Shr(s, j - n) % 2
  {
    if n > 0 {
      var k := Shl64(s, n - 1);
      Shl64Bit(s, n - 1, j - 1);
      Shl64Range(s, n - 1);
      DoubleBit(k, j);
    }
  }

  lemma Shl64Range(s: int, n: nat)
    requires 0 <= s < U64
    ensures 0 <= Shl64(s, n) < U64
  {
  }

  lemma DoubleBit(k: int, j: nat)
    requires 0 <= k < U64 && 1 <= j <= 63
    ensures Shr(Double(k), j) % 2 == Shr(k, j - 1) % 2
  {
    hide Shr, Scale;
    var low := k % 0x8000_0000_0000_0000;
    assert Double(k) == 2 * low;
    ShrHalf(2 * low, j);
    if k != low {
      assert k == low + 0x8000_0000_0000_0000;
      Scale63();
      DropTop(low, 63, j - 1);
    }
  }

  lemma Scale63()
    ensures Scale(1, 63) == 0x8000_0000_0000_0000
  {
    Scale64();
    assert Scale(1, 64) == 2 * Scale(1, 63);
  }

  lemma ShrHalf(s: int, j: nat)
    requires 0 <= s && j >= 1
    ensures Shr(s, j) == Shr(s / 2, j - 1)
  {
    ShrOne(s);
    ShrAdd(s, 1, j - 1);
  }

  /** Adding bit n does not change any bit below it. */
  lemma {:induction false} DropTop(low: int, n: nat, j: nat)
    requires 0 <= low && j < n
    ensures Shr(low + Scale(1, n), j) % 2 == Shr(low, j) % 2
  {
    if j == 0 {
      assert Scale(1, n) == 2 * Scale(1, n - 1);
    } else {
      var v := low + Scale(1, n);
      var h := low / 2;
      assert v / 2 == h + Scale(1, n - 1) by { assert Scale(1, n) == 2 * Scale(1, n - 1); }
      ShrHalf(v, j);
      ShrHalf(low, j);
      DropTop(h, n - 1, j - 1);
    }
  }

  lemma ScaleOne()
    ensures Scale(1, 1) == 2
  {
    assert Scale(1, 0) == 1;
  }

  lemma ShrTop(k: int)
    requires 0 <= k < U64
    ensures Shr(k, 63) == k / 0x8000_0000_0000_0000
  {
    hide Shr, Scale;
    Scale63();
    Scale64();
    ShrBound(k, 63, 1);
    ShrBound(k, 63, 2);
    ScaleAdd(1, 1, 63);
    ScaleOne();
  }

  /** leftshift_for_tree_index puts the first undecided bit on top, and each doubling
      brings up the bit that the next level of the trie inspects. */
  lemma AlignedSignBit(k: int, s: int, i: int, d: nat)
    requires 0 <= s < U64 && 0 <= i < 32 && d <= TopBit(i)
    requires Aligned(k, s, i, d)
    ensures SignBit(k) == Bit(s, i, d)
    ensures Aligned(Double(k), s, i, d + 1)
  {
    Shl64Range(s, LeftShift(i) + d);
    Shl64Bit(s, LeftShift(i) + d, 63);
    ShrTop(k);
  }
}
