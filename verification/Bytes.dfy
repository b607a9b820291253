/** Bytes in memory, words made of bytes, and argument types of a machine with words of w bytes. */
module Bytes {
  import opened Layout

  type Byte = x: int | 0 <= x < 256

  /** The size of words and pointers. */
  type WordSize = w: nat | w == 4 || w == 8 witness 8

  /** At a place in f are n bytes of v, from a given one on. */
  predicate BytesAt(f: seq<Byte>, at: nat, v: seq<Byte>, from: nat, n: nat) {
    at + n <= |f| && from + n <= |v| && forall x {:trigger f[x]} :: at <= x < at + n ==> f[x] == v[x - at + from]
  }

  /** The value of bytes, the most significant one first. */
  function BigEndian(v: seq<Byte>): nat {
    if |v| == 0 then 0 else 256 * BigEndian(v[..|v| - 1]) + v[|v| - 1]
  }

  function Power(n: nat): (r: nat)
    ensures r >= 1
  {
    if n == 0 then 1 else 256 * Power(n - 1)
  }

  /** The n bytes of a number, the most significant one first. */
  function Encode(x: nat, n: nat): (v: seq<Byte>)
    ensures |v| == n
  {
    if n == 0 then [] else Encode(x / 256, n - 1) + [x % 256]
  }

  lemma {:induction false} EncodeDecodes(x: nat, n: nat)
    requires x < Power(n)
    ensures BigEndian(Encode(x, n)) == x
  {
    if n > 0 {
      EncodeDecodes(x / 256, n - 1);
      assert Encode(x, n)[..n - 1] == Encode(x / 256, n - 1);
    }
  }

  /** memcpy, after clearing width bytes. */
  method Store(frame: array<Byte>, at: nat, width: nat, v: seq<Byte>, from: nat, n: nat)
    requires n <= width && at + width <= frame.Length && from + n <= |v|
    modifies frame
    ensures BytesAt(frame[..], at, v, from, n)
    ensures forall x :: 0 <= x < frame.Length && !(at <= x < at + width) ==> frame[x] == old(frame[x])
    ensures forall x :: at + n <= x < at + width ==> frame[x] == 0
  {
    for i := 0 to width
      invariant forall x :: 0 <= x < frame.Length && !(at <= x < at + i) ==> frame[x] == old(frame[x])
      invariant forall x :: at <= x < at + i ==> frame[x] == 0
    {
      frame[at + i] := 0;
    }
    for i := 0 to n
      invariant forall x :: 0 <= x < frame.Length && !(at <= x < at + width) ==> frame[x] == old(frame[x])
      invariant forall x :: at + i <= x < at + width ==> frame[x] == 0
      invariant forall x :: at <= x < at + i ==> frame[x] == v[x - at + from]
    {
      frame[at + i] := v[from + i];
    }
  }

  /** An ffi_type that has been laid out: for a struct, size is what its size field says. */
  datatype ArgType = Prim(kind: Kind) | Aggregate(size: nat, elements: seq<ArgType>)

  function PrimSize(k: Kind, w: nat): nat {
    if k == Pointer then w else KindSize(k)
  }

  function ArgSize(t: ArgType, w: nat): nat {
    match t
    case Prim(k) => PrimSize(k, w)
    case Aggregate(size, _) => size
  }

  /** Kinds that are sign-extended. */
  predicate Signed(k: Kind) {
    k in {SInt8, SInt16, SInt32}
  }

  /** The byte that fills a word to which an integer is widened. */
  function Fill(v: seq<Byte>, k: Kind, bigEndian: bool): Byte {
    if Signed(k) && |v| > 0 && (if bigEndian then v[0] else v[|v| - 1]) >= 128 then 255 else 0
  }

  /** An integer widened to a word of w bytes. */
  function Widen(v: seq<Byte>, k: Kind, w: nat, bigEndian: bool): (r: seq<Byte>)
    requires |v| <= w
    ensures |r| == w
  {
    var fill: seq<Byte> := seq(w - |v|, i => Fill(v, k, bigEndian));
    if bigEndian then fill + v else v + fill
  }

  // ---------- integers by value ----------

  /** The value of an integer of kind k, the most significant byte first. */
  function IntegerValue(v: seq<Byte>, k: Kind): int {
    if k in {SInt8, SInt16, SInt32, SInt64} && |v| > 0 && v[0] >= 128 then BigEndian(v) - Power(|v|) else BigEndian(v)
  }

  lemma {:induction false} PowerSum(m: nat, n: nat)
    ensures Power(m + n) == Power(m) * Power(n)
  {
    if n > 0 {
      PowerSum(m, n - 1);
      assert Power(m + n) == 256 * (Power(m) * Power(n - 1)) == Power(m) * (256 * Power(n - 1));
    }
  }

  lemma {:induction false} BigEndianBound(v: seq<Byte>)
    ensures BigEndian(v) < Power(|v|)
  {
    if |v| > 0 { BigEndianBound(v[..|v| - 1]); }
  }

  lemma {:induction false} BigEndianSum(a: seq<Byte>, b: seq<Byte>)
    ensures BigEndian(a + b) == BigEndian(a) * Power(|b|) + BigEndian(b)
  {
    if |b| == 0 {
      assert a + b == a;
    } else {
      var front := b[..|b| - 1];
      assert (a + b)[..|a + b| - 1] == a + front;
      BigEndianSum(a, front);
      assert 256 * (BigEndian(a) * Power(|front|)) == BigEndian(a) * (256 * Power(|front|));
    }
  }

  lemma {:induction false} BigEndianFill(v: seq<Byte>, fill: Byte)
    requires fill in {0, 255} && forall i :: 0 <= i < |v| ==> v[i] == fill
    ensures BigEndian(v) == if fill == 0 then 0 else Power(|v|) - 1
  {
    if |v| > 0 { BigEndianFill(v[..|v| - 1], fill); }
  }

  /** Widening keeps the value, in two's complement. */
  lemma WidenValue(v: seq<Byte>, k: Kind, w: nat)
    requires 0 < |v| <= w && (k == SInt64 ==> |v| == w)
    ensures BigEndian(Widen(v, k, w, true)) == IntegerValue(v, k) % Power(w)
  {
    hide Power, BigEndian;
    var n, fill := w - |v|, Fill(v, k, true);
    var filling: seq<Byte> := seq(n, i => fill);
    assert Widen(v, k, w, true) == filling + v;
    BigEndianSum(filling, v);
    BigEndianFill(filling, fill);
    BigEndianBound(v);
    PowerSum(n, |v|);
    assert Power(|v|) <= Power(w) by { MultipleAtLeast(Power(n), Power(|v|)); }
    var x := IntegerValue(v, k);
    if n == 0 {
      NoPower();
      DivUnique(x, Power(w), if x < 0 then -1 else 0, BigEndian(v));
    } else if fill == 255 {
      Shortened(Power(n), Power(|v|));
      DivUnique(x, Power(w), -1, x + Power(w));
    } else {
      DivUnique(x, Power(w), 0, x);
    }
  }

  lemma MultipleAtLeast(a: nat, b: nat)
    requires a >= 1
    ensures b <= a * b
  {
  }

  lemma Shortened(a: nat, b: nat)
    ensures (a - 1) * b == a * b - b
  {
  }

  lemma NoPower()
    ensures Power(0) == 1
  {
  }
}
