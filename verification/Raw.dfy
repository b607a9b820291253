/** The raw form of an argument list, a buffer of words, and its conversion from and to an array of
    pointers. Words and pointers have w bytes, in either byte order. */
module Raw {
  import opened Layout
  import opened Bytes

  /** The words that an argument takes, in bytes: a struct is passed as its address. */
  function RawBytes(t: ArgType, w: WordSize): nat {
    Align(if t.Aggregate? then w else ArgSize(t, w), w)
  }

  /** The least number of whole words that hold the argument, or the address of a struct. */
  lemma RawBytesLeast(t: ArgType, w: WordSize)
    ensures var size := if t.Aggregate? then w else ArgSize(t, w);
            RawBytes(t, w) % w == 0 && size <= RawBytes(t, w) < size + w
  {
    hide Align;
    AlignMultiple(if t.Aggregate? then w else ArgSize(t, w), w);
  }

  function RawOffset(types: seq<ArgType>, i: nat, w: WordSize): nat
    requires i <= |types|
  {
    if i == 0 then 0 else RawOffset(types, i - 1, w) + RawBytes(types[i - 1], w)
  }

  lemma {:induction false} OffsetsGrow(types: seq<ArgType>, i: nat, j: nat, w: WordSize)
    requires i <= j <= |types|
    ensures RawOffset(types, i, w) <= RawOffset(types, j, w)
    decreases j
  {
    if i < j { OffsetsGrow(types, i, j - 1, w); }
  }

  /** ffi_raw_size. */
  method FfiRawSize(types: seq<ArgType>, w: WordSize) returns (result: nat)
    ensures result == RawOffset(types, |types|, w)
  {
    result := 0;
    for i := 0 to |types|
      invariant result == RawOffset(types, i, w)
    {
      if types[i].Aggregate? {
        result := result + Align(w, w);
      } else {
        result := result + Align(ArgSize(types[i], w), w);
      }
    }
  }

  // ---------- words ----------

  function Reversed(v: seq<Byte>): (r: seq<Byte>)
    ensures |r| == |v| && forall i :: 0 <= i < |v| ==> r[i] == v[|v| - 1 - i]
  {
    seq(|v|, i requires 0 <= i < |v| => v[|v| - 1 - i])
  }

  /** The bytes of a number, and the number of bytes, in the byte order of the machine. */
  function WordOf(x: nat, w: WordSize, big: bool): (v: seq<Byte>)
    ensures |v| == w
  {
    if big then Encode(x, w) else Reversed(Encode(x, w))
  }

  function ValueOf(v: seq<Byte>, big: bool): nat {
    BigEndian(if big then v else Reversed(v))
  }

  lemma WordRoundTrip(x: nat, w: WordSize, big: bool)
    requires x < Power(w)
    ensures ValueOf(WordOf(x, w, big), big) == x
  {
    hide Power;
    EncodeDecodes(x, w);
    assert Reversed(Reversed(Encode(x, w))) == Encode(x, w);
  }

  /** The kinds that are widened to a word. */
  predicate Small(k: Kind) {
    k in {UInt8, SInt8, UInt16, SInt16, UInt32, SInt32}
  }

  /** The rest is copied as it is, from the start of its words. */
  function ValueOffset(t: ArgType, w: WordSize, big: bool): nat {
    if t.Prim? && Small(t.kind) && big then w - KindSize(t.kind) else 0
  }

  lemma OneWord(size: nat, w: nat)
    requires 0 < size <= w
    ensures Align(size, w) == w
  {
    DivUnique(size + w - 1, w, 1, size - 1);
  }

  /** Structs, pointers and everything that is widened take one word. */
  lemma OneWordTypes(t: ArgType, w: WordSize)
    ensures RawBytes(t, w) >= w && (t.Prim? ==> RawBytes(t, w) >= ArgSize(t, w))
    ensures t.Aggregate? || t.kind == Pointer || Small(t.kind) ==> RawBytes(t, w) == w
  {
    hide Align;
    var s := if t.Aggregate? then w else ArgSize(t, w);
    if s <= w { OneWord(s, w); }
  }

  lemma NoOffset(types: seq<ArgType>, w: WordSize)
    ensures RawOffset(types, 0, w) == 0
  {
  }

  lemma NextOffset(types: seq<ArgType>, i: nat, w: WordSize)
    requires i < |types|
    ensures RawOffset(types, i + 1, w) == RawOffset(types, i, w) + RawBytes(types[i], w) <= RawOffset(types, |types|, w)
  {
    hide RawBytes;
    OffsetsGrow(types, i + 1, |types|, w);
  }

  /** The word at an offset holds an integer by value: shorter ones are sign- or zero-extended. */
  predicate WordHolds(raw: seq<Byte>, off: nat, k: Kind, v: seq<Byte>, w: WordSize, big: bool) {
    off + w <= |raw| && ValueOf(raw[off..off + w], big) == IntegerValue(if big then v else Reversed(v), k) % Power(w)
  }

  /** Argument t, which is at an address and has the value v, has been put at an offset. */
  ghost predicate Stored(raw: seq<Byte>, off: nat, t: ArgType, address: nat, v: seq<Byte>, w: WordSize, big: bool) {
    if t.Aggregate? then BytesAt(raw, off, WordOf(address, w, big), 0, w)
    else BytesAt(raw, off + ValueOffset(t, w, big), v, 0, |v|) && (Small(t.kind) ==> WordHolds(raw, off, t.kind, v, w, big))
  }

  // ---------- ffi_ptrarray_to_raw ----------

  lemma WidenedValue(raw: seq<Byte>, off: nat, v: seq<Byte>, k: Kind, w: WordSize, big: bool)
    requires Small(k) && |v| == KindSize(k) && BytesAt(raw, off, Widen(v, k, w, big), 0, w)
    ensures BytesAt(raw, off + (if big then w - |v| else 0), v, 0, |v|)
  {
    var r := Widen(v, k, w, big);
    var s := if big then w - |v| else 0;
    forall x | off + s <= x < off + s + |v|
      ensures raw[x] == v[x - (off + s)]
    {
      assert raw[x] == r[x - off];
    }
  }

  lemma WidenedWord(raw: seq<Byte>, off: nat, v: seq<Byte>, k: Kind, w: WordSize, big: bool)
    requires Small(k) && |v| == KindSize(k) && BytesAt(raw, off, Widen(v, k, w, big), 0, w)
    ensures WordHolds(raw, off, k, v, w, big)
  {
    hide BigEndian, IntegerValue, Power, Widen;
    var word := if big then v else Reversed(v);
    assert raw[off..off + w] == Widen(v, k, w, big);
    WidenReversed(v, k, w);
    WidenValue(word, k, w);
  }

  lemma WidenReversed(v: seq<Byte>, k: Kind, w: WordSize)
    requires 0 < |v| <= w
    ensures Reversed(Widen(v, k, w, false)) == Widen(Reversed(v), k, w, true)
  {
    var r := Reversed(v);
    assert r[0] == v[|v| - 1];
  }

  lemma StoredKept(raw: seq<Byte>, raw': seq<Byte>, from: nat, off: nat, t: ArgType, address: nat, v: seq<Byte>, w: WordSize, big: bool)
    requires Stored(raw, off, t, address, v, w, big) && |raw'| == |raw| && off + RawBytes(t, w) <= from && |v| == ArgSize(t, w)
    requires forall x :: 0 <= x < from && x < |raw| ==> raw'[x] == raw[x]
    ensures Stored(raw', off, t, address, v, w, big)
  {
    hide Align, WordOf, RawBytes, BigEndian, IntegerValue, Power, Reversed;
    OneWordTypes(t, w);
    if t.Aggregate? || Small(t.kind) { assert raw'[off..off + w] == raw[off..off + w]; }
  }

  /** ffi_ptrarray_to_raw, for arguments at the given addresses, with the given values. */
  method PtrArrayToRaw(types: seq<ArgType>, addresses: seq<nat>, values: seq<seq<Byte>>, w: WordSize, big: bool, raw: array<Byte>) returns (used: nat)
    requires |addresses| == |values| == |types| && (forall i :: 0 <= i < |types| ==> |values[i]| == ArgSize(types[i], w))
    requires raw.Length >= RawOffset(types, |types|, w)
    modifies raw
    ensures used == RawOffset(types, |types|, w)
    ensures forall i {:trigger types[i]} :: 0 <= i < |types| ==> Stored(raw[..], RawOffset(types, i, w), types[i], addresses[i], values[i], w, big)
    ensures raw[used..] == old(raw[used..])
  {
    hide Align, Stored, RawBytes, RawOffset;
    NoOffset(types, w);
    used := 0;
    for i := 0 to |types|
      invariant used == RawOffset(types, i, w)
      invariant forall k {:trigger types[k]} :: 0 <= k < i ==> Stored(raw[..], RawOffset(types, k, w), types[k], addresses[k], values[k], w, big)
      invariant forall x :: RawOffset(types, i, w) <= x < raw.Length ==> raw[x] == old(raw[x])
    {
      ghost var was := raw[..];
      NextOffset(types, i, w);
      used := StoreArgument(types[i], addresses[i], values[i], w, big, raw, used);
      forall k {:trigger types[k]} | 0 <= k < i
        ensures Stored(raw[..], RawOffset(types, k, w), types[k], addresses[k], values[k], w, big)
      {
        NextOffset(types, k, w);
        OffsetsGrow(types, k + 1, i, w);
        StoredKept(was, raw[..], RawOffset(types, i, w), RawOffset(types, k, w), types[k], addresses[k], values[k], w, big);
      }
    }
  }

  /** The switch of ffi_ptrarray_to_raw. */
  method StoreArgument(t: ArgType, address: nat, v: seq<Byte>, w: WordSize, big: bool, raw: array<Byte>, off: nat) returns (next: nat)
    requires |v| == ArgSize(t, w) && off + RawBytes(t, w) <= raw.Length
    modifies raw
    ensures next == off + RawBytes(t, w)
    ensures Stored(raw[..], off, t, address, v, w, big)
    ensures forall x :: 0 <= x < raw.Length && !(off <= x < next) ==> raw[x] == old(raw[x])
  {
    hide Align, BytesAt, WordOf, Widen, WordHolds;
    OneWordTypes(t, w);
    match t {
      case Aggregate(_, _) =>
        Store(raw, off, w, WordOf(address, w, big), 0, w);
        next := off + w;
      case Prim(k) =>
        if Small(k) {
          Store(raw, off, w, Widen(v, k, w, big), 0, w);
          WidenedValue(raw[..], off, v, k, w, big);
          WidenedWord(raw[..], off, v, k, w, big);
          next := off + w;
        } else if k == Pointer {
          Store(raw, off, w, v, 0, w);
          next := off + w;
        } else {
          Store(raw, off, |v|, v, 0, |v|);
          next := off + Align(ArgSize(t, w), w);
        }
    }
  }

  // ---------- ffi_raw_to_ptrarray ----------

  /** A pointer to a value in the raw buffer, or the address of a struct. */
  datatype Ref = InRaw(off: nat) | Address(x: nat)

  function Found(raw: seq<Byte>, off: nat, t: ArgType, w: WordSize, big: bool): Ref
    requires off + w <= |raw|
  {
    if t.Aggregate? then Address(ValueOf(raw[off..off + w], big)) else InRaw(off + ValueOffset(t, w, big))
  }

  /** One argument: the switch of ffi_raw_to_ptrarray for big-endian machines, or the other one. */
  method LocateArgument(t: ArgType, raw: array<Byte>, off: nat, w: WordSize, big: bool) returns (arg: Ref, next: nat)
    requires off + RawBytes(t, w) <= raw.Length
    ensures next == off + RawBytes(t, w) && off + w <= raw.Length && arg == Found(raw[..], off, t, w, big)
  {
    hide Align, ValueOf;
    OneWordTypes(t, w);
    next := off + w;
    match t {
      case Aggregate(_, _) =>
        arg := Address(ValueOf(raw[off..off + w], big));
        assert raw[..][off..off + w] == raw[off..off + w];
      case Prim(k) =>
        if big && (k == UInt8 || k == SInt8) {
          arg := InRaw(off + w - 1);
        } else if big && (k == UInt16 || k == SInt16) {
          arg := InRaw(off + w - 2);
        } else if big && (k == UInt32 || k == SInt32) {
          arg := InRaw(off + w - 4);
        } else if big && k == Pointer {
          arg := InRaw(off);
        } else {
          arg := InRaw(off);
          next := off + Align(ArgSize(t, w), w);
        }
    }
  }

  predicate FoundAt(raw: seq<Byte>, types: seq<ArgType>, args: seq<Ref>, i: nat, w: WordSize, big: bool) {
    && i < |types| && i < |args| && RawOffset(types, i, w) + w <= |raw|
    && args[i] == Found(raw, RawOffset(types, i, w), types[i], w, big)
  }

  /** ffi_raw_to_ptrarray. */
  method RawToPtrArray(types: seq<ArgType>, raw: array<Byte>, w: WordSize, big: bool) returns (args: seq<Ref>, used: nat)
    requires raw.Length >= RawOffset(types, |types|, w)
    ensures used == RawOffset(types, |types|, w) && |args| == |types|
    ensures forall i: nat {:trigger FoundAt(raw[..], types, args, i, w, big)} :: i < |types| ==> FoundAt(raw[..], types, args, i, w, big)
  {
    hide Align, RawBytes, RawOffset, Found;
    NoOffset(types, w);
    used, args := 0, [];
    for i := 0 to |types|
      invariant used == RawOffset(types, i, w) && |args| == i
      invariant forall k: nat {:trigger FoundAt(raw[..], types, args, k, w, big)} :: k < i ==> FoundAt(raw[..], types, args, k, w, big)
    {
      NextOffset(types, i, w);
      var arg;
      arg, used := LocateArgument(types[i], raw, used, w, big);
      ghost var was := args;
      args := args + [arg];
      forall k: nat | k < i + 1
        ensures FoundAt(raw[..], types, args, k, w, big)
      {
        if k < i { assert FoundAt(raw[..], types, was, k, w, big); }
      }
    }
  }

  // ---------- the round trip ----------

  /** The argument is found: a struct where it was, everything else in the buffer. */
  ghost predicate Recovered(raw: seq<Byte>, ref: Ref, t: ArgType, address: nat, v: seq<Byte>) {
    if t.Aggregate? then ref == Address(address) else ref.InRaw? && BytesAt(raw, ref.off, v, 0, |v|)
  }

  lemma OneRecovered(raw: seq<Byte>, off: nat, t: ArgType, address: nat, v: seq<Byte>, w: WordSize, big: bool)
    requires off + w <= |raw| && Stored(raw, off, t, address, v, w, big) && address < Power(w)
    ensures Recovered(raw, Found(raw, off, t, w, big), t, address, v)
  {
    hide Power, WordOf, ValueOf, WordHolds;
    if t.Aggregate? {
      assert raw[off..off + w] == WordOf(address, w, big);
      WordRoundTrip(address, w, big);
    }
  }

  /** For every signature and byte order, converting to raw form and back recovers every argument,
      and both directions use just the bytes that ffi_raw_size reports. */
  method RawRoundTrip(types: seq<ArgType>, addresses: seq<nat>, values: seq<seq<Byte>>, w: WordSize, big: bool)
    returns (raw: array<Byte>, args: seq<Ref>, size: nat, written: nat, read: nat)
    requires |addresses| == |values| == |types|
    requires forall i :: 0 <= i < |types| ==> |values[i]| == ArgSize(types[i], w) && addresses[i] < Power(w)
    ensures |args| == |types| && size == written == read == raw.Length == RawOffset(types, |types|, w)
    ensures forall i {:trigger types[i]} :: 0 <= i < |types| ==> Stored(raw[..], RawOffset(types, i, w), types[i], addresses[i], values[i], w, big)
    ensures forall i: nat {:trigger FoundAt(raw[..], types, args, i, w, big)} :: i < |types| ==> FoundAt(raw[..], types, args, i, w, big)
    ensures forall i {:trigger types[i]} :: 0 <= i < |types| ==> Recovered(raw[..], args[i], types[i], addresses[i], values[i])
  {
    hide Power, Stored, Found, Recovered;
    size := FfiRawSize(types, w);
    raw := new Byte[size](_ => 0);
    written := PtrArrayToRaw(types, addresses, values, w, big, raw);
    args, read := RawToPtrArray(types, raw, w, big);
    forall i {:trigger types[i]} | 0 <= i < |types|
      ensures Recovered(raw[..], args[i], types[i], addresses[i], values[i])
    {
      assert FoundAt(raw[..], types, args, i, w, big);
      OneRecovered(raw[..], RawOffset(types, i, w), types[i], addresses[i], values[i], w, big);
    }
  }
}
