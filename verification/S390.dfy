/** Passing arguments on s390 (words of 4 bytes) and s390x (words of 8 bytes). One area takes the
    words that do not fit into registers, from below, and the copies of structs, from above. */
module S390 {
  import opened Layout
  import opened Bytes

  const MAX_GPRARGS: nat := 5

  function MaxFprArgs(w: WordSize): nat {
    if w == 8 then 4 else 2
  }

  function RoundSize(size: nat): nat {
    Align(size, 16)
  }

  /** n words, in bytes. */
  function WordBytes(n: nat, w: WordSize): nat {
    if w == 8 then 8 * n else 4 * n
  }

  // ---------- how a type is passed ----------

  /** A struct with one element is looked at as that element. */
  function Core(t: ArgType): ArgType {
    if t.Aggregate? && |t.elements| == 1 then Core(t.elements[0]) else t
  }

  function Checked(size: nat, core: ArgType): Kind {
    if size == 1 then UInt8
    else if size == 2 then UInt16
    else if size == 4 then (if core == Prim(Float) then Float else UInt32)
    else if size == 8 then (if core == Prim(Double) then Double else UInt64)
    else Pointer
  }

  /** ffi_check_struct_type. */
  method FfiCheckStructType(t: ArgType, w: WordSize) returns (k: Kind)
    ensures k == Checked(ArgSize(t, w), Core(t))
  {
    var size := ArgSize(t, w);
    var arg := t;
    while arg.Aggregate? && |arg.elements| == 1
      invariant Core(arg) == Core(t)
      decreases arg
    {
      arg := arg.elements[0];
    }
    k := if size == 1 then UInt8
         else if size == 2 then UInt16
         else if size == 4 then (if arg == Prim(Float) then Float else UInt32)
         else if size == 8 then (if arg == Prim(Double) then Double else UInt64)
         else Pointer;
  }

  predicate StructLike(t: ArgType) {
    t.Aggregate? || t == Prim(LongDouble)
  }

  /** The scalar kind as which an argument is passed. */
  function Passed(t: ArgType, w: WordSize): Kind {
    if StructLike(t) then Checked(ArgSize(t, w), Core(t)) else t.kind
  }

  predicate ByPointer(t: ArgType, w: WordSize) {
    StructLike(t) && Passed(t, w) == Pointer
  }

  lemma PassedAs(t: ArgType, w: WordSize)
    ensures Passed(t, w) == if StructLike(t) then Checked(ArgSize(t, w), Core(t)) else t.kind
  {
  }

  lemma PassedSize(t: ArgType, w: WordSize)
    ensures Passed(t, w) != LongDouble && (!ByPointer(t, w) ==> PrimSize(Passed(t, w), w) == ArgSize(t, w))
  {
  }

  // ---------- where it goes ----------

  /** Registers, overflow words and bytes of struct copies used so far. */
  datatype Cursor = Cursor(gpr: nat, fpr: nat, ov: nat, copies: nat)

  predicate Pair(k: Kind, w: WordSize) {
    w == 4 && (k == UInt64 || k == SInt64)
  }

  predicate Floating(k: Kind) {
    k == Float || k == Double
  }

  function Moved(c: Cursor, k: Kind, w: WordSize): Cursor {
    if Floating(k) then
      if c.fpr < MaxFprArgs(w) then c.(fpr := c.fpr + 1)
      else c.(ov := c.ov + if k == Double && w == 4 then 2 else 1)
    else if Pair(k, w) then
      if c.gpr < MAX_GPRARGS - 1 then c.(gpr := c.gpr + 2)
      else c.(gpr := MAX_GPRARGS, ov := c.ov + 2)
    else if c.gpr < MAX_GPRARGS then c.(gpr := c.gpr + 1)
    else c.(ov := c.ov + 1)
  }

  /** With the copy of a struct. */
  function Copied(c: Cursor, t: ArgType, w: WordSize): Cursor {
    if ByPointer(t, w) then c.(copies := c.copies + RoundSize(ArgSize(t, w))) else c
  }

  function Advance(c: Cursor, t: ArgType, w: WordSize): Cursor {
    Moved(Copied(c, t, w), Passed(t, w), w)
  }

  datatype Return = Void | Returns(t: ArgType)

  /** The result is returned in memory, by way of a hidden first argument. */
  predicate Hidden(r: Return) {
    r.Returns? && StructLike(r.t)
  }

  function Before(r: Return, args: seq<ArgType>, i: nat, w: WordSize): Cursor
    requires i <= |args|
  {
    if i == 0 then Cursor(if Hidden(r) then 1 else 0, 0, 0, 0) else Advance(Before(r, args, i - 1, w), args[i - 1], w)
  }

  predicate Below(c: Cursor, d: Cursor) {
    c.gpr <= d.gpr && c.fpr <= d.fpr && c.ov <= d.ov && c.copies <= d.copies
  }

  lemma MoveGrows(c: Cursor, t: ArgType, w: WordSize)
    requires c.gpr <= MAX_GPRARGS && c.fpr <= MaxFprArgs(w) && c.copies % 16 == 0
    ensures var d := Advance(c, t, w); Below(c, d) && d.gpr <= MAX_GPRARGS && d.fpr <= MaxFprArgs(w) && d.copies % 16 == 0
  {
    hide Align;
    AlignMultiple(ArgSize(t, w), 16);
  }

  lemma {:induction false} WithinRegisters(r: Return, args: seq<ArgType>, i: nat, w: WordSize)
    requires i <= |args|
    ensures var c := Before(r, args, i, w); c.gpr <= MAX_GPRARGS && c.fpr <= MaxFprArgs(w) && c.copies % 16 == 0
  {
    hide Advance;
    if i > 0 {
      WithinRegisters(r, args, i - 1, w);
      MoveGrows(Before(r, args, i - 1, w), args[i - 1], w);
    }
  }

  lemma {:induction false} CursorGrows(r: Return, args: seq<ArgType>, i: nat, j: nat, w: WordSize)
    requires i <= j <= |args|
    ensures Below(Before(r, args, i, w), Before(r, args, j, w))
    decreases j
  {
    hide Advance;
    if i < j {
      CursorGrows(r, args, i, j - 1, w);
      WithinRegisters(r, args, j - 1, w);
      MoveGrows(Before(r, args, j - 1, w), args[j - 1], w);
    }
  }

  // ---------- ffi_prep_cif_machdep ----------

  datatype Flags = RetVoid | RetStruct | RetFloat | RetDouble | RetInt32 | RetInt64

  function StackBytes(c: Cursor, w: WordSize): nat {
    RoundSize(WordBytes(c.ov, w)) + c.copies
  }

  /** The switch of ffi_prep_cif_machdep over the kind of an argument. */
  method CountArgument(k: Kind, gpr0: nat, fpr0: nat, ov0: nat, w: WordSize, ghost copies: nat) returns (gpr: nat, fpr: nat, ov: nat)
    requires gpr0 <= MAX_GPRARGS
    ensures Cursor(gpr, fpr, ov, copies) == Moved(Cursor(gpr0, fpr0, ov0, copies), k, w)
  {
    gpr, fpr, ov := gpr0, fpr0, ov0;
    if k == Double {
      if fpr < MaxFprArgs(w) { fpr := fpr + 1; } else { ov := ov + 8 / w; }
    } else if k == Float {
      if fpr < MaxFprArgs(w) { fpr := fpr + 1; } else { ov := ov + 1; }
    } else if w == 4 && (k == UInt64 || k == SInt64) {
      if gpr == MAX_GPRARGS - 1 { gpr := MAX_GPRARGS; }
      if gpr < MAX_GPRARGS { gpr := gpr + 2; } else { ov := ov + 2; }
    } else {
      if gpr < MAX_GPRARGS { gpr := gpr + 1; } else { ov := ov + 1; }
    }
  }

  /** What the flags say about the result: floats and doubles as such, structs and long doubles as
      structs, and integers as what they are extended to, two words for 64 bits on 31-bit machines. */
  predicate FlagsTell(r: Return, flags: Flags, w: WordSize) {
    && (flags == RetVoid <==> r.Void?)
    && (flags == RetStruct <==> Hidden(r))
    && (flags == RetFloat <==> r == Returns(Prim(Float)))
    && (flags == RetDouble <==> r == Returns(Prim(Double)))
    && (flags == RetInt64 ==> w == 8 || PrimSize(r.t.kind, w) == 8)
    && (flags == RetInt32 ==> w == 4 && PrimSize(r.t.kind, w) <= 4)
  }

  /** ffi_prep_cif_machdep: the bytes of overflow words and struct copies, and the flags. */
  method PrepCifMachdep(r: Return, args: seq<ArgType>, w: WordSize) returns (bytes: nat, flags: Flags)
    ensures bytes == StackBytes(Before(r, args, |args|, w), w)
    ensures FlagsTell(r, flags, w)
  {
    hide Align, Moved, Passed, Checked;
    var structSize: nat, gpr: nat, fpr: nat, ov: nat := 0, 0, 0, 0;
    match r {
      case Void => flags := RetVoid;
      case Returns(t) =>
        if StructLike(t) {
          flags := RetStruct;
          gpr := gpr + 1;
        } else if t.kind == Float {
          flags := RetFloat;
        } else if t.kind == Double {
          flags := RetDouble;
        } else if t.kind == UInt64 || t.kind == SInt64 || w == 8 {
          flags := RetInt64;
        } else {
          flags := RetInt32;
        }
    }
    for i := 0 to |args|
      invariant Cursor(gpr, fpr, ov, structSize) == Before(r, args, i, w)
    {
      var t := args[i];
      var k := SInt8;
      if StructLike(t) {
        k := FfiCheckStructType(t, w);
        if k == Pointer {
          structSize := structSize + RoundSize(ArgSize(t, w));
        }
      } else {
        k := t.kind;
      }
      assert k == Passed(t, w) by { PassedAs(t, w); }
      WithinRegisters(r, args, i, w);
      gpr, fpr, ov := CountArgument(k, gpr, fpr, ov, w, structSize);
    }
    bytes := RoundSize(WordBytes(ov, w)) + structSize;
  }

  // ---------- the frame ----------

  function GprAt(i: nat, w: WordSize, bytes: nat): nat {
    bytes + WordBytes(i, w)
  }

  /** The GPR area takes ROUND_SIZE (5 * sizeof (long)). */
  function FprAt(i: nat, w: WordSize, bytes: nat): nat {
    bytes + (if w == 8 then 48 else 32) + 8 * i
  }

  function FrameLength(w: WordSize, bytes: nat): nat {
    FprAt(MaxFprArgs(w), w, bytes)
  }

  /** ROUND_SIZE (MAX_GPRARGS * sizeof (long)), the size of the GPR area. */
  lemma GprAreaSize(w: WordSize)
    ensures FprAt(0, w, 0) == RoundSize(WordBytes(MAX_GPRARGS, w))
  {
    DivUnique(55, 16, 3, 7);
    DivUnique(35, 16, 2, 3);
  }

  /** The bytes written for an argument: where they start, and how many there are. */
  function SlotAt(c: Cursor, k: Kind, w: WordSize, bytes: nat): nat {
    if Floating(k) then (if c.fpr < MaxFprArgs(w) then FprAt(c.fpr, w, bytes) else WordBytes(c.ov, w))
    else if Pair(k, w) then (if c.gpr < MAX_GPRARGS - 1 then GprAt(c.gpr, w, bytes) else WordBytes(c.ov, w))
    else if c.gpr < MAX_GPRARGS then GprAt(c.gpr, w, bytes)
    else WordBytes(c.ov, w)
  }

  function SlotLength(c: Cursor, k: Kind, w: WordSize): nat {
    if (Floating(k) && c.fpr < MaxFprArgs(w)) || k == Double || Pair(k, w) then 8 else w
  }

  /** Where the value itself is: integers, and floats on the stack, are at the end of their word. */
  function ValueAt(c: Cursor, k: Kind, w: WordSize, bytes: nat): nat
    requires k != LongDouble
  {
    SlotAt(c, k, w, bytes) +
    if (Floating(k) && c.fpr < MaxFprArgs(w)) || PrimSize(k, w) >= w then 0 else w - PrimSize(k, w)
  }

  predicate InUse(c: Cursor, w: WordSize, bytes: nat, x: nat) {
    x < WordBytes(c.ov, w) || bytes - c.copies <= x < GprAt(c.gpr, w, bytes) || FprAt(0, w, bytes) <= x < FprAt(c.fpr, w, bytes)
  }

  predicate SameBelow(f: seq<Byte>, f': seq<Byte>, c: Cursor, w: WordSize, bytes: nat) {
    |f'| == |f| && forall x {:trigger f'[x]} :: 0 <= x < |f| && InUse(c, w, bytes, x) ==> f'[x] == f[x]
  }

  /** The copy of a struct. */
  function CopyAt(c: Cursor, t: ArgType, w: WordSize, bytes: nat): int {
    bytes - c.copies - RoundSize(ArgSize(t, w))
  }

  /** What the whole slot of a value holds: floating registers are filled from the left, and words
      hold integers by value, so that shorter ones are sign- or zero-extended. */
  predicate SlotHolds(f: seq<Byte>, c: Cursor, k: Kind, v: seq<Byte>, w: WordSize, bytes: nat) {
    var at, n := SlotAt(c, k, w, bytes), SlotLength(c, k, w);
    at + n <= |f| &&
    if Floating(k) && c.fpr < MaxFprArgs(w) then |v| <= 8 && BigEndian(f[at..at + 8]) == BigEndian(v) * Power(8 - |v|)
    else BigEndian(f[at..at + n]) == IntegerValue(v, k) % Power(n)
  }

  ghost predicate Sent(f: seq<Byte>, base: nat, c: Cursor, t: ArgType, v: seq<Byte>, w: WordSize, bytes: nat) {
    PassedSize(t, w);
    var at := ValueAt(Copied(c, t, w), Passed(t, w), w, bytes);
    if ByPointer(t, w) then
      var s := CopyAt(c, t, w, bytes);
      && s >= 0 && BytesAt(f, at, Encode(base + s, w), 0, w) && BytesAt(f, s, v, 0, |v|)
      && SlotHolds(f, Copied(c, t, w), Pointer, Encode(base + s, w), w, bytes)
    else BytesAt(f, at, v, 0, |v|) && SlotHolds(f, Copied(c, t, w), Passed(t, w), v, w, bytes)
  }

  /** There is room for what comes up to cursor d. */
  predicate Room(d: Cursor, w: WordSize, bytes: nat) {
    && WordBytes(d.ov, w) + d.copies <= bytes && d.gpr <= MAX_GPRARGS && d.fpr <= MaxFprArgs(w)
  }

  /** The words growing upwards never meet the copies growing downwards, and both stay within the
      bytes that ffi_prep_cif_machdep has computed. */
  lemma AreasApart(r: Return, args: seq<ArgType>, i: nat, w: WordSize)
    requires i <= |args|
    ensures var total := StackBytes(Before(r, args, |args|, w), w); Room(Before(r, args, i, w), w, total) && total % 16 == 0
  {
    hide Advance, Before, Align;
    CursorGrows(r, args, i, |args|, w);
    WithinRegisters(r, args, i, w);
    WithinRegisters(r, args, |args|, w);
    var c := Before(r, args, |args|, w);
    AlignMultiple(WordBytes(c.ov, w), 16);
    MultipleDifference(RoundSize(WordBytes(c.ov, w)), c.copies, 16);
  }

  /** What is written for an argument had not been in use, and is afterwards. */
  lemma SlotIsNew(c: Cursor, t: ArgType, w: WordSize, bytes: nat)
    requires Room(c, w, bytes) && Room(Advance(c, t, w), w, bytes)
    ensures var c1, k := Copied(c, t, w), Passed(t, w);
            var at, n := SlotAt(c1, k, w, bytes), SlotLength(c1, k, w);
            && at + n <= FrameLength(w, bytes)
            && (forall x: nat :: at <= x < at + n ==> !InUse(c1, w, bytes, x) && InUse(Advance(c, t, w), w, bytes, x))
            && (forall x: nat :: InUse(c1, w, bytes, x) ==> InUse(Advance(c, t, w), w, bytes, x))
            && PrimSize(k, w) <= n && at <= ValueAt(c1, k, w, bytes) && ValueAt(c1, k, w, bytes) + PrimSize(k, w) <= at + n
  {
    hide Align, Checked, Core;
    PassedSize(t, w);
  }

  /** A value of kind k takes the next register of its sort, or the next two, if there are still so
      many of the five general registers, or of the floating ones: four, or two on 31-bit machines.
      Otherwise it takes the next words of the overflow area, and a pair spoils the last register. */
  predicate Rightly(c: Cursor, k: Kind, w: WordSize, bytes: nat) {
    var d, at, n := Moved(c, k, w), SlotAt(c, k, w, bytes), SlotLength(c, k, w);
    var floating := k in {Float, Double};
    var wanted := if !floating && PrimSize(k, w) > w then 2 else 1;
    var left := if floating then (if w == 8 then 4 else 2) - c.fpr else 5 - c.gpr;
    && d.copies == c.copies
    && if wanted <= left then
         && d.ov == c.ov
         && if floating then at == FprAt(c.fpr, w, bytes) && at + n == FprAt(d.fpr, w, bytes) && d.gpr == c.gpr && n == 8
            else at == GprAt(c.gpr, w, bytes) && at + n == GprAt(d.gpr, w, bytes) && d.fpr == c.fpr && n == wanted * w
       else
         && at == WordBytes(c.ov, w) && at + n == WordBytes(d.ov, w) && d.fpr == c.fpr && d.gpr == (if wanted == 2 then 5 else c.gpr)
         && n == if PrimSize(k, w) > w then 2 * w else w
  }

  lemma AlwaysRightly(c: Cursor, k: Kind, w: WordSize, bytes: nat)
    requires k != LongDouble && c.gpr <= MAX_GPRARGS && c.fpr <= MaxFprArgs(w)
    ensures Rightly(c, k, w, bytes)
  {
    hide Rightly;
    if Floating(k) { FloatRightly(c, k, w, bytes); } else { IntegerRightly(c, k, w, bytes); }
  }

  lemma FloatRightly(c: Cursor, k: Kind, w: WordSize, bytes: nat)
    requires Floating(k) && c.fpr <= MaxFprArgs(w)
    ensures Rightly(c, k, w, bytes)
  {
  }

  lemma IntegerRightly(c: Cursor, k: Kind, w: WordSize, bytes: nat)
    requires k != LongDouble && !Floating(k) && c.gpr <= MAX_GPRARGS
    ensures Rightly(c, k, w, bytes)
  {
  }

  /** How a type is passed: as a pointer to a copy if it is a struct of another size than 1, 2, 4 and 8,
      and else as an unsigned integer of its size, or as the only float or double in it. The copy
      lies as high as it can at a multiple of 16, below the copies so far. */
  predicate PassedRightly(c: Cursor, t: ArgType, w: WordSize, bytes: nat) {
    var k, size, s := Passed(t, w), ArgSize(t, w), CopyAt(c, t, w, bytes);
    && (ByPointer(t, w) <==> StructLike(t) && size !in {1, 2, 4, 8})
    && (ByPointer(t, w) ==> s % 16 == 0 && s + size <= bytes - c.copies < s + size + 16)
    && (StructLike(t) && !ByPointer(t, w) ==>
          && (k == Float <==> size == 4 && Core(t) == Prim(Float))
          && (k == Double <==> size == 8 && Core(t) == Prim(Double))
          && k in {UInt8, UInt16, UInt32, UInt64, Float, Double} && PrimSize(k, w) == size)
    && (!StructLike(t) ==> t == Prim(k))
  }

  lemma AlwaysPassedRightly(c: Cursor, t: ArgType, w: WordSize, bytes: nat)
    requires c.copies % 16 == 0 && bytes % 16 == 0
    ensures PassedRightly(c, t, w, bytes)
  {
    hide Align, Core;
    PassedSize(t, w);
    var up := RoundSize(ArgSize(t, w));
    AlignMultiple(ArgSize(t, w), 16);
    MultipleDifference(bytes, c.copies, 16);
    MultipleDifference(bytes - c.copies, up, 16);
  }

  /** Every argument of a call is passed and placed as it should be, from the first register on or,
      if there is a hidden pointer, from the second. */
  ghost predicate AllRightly(r: Return, args: seq<ArgType>, w: WordSize, bytes: nat) {
    && Before(r, args, 0, w) == Cursor(if r.Returns? && StructLike(r.t) then 1 else 0, 0, 0, 0)
    && forall i {:trigger args[i]} :: 0 <= i < |args| ==>
         var c := Before(r, args, i, w);
         PassedRightly(c, args[i], w, bytes) && Rightly(Copied(c, args[i], w), Passed(args[i], w), w, bytes)
  }

  lemma AlwaysAllRightly(r: Return, args: seq<ArgType>, w: WordSize, bytes: nat)
    requires bytes == StackBytes(Before(r, args, |args|, w), w)
    ensures AllRightly(r, args, w, bytes)
  {
    hide Rightly, PassedRightly, Before, Passed, StructLike;
    BeforeFirst(r, args, w);
    AreasApart(r, args, |args|, w);
    forall i {:trigger args[i]} | 0 <= i < |args|
      ensures PassedRightly(Before(r, args, i, w), args[i], w, bytes)
      ensures Rightly(Copied(Before(r, args, i, w), args[i], w), Passed(args[i], w), w, bytes)
    {
      WithinRegisters(r, args, i, w);
      PassedSize(args[i], w);
      AlwaysPassedRightly(Before(r, args, i, w), args[i], w, bytes);
      AlwaysRightly(Copied(Before(r, args, i, w), args[i], w), Passed(args[i], w), w, bytes);
    }
  }

  // ---------- ffi_prep_args ----------

  lemma WidenedEnd(f: seq<Byte>, at: nat, v: seq<Byte>, k: Kind, w: WordSize)
    requires |v| <= w && BytesAt(f, at, Widen(v, k, w, true), 0, w)
    ensures BytesAt(f, at + w - |v|, v, 0, |v|)
  {
    var r := Widen(v, k, w, true);
    forall x | at + w - |v| <= x < at + w
      ensures f[x] == v[x - (at + w - |v|)]
    {
      assert f[x] == r[x - at];
    }
  }

  lemma WidenedSlot(f: seq<Byte>, at: nat, v: seq<Byte>, k: Kind, w: WordSize)
    requires 0 < |v| <= w && (k == SInt64 ==> |v| == w) && BytesAt(f, at, Widen(v, k, w, true), 0, w)
    ensures BigEndian(f[at..at + w]) == IntegerValue(v, k) % Power(w)
  {
    hide Widen, BigEndian, IntegerValue, Power;
    WidenValue(v, k, w);
    assert f[at..at + w] == Widen(v, k, w, true);
  }

  /** Eight bytes as they are. */
  lemma WholeSlot(f: seq<Byte>, at: nat, v: seq<Byte>, k: Kind)
    requires |v| == 8 && BytesAt(f, at, v, 0, 8)
    ensures BigEndian(f[at..at + 8]) == BigEndian(v) * Power(8 - |v|) == IntegerValue(v, k) % Power(8)
  {
    hide Widen, BigEndian, IntegerValue, Power;
    NoPower();
    assert f[at..at + 8] == v == Widen(v, k, 8, true) by { WholeWidened(v, k); }
    WidenValue(v, k, 8);
  }

  lemma WholeWidened(v: seq<Byte>, k: Kind)
    requires |v| == 8
    ensures v == Widen(v, k, 8, true)
  {
  }

  /** A float at the left of a floating register. */
  lemma LeftSlot(f: seq<Byte>, at: nat, v: seq<Byte>)
    requires |v| == 4 && at + 8 <= |f| && BytesAt(f, at, v, 0, 4) && forall x :: at + 4 <= x < at + 8 ==> f[x] == 0
    ensures BigEndian(f[at..at + 8]) == BigEndian(v) * Power(8 - |v|)
  {
    hide BigEndian, Power;
    assert f[at..at + 8] == v + f[at + 4..at + 8];
    BigEndianSum(v, f[at + 4..at + 8]);
    BigEndianFill(f[at + 4..at + 8], 0);
  }

  /** Nothing but n bytes from a place on has changed. */
  predicate OnlyAt(f: seq<Byte>, f': seq<Byte>, at: nat, n: nat) {
    |f'| == |f| && forall x {:trigger f'[x]} :: 0 <= x < |f| && !(at <= x < at + n) ==> f'[x] == f[x]
  }

  method Put(frame: array<Byte>, at: nat, width: nat, v: seq<Byte>, n: nat)
    requires n <= width && at + width <= frame.Length && n <= |v|
    modifies frame
    ensures OnlyAt(old(frame[..]), frame[..], at, width) && BytesAt(frame[..], at, v, 0, n)
    ensures forall x :: at + n <= x < at + width ==> frame[x] == 0
  {
    Store(frame, at, width, v, 0, n);
  }

  /** A word goes to the next general register, or to the overflow area. */
  method StoreWord(frame: array<Byte>, word: seq<Byte>, gpr0: nat, ov0: nat, w: WordSize, bytes: nat) returns (gpr: nat, ov: nat)
    requires |word| == w && gpr0 <= MAX_GPRARGS
    requires (if gpr0 < MAX_GPRARGS then GprAt(gpr0, w, bytes) else WordBytes(ov0, w)) + w <= frame.Length
    modifies frame
    ensures gpr == gpr0 + (if gpr0 < MAX_GPRARGS then 1 else 0) && ov == ov0 + (if gpr0 < MAX_GPRARGS then 0 else 1)
    ensures var at := if gpr0 < MAX_GPRARGS then GprAt(gpr0, w, bytes) else WordBytes(ov0, w);
            OnlyAt(old(frame[..]), frame[..], at, w) && BytesAt(frame[..], at, word, 0, w)
  {
    gpr, ov := gpr0, ov0;
    if gpr < MAX_GPRARGS {
      Put(frame, GprAt(gpr, w, bytes), w, word, w);
      gpr := gpr + 1;
    } else {
      Put(frame, WordBytes(ov, w), w, word, w);
      ov := ov + 1;
    }
  }

  /** The cases of ffi_prep_args for floats and doubles. */
  method StoreFloating(frame: array<Byte>, k: Kind, arg: seq<Byte>, fpr0: nat, ov0: nat, w: WordSize, bytes: nat, ghost c: Cursor)
    returns (fpr: nat, ov: nat)
    requires Floating(k) && |arg| == PrimSize(k, w)
    requires (c.fpr, c.ov) == (fpr0, ov0) && SlotAt(c, k, w, bytes) + SlotLength(c, k, w) <= frame.Length
    modifies frame
    ensures Cursor(c.gpr, fpr, ov, c.copies) == Moved(c, k, w)
    ensures OnlyAt(old(frame[..]), frame[..], SlotAt(c, k, w, bytes), SlotLength(c, k, w))
    ensures BytesAt(frame[..], ValueAt(c, k, w, bytes), arg, 0, |arg|) && SlotHolds(frame[..], c, k, arg, w, bytes)
  {
    hide BytesAt, Widen, OnlyAt, BigEndian, IntegerValue, Power;
    fpr, ov := fpr0, ov0;
    if k == Double {
      if fpr < MaxFprArgs(w) {
        Put(frame, FprAt(fpr, w, bytes), 8, arg, 8);
        WholeSlot(frame[..], FprAt(fpr, w, bytes), arg, k);
        fpr := fpr + 1;
      } else {
        Put(frame, WordBytes(ov, w), 8, arg, 8);
        WholeSlot(frame[..], WordBytes(ov, w), arg, k);
        ov := ov + (if w == 8 then 1 else 2);
      }
    } else {
      if fpr < MaxFprArgs(w) {
        Put(frame, FprAt(fpr, w, bytes), 8, arg, 4);
        LeftSlot(frame[..], FprAt(fpr, w, bytes), arg);
        fpr := fpr + 1;
      } else {
        Put(frame, WordBytes(ov, w), w, Widen(arg, k, w, true), w);
        WidenedEnd(frame[..], WordBytes(ov, w), arg, k, w);
        WidenedSlot(frame[..], WordBytes(ov, w), arg, k, w);
        ov := ov + 1;
      }
    }
  }

  /** The case of ffi_prep_args for 64-bit integers on 31-bit machines. */
  method StorePair(frame: array<Byte>, k: Kind, arg: seq<Byte>, gpr0: nat, ov0: nat, w: WordSize, bytes: nat, ghost c: Cursor)
    returns (gpr: nat, ov: nat)
    requires Pair(k, w) && |arg| == 8 && gpr0 <= MAX_GPRARGS
    requires (c.gpr, c.ov) == (gpr0, ov0) && SlotAt(c, k, w, bytes) + 8 <= frame.Length
    modifies frame
    ensures Cursor(gpr, c.fpr, ov, c.copies) == Moved(c, k, w)
    ensures OnlyAt(old(frame[..]), frame[..], SlotAt(c, k, w, bytes), 8)
    ensures BytesAt(frame[..], SlotAt(c, k, w, bytes), arg, 0, 8) && SlotHolds(frame[..], c, k, arg, w, bytes)
  {
    hide BytesAt, OnlyAt, BigEndian, IntegerValue, Power;
    gpr, ov := gpr0, ov0;
    if gpr == MAX_GPRARGS - 1 {
      gpr := MAX_GPRARGS;
    }
    if gpr < MAX_GPRARGS {
      Put(frame, GprAt(gpr, w, bytes), 8, arg, 8);
      gpr := gpr + 2;
    } else {
      Put(frame, WordBytes(ov, w), 8, arg, 8);
      ov := ov + 2;
    }
    WholeSlot(frame[..], SlotAt(c, k, w, bytes), arg, k);
  }

  /** The cases of ffi_prep_args for integers and pointers. */
  method StoreInteger(frame: array<Byte>, k: Kind, arg: seq<Byte>, gpr0: nat, ov0: nat, w: WordSize, bytes: nat, ghost c: Cursor)
    returns (gpr: nat, ov: nat)
    requires k != LongDouble && !Floating(k) && |arg| == PrimSize(k, w) && gpr0 <= MAX_GPRARGS
    requires (c.gpr, c.ov) == (gpr0, ov0) && SlotAt(c, k, w, bytes) + SlotLength(c, k, w) <= frame.Length
    modifies frame
    ensures Cursor(gpr, c.fpr, ov, c.copies) == Moved(c, k, w)
    ensures OnlyAt(old(frame[..]), frame[..], SlotAt(c, k, w, bytes), SlotLength(c, k, w))
    ensures BytesAt(frame[..], ValueAt(c, k, w, bytes), arg, 0, |arg|) && SlotHolds(frame[..], c, k, arg, w, bytes)
  {
    hide BytesAt, Widen, OnlyAt, BigEndian, IntegerValue, Power;
    if Pair(k, w) {
      gpr, ov := StorePair(frame, k, arg, gpr0, ov0, w, bytes, c);
    } else {
      gpr, ov := StoreWord(frame, Widen(arg, k, w, true), gpr0, ov0, w, bytes);
      WidenedEnd(frame[..], SlotAt(c, k, w, bytes), arg, k, w);
      WidenedSlot(frame[..], SlotAt(c, k, w, bytes), arg, k, w);
    }
  }

  /** The switch of ffi_prep_args over the kind of an argument. */
  method StoreScalar(frame: array<Byte>, k: Kind, arg: seq<Byte>, gpr0: nat, fpr0: nat, ov0: nat, w: WordSize, bytes: nat, ghost c: Cursor)
    returns (gpr: nat, fpr: nat, ov: nat)
    requires k != LongDouble && |arg| == PrimSize(k, w) && gpr0 <= MAX_GPRARGS
    requires (c.gpr, c.fpr, c.ov) == (gpr0, fpr0, ov0) && SlotAt(c, k, w, bytes) + SlotLength(c, k, w) <= frame.Length
    modifies frame
    ensures Cursor(gpr, fpr, ov, c.copies) == Moved(c, k, w)
    ensures OnlyAt(old(frame[..]), frame[..], SlotAt(c, k, w, bytes), SlotLength(c, k, w))
    ensures BytesAt(frame[..], ValueAt(c, k, w, bytes), arg, 0, |arg|) && SlotHolds(frame[..], c, k, arg, w, bytes)
  {
    hide BytesAt, OnlyAt, SlotAt, SlotLength, ValueAt, Moved, SlotHolds;
    gpr, fpr, ov := gpr0, fpr0, ov0;
    if Floating(k) {
      fpr, ov := StoreFloating(frame, k, arg, fpr, ov, w, bytes, c);
    } else {
      gpr, ov := StoreInteger(frame, k, arg, gpr, ov, w, bytes, c);
    }
  }

  lemma Untouched(f: seq<Byte>, f': seq<Byte>, at: nat, n: nat, c: Cursor, w: WordSize, bytes: nat)
    requires OnlyAt(f, f', at, n) && forall x: nat :: at <= x < at + n ==> !InUse(c, w, bytes, x)
    ensures SameBelow(f, f', c, w, bytes)
  {
  }

  lemma StillAt(f: seq<Byte>, f': seq<Byte>, at: nat, n: nat, place: nat, v: seq<Byte>, m: nat)
    requires OnlyAt(f, f', at, n) && BytesAt(f, place, v, 0, m) && (place + m <= at || at + n <= place)
    ensures BytesAt(f', place, v, 0, m)
  {
  }

  lemma SameTrans(f: seq<Byte>, g: seq<Byte>, h: seq<Byte>, c: Cursor, d: Cursor, w: WordSize, bytes: nat)
    requires SameBelow(f, g, c, w, bytes) && SameBelow(g, h, d, w, bytes) && Below(c, d)
    ensures SameBelow(f, h, c, w, bytes)
  {
    forall x | 0 <= x < |f| && InUse(c, w, bytes, x)
      ensures h[x] == f[x]
    {
      assert InUse(d, w, bytes, x) && g[x] == f[x];
    }
  }

  /** The copy of a struct lies between the words and the copies so far. */
  lemma CopyIsNew(c: Cursor, t: ArgType, w: WordSize, bytes: nat)
    requires Room(c, w, bytes) && Room(Advance(c, t, w), w, bytes) && ByPointer(t, w)
    ensures var s := CopyAt(c, t, w, bytes);
            && s >= WordBytes(Advance(c, t, w).ov, w) && s + ArgSize(t, w) <= bytes - c.copies
            && (forall x: nat :: s <= x < s + ArgSize(t, w) ==> !InUse(c, w, bytes, x) && InUse(Copied(c, t, w), w, bytes, x))
            && Below(c, Copied(c, t, w))
  {
    hide Align;
  }

  lemma CopiedAbove(c: Cursor, t: ArgType, w: WordSize)
    ensures Below(c, Copied(c, t, w))
  {
  }

  /** After the copy of a struct. */
  lemma CopyDone(f: seq<Byte>, g: seq<Byte>, c: Cursor, t: ArgType, v: seq<Byte>, w: WordSize, bytes: nat)
    requires |v| == ArgSize(t, w) && Room(c, w, bytes) && Room(Advance(c, t, w), w, bytes)
    requires if ByPointer(t, w) then CopyAt(c, t, w, bytes) >= 0 && OnlyAt(f, g, CopyAt(c, t, w, bytes), |v|) else f == g
    ensures SameBelow(f, g, c, w, bytes)
  {
    hide Advance;
    if ByPointer(t, w) {
      CopyIsNew(c, t, w, bytes);
      Untouched(f, g, CopyAt(c, t, w, bytes), |v|, c, w, bytes);
    }
  }

  /** After everything that is written for an argument. */
  lemma ArgumentDone(f: seq<Byte>, g: seq<Byte>, h: seq<Byte>, base: nat, c: Cursor, t: ArgType, v: seq<Byte>, arg: seq<Byte>, w: WordSize, bytes: nat)
    requires |v| == ArgSize(t, w) && Room(c, w, bytes) && Room(Advance(c, t, w), w, bytes)
    requires Passed(t, w) != LongDouble && |arg| == PrimSize(Passed(t, w), w) && SameBelow(f, g, c, w, bytes)
    requires OnlyAt(g, h, SlotAt(Copied(c, t, w), Passed(t, w), w, bytes), SlotLength(Copied(c, t, w), Passed(t, w), w))
    requires BytesAt(h, ValueAt(Copied(c, t, w), Passed(t, w), w, bytes), arg, 0, |arg|) && SlotHolds(h, Copied(c, t, w), Passed(t, w), arg, w, bytes)
    requires if ByPointer(t, w) then var s := CopyAt(c, t, w, bytes); s >= 0 && BytesAt(g, s, v, 0, |v|) && arg == Encode(base + s, w) else arg == v
    ensures SameBelow(f, h, c, w, bytes) && Sent(h, base, c, t, v, w, bytes)
  {
    hide Advance, SlotAt, SlotLength, ValueAt, Align, Encode, Passed, InUse, SameBelow, Moved, SlotHolds;
    var c1, k := Copied(c, t, w), Passed(t, w);
    PassedSize(t, w);
    SlotIsNew(c, t, w, bytes);
    Untouched(g, h, SlotAt(c1, k, w, bytes), SlotLength(c1, k, w), c1, w, bytes);
    CopiedAbove(c, t, w);
    SameTrans(f, g, h, c, c1, w, bytes);
    if ByPointer(t, w) {
      CopyIsNew(c, t, w, bytes);
      var s := CopyAt(c, t, w, bytes);
      SlotBesideCopy(c, t, w, bytes);
      StillAt(g, h, SlotAt(c1, k, w, bytes), SlotLength(c1, k, w), s, v, |v|);
    }
  }

  lemma SlotBesideCopy(c: Cursor, t: ArgType, w: WordSize, bytes: nat)
    requires Room(c, w, bytes) && Room(Advance(c, t, w), w, bytes) && ByPointer(t, w)
    ensures var s, at, n := CopyAt(c, t, w, bytes), SlotAt(Copied(c, t, w), Pointer, w, bytes), SlotLength(Copied(c, t, w), Pointer, w);
            s + ArgSize(t, w) <= at || at + n <= s
  {
    hide Align;
  }

  /** The body of the loop of ffi_prep_args; pStruct is an offset in the frame, which is at base. */
  method SendArgument(frame: array<Byte>, base: nat, t: ArgType, v: seq<Byte>, gpr0: nat, fpr0: nat, ov0: nat, pStruct0: nat, w: WordSize, bytes: nat, ghost c: Cursor)
    returns (gpr: nat, fpr: nat, ov: nat, pStruct: nat)
    requires |v| == ArgSize(t, w) && frame.Length == FrameLength(w, bytes) && base + frame.Length <= Power(w)
    requires Room(c, w, bytes) && Room(Advance(c, t, w), w, bytes) && pStruct0 <= bytes && c == Cursor(gpr0, fpr0, ov0, bytes - pStruct0)
    modifies frame
    ensures pStruct <= bytes && Cursor(gpr, fpr, ov, bytes - pStruct) == Advance(c, t, w)
    ensures SameBelow(old(frame[..]), frame[..], c, w, bytes) && Sent(frame[..], base, c, t, v, w, bytes)
  {
    hide BytesAt, InUse, SlotAt, SlotLength, ValueAt, OnlyAt, Moved, Checked, Core, Align, SameBelow, Encode, SlotHolds;
    ghost var f := frame[..];
    var arg := v;
    pStruct := pStruct0;
    var k := SInt8;
    ghost var c1 := Copied(c, t, w);
    PassedAs(t, w);
    PassedSize(t, w);
    SlotIsNew(c, t, w, bytes);
    if StructLike(t) {
      k := FfiCheckStructType(t, w);
      if k == Pointer {
        CopyIsNew(c, t, w, bytes);
        pStruct := pStruct - RoundSize(ArgSize(t, w));
        Put(frame, pStruct, ArgSize(t, w), v, ArgSize(t, w));
        arg := Encode(base + pStruct, w);
      }
    } else {
      k := t.kind;
    }
    ghost var g := frame[..];
    CopyDone(f, g, c, t, v, w, bytes);
    gpr, fpr, ov := StoreScalar(frame, k, arg, gpr0, fpr0, ov0, w, bytes, c1);
    ArgumentDone(f, g, frame[..], base, c, t, v, arg, w, bytes);
  }

  lemma SentKept(f: seq<Byte>, f': seq<Byte>, base: nat, c: Cursor, t: ArgType, v: seq<Byte>, w: WordSize, bytes: nat)
    requires |v| == ArgSize(t, w) && Room(c, w, bytes) && Room(Advance(c, t, w), w, bytes)
    requires Sent(f, base, c, t, v, w, bytes) && SameBelow(f, f', Advance(c, t, w), w, bytes)
    ensures Sent(f', base, c, t, v, w, bytes)
  {
    hide SlotAt, SlotLength, ValueAt, Align, Encode, InUse, Moved, Checked, Core, SlotHolds;
    PassedSize(t, w);
    SlotIsNew(c, t, w, bytes);
    if ByPointer(t, w) {
      CopyIsNew(c, t, w, bytes);
      CopyStaysUsed(c, t, w, bytes);
      SlotKept(f, f', c, t, Encode(base + CopyAt(c, t, w, bytes), w), w, bytes);
    } else {
      SlotKept(f, f', c, t, v, w, bytes);
    }
  }

  lemma SlotKept(f: seq<Byte>, f': seq<Byte>, c: Cursor, t: ArgType, v: seq<Byte>, w: WordSize, bytes: nat)
    requires Room(c, w, bytes) && Room(Advance(c, t, w), w, bytes) && SameBelow(f, f', Advance(c, t, w), w, bytes)
    requires SlotHolds(f, Copied(c, t, w), Passed(t, w), v, w, bytes)
    ensures SlotHolds(f', Copied(c, t, w), Passed(t, w), v, w, bytes)
  {
    hide SlotAt, Align, InUse, Moved, Checked, Core, IntegerValue, BigEndian, Power;
    var at, n := SlotAt(Copied(c, t, w), Passed(t, w), w, bytes), SlotLength(Copied(c, t, w), Passed(t, w), w);
    SlotIsNew(c, t, w, bytes);
    assert f'[at..at + n] == f[at..at + n];
  }

  lemma CopyStaysUsed(c: Cursor, t: ArgType, w: WordSize, bytes: nat)
    requires Room(c, w, bytes) && Room(Advance(c, t, w), w, bytes)
    ensures forall x: nat :: InUse(Copied(c, t, w), w, bytes, x) ==> InUse(Advance(c, t, w), w, bytes, x)
  {
    SlotIsNew(c, t, w, bytes);
  }

  /** ffi_prep_args: the registers and the stack of a call, as one frame at base. */
  method PrepArgs(r: Return, args: seq<ArgType>, avalue: seq<seq<Byte>>, rvalue: seq<Byte>, w: WordSize, bytes: nat, flags: Flags, base: nat)
    returns (frame: array<Byte>)
    requires bytes == StackBytes(Before(r, args, |args|, w), w) && (flags == RetStruct <==> Hidden(r))
    requires |avalue| == |args| && (forall i :: 0 <= i < |args| ==> |avalue[i]| == ArgSize(args[i], w)) && |rvalue| == w
    requires base + FrameLength(w, bytes) <= Power(w)
    ensures fresh(frame) && frame.Length == FrameLength(w, bytes)
    ensures forall i {:trigger args[i]} :: 0 <= i < |args| ==> Sent(frame[..], base, Before(r, args, i, w), args[i], avalue[i], w, bytes)
    ensures Hidden(r) ==> BytesAt(frame[..], GprAt(0, w, bytes), rvalue, 0, w)
    ensures AllRightly(r, args, w, bytes)
  {
    hide Before, Advance, Sent, SameBelow, BytesAt, Align, Power, AllRightly;
    AlwaysAllRightly(r, args, w, bytes);
    var fprOff := bytes + RoundSize(WordBytes(MAX_GPRARGS, w));
    GprAreaSize(w);
    frame := new Byte[fprOff + 8 * MaxFprArgs(w)](_ => 0);
    var gpr: nat, fpr: nat, ov: nat, pStruct: nat := 0, 0, 0, bytes;
    BeforeFirst(r, args, w);
    if flags == RetStruct {
      Put(frame, GprAt(gpr, w, bytes), w, rvalue, w);
      gpr := gpr + 1;
    }
    for i := 0 to |args|
      invariant pStruct <= bytes && Cursor(gpr, fpr, ov, bytes - pStruct) == Before(r, args, i, w)
      invariant forall k {:trigger args[k]} :: 0 <= k < i ==> Sent(frame[..], base, Before(r, args, k, w), args[k], avalue[k], w, bytes)
      invariant Hidden(r) ==> BytesAt(frame[..], GprAt(0, w, bytes), rvalue, 0, w)
    {
      ghost var f := frame[..];
      AreasApart(r, args, i, w);
      AreasApart(r, args, i + 1, w);
      BeforeNext(r, args, i, w);
      gpr, fpr, ov, pStruct := SendArgument(frame, base, args[i], avalue[i], gpr, fpr, ov, pStruct, w, bytes, Before(r, args, i, w));
      EarlierKept(r, args, avalue, f, frame[..], i, w, bytes, base);
      if Hidden(r) { HiddenKept(r, args, f, frame[..], rvalue, i, w, bytes); }
    }
  }

  lemma BeforeFirst(r: Return, args: seq<ArgType>, w: WordSize)
    ensures Before(r, args, 0, w) == Cursor(if Hidden(r) then 1 else 0, 0, 0, 0)
  {
  }

  lemma BeforeNext(r: Return, args: seq<ArgType>, i: nat, w: WordSize)
    requires i < |args|
    ensures Before(r, args, i + 1, w) == Advance(Before(r, args, i, w), args[i], w)
  {
  }

  lemma NarrowSame(f: seq<Byte>, f': seq<Byte>, c: Cursor, d: Cursor, w: WordSize, bytes: nat)
    requires SameBelow(f, f', d, w, bytes) && Below(c, d)
    ensures SameBelow(f, f', c, w, bytes)
  {
  }

  lemma EarlierKept(r: Return, args: seq<ArgType>, avalue: seq<seq<Byte>>, f: seq<Byte>, f': seq<Byte>, i: nat, w: WordSize, bytes: nat, base: nat)
    requires i <= |args| == |avalue| && bytes == StackBytes(Before(r, args, |args|, w), w) && SameBelow(f, f', Before(r, args, i, w), w, bytes)
    requires forall k :: 0 <= k < |args| ==> |avalue[k]| == ArgSize(args[k], w)
    requires forall k {:trigger args[k]} :: 0 <= k < i ==> Sent(f, base, Before(r, args, k, w), args[k], avalue[k], w, bytes)
    ensures forall k {:trigger args[k]} :: 0 <= k < i ==> Sent(f', base, Before(r, args, k, w), args[k], avalue[k], w, bytes)
  {
    hide Before, Advance, Sent, SameBelow, Align;
    forall k {:trigger args[k]} | 0 <= k < i
      ensures Sent(f', base, Before(r, args, k, w), args[k], avalue[k], w, bytes)
    {
      CursorGrows(r, args, k + 1, i, w);
      NarrowSame(f, f', Before(r, args, k + 1, w), Before(r, args, i, w), w, bytes);
      BeforeNext(r, args, k, w);
      AreasApart(r, args, k, w);
      AreasApart(r, args, k + 1, w);
      SentKept(f, f', base, Before(r, args, k, w), args[k], avalue[k], w, bytes);
    }
  }

  lemma HiddenKept(r: Return, args: seq<ArgType>, f: seq<Byte>, f': seq<Byte>, rvalue: seq<Byte>, i: nat, w: WordSize, bytes: nat)
    requires i <= |args| && Hidden(r) && SameBelow(f, f', Before(r, args, i, w), w, bytes) && BytesAt(f, GprAt(0, w, bytes), rvalue, 0, w)
    ensures BytesAt(f', GprAt(0, w, bytes), rvalue, 0, w)
  {
    CursorGrows(r, args, 0, i, w);
    BeforeFirst(r, args, w);
  }

  // ---------- ffi_closure_helper_SYSV ----------

  /** The address that the receiver computes for an argument. */
  ghost predicate Received(f: seq<Byte>, base: nat, c: Cursor, t: ArgType, p: nat, w: WordSize, bytes: nat) {
    PassedSize(t, w);
    var at := ValueAt(Copied(c, t, w), Passed(t, w), w, bytes);
    at + w <= |f| && p == if ByPointer(t, w) then BigEndian(f[at..at + w]) else base + at
  }

  /** The cursor as the receiver sees it, which does not count the copies. */
  predicate SameRegisters(c: Cursor, gpr: nat, fpr: nat, ov: nat) {
    c.gpr == gpr && c.fpr == fpr && c.ov == ov
  }

  /** The cases of ffi_closure_helper_SYSV for floats and doubles. */
  method LocateFloating(k: Kind, fpr0: nat, ov0: nat, w: WordSize, bytes: nat, ghost c: Cursor) returns (at: nat, fpr: nat, ov: nat)
    requires Floating(k) && (c.fpr, c.ov) == (fpr0, ov0)
    ensures at == ValueAt(c, k, w, bytes) && SameRegisters(Moved(c, k, w), c.gpr, fpr, ov)
  {
    fpr, ov := fpr0, ov0;
    if fpr < MaxFprArgs(w) {
      at, fpr := FprAt(fpr, w, bytes), fpr + 1;
    } else if k == Double {
      at, ov := WordBytes(ov, w), ov + 8 / w;
    } else {
      at, ov := WordBytes(ov, w) + w - 4, ov + 1;
    }
  }

  /** The cases of ffi_closure_helper_SYSV for integers; pointers are integers of the same size. */
  method LocateInteger(k0: Kind, gpr0: nat, ov0: nat, w: WordSize, bytes: nat, ghost c: Cursor) returns (at: nat, gpr: nat, ov: nat)
    requires k0 != LongDouble && !Floating(k0) && gpr0 <= MAX_GPRARGS && (c.gpr, c.ov) == (gpr0, ov0)
    ensures at == ValueAt(c, k0, w, bytes) && SameRegisters(Moved(c, k0, w), gpr, c.fpr, ov)
  {
    gpr, ov := gpr0, ov0;
    var k := k0;
    if k == Pointer {
      k := if w == 8 then UInt64 else UInt32;
    }
    if w == 4 && (k == UInt64 || k == SInt64) {
      if gpr == MAX_GPRARGS - 1 {
        gpr := MAX_GPRARGS;
      }
      if gpr < MAX_GPRARGS {
        at, gpr := GprAt(gpr, w, bytes), gpr + 2;
      } else {
        at, ov := WordBytes(ov, w), ov + 2;
      }
    } else if gpr < MAX_GPRARGS {
      at, gpr := GprAt(gpr, w, bytes) + w - KindSize(k), gpr + 1;
    } else {
      at, ov := WordBytes(ov, w) + w - KindSize(k), ov + 1;
    }
  }

  /** The switch of ffi_closure_helper_SYSV: an offset in the frame. */
  method LocateScalar(k: Kind, gpr0: nat, fpr0: nat, ov0: nat, w: WordSize, bytes: nat, ghost c: Cursor) returns (at: nat, gpr: nat, fpr: nat, ov: nat)
    requires k != LongDouble && gpr0 <= MAX_GPRARGS && SameRegisters(c, gpr0, fpr0, ov0)
    ensures at == ValueAt(c, k, w, bytes) && SameRegisters(Moved(c, k, w), gpr, fpr, ov)
  {
    hide ValueAt, Moved;
    gpr, fpr, ov := gpr0, fpr0, ov0;
    if Floating(k) {
      at, fpr, ov := LocateFloating(k, fpr, ov, w, bytes, c);
    } else {
      at, gpr, ov := LocateInteger(k, gpr, ov, w, bytes, c);
    }
  }

  /** ffi_closure_helper_SYSV, up to the call of the closure: the addresses of the arguments. */
  method ClosureHelper(r: Return, args: seq<ArgType>, frame: array<Byte>, w: WordSize, bytes: nat, flags: Flags, base: nat)
    returns (avalue: seq<nat>, rvalue: seq<Byte>)
    requires bytes == StackBytes(Before(r, args, |args|, w), w) && (flags == RetStruct <==> Hidden(r)) && frame.Length == FrameLength(w, bytes)
    ensures |avalue| == |args|
    ensures forall i {:trigger args[i]} :: 0 <= i < |args| ==> Received(frame[..], base, Before(r, args, i, w), args[i], avalue[i], w, bytes)
    ensures Hidden(r) ==> rvalue == frame[GprAt(0, w, bytes)..GprAt(0, w, bytes) + w]
    ensures AllRightly(r, args, w, bytes)
  {
    hide Before, Advance, Received, Align, AllRightly;
    AlwaysAllRightly(r, args, w, bytes);
    var gpr: nat, fpr: nat, ov: nat := 0, 0, 0;
    BeforeFirst(r, args, w);
    rvalue := [];
    if flags == RetStruct {
      rvalue := frame[GprAt(gpr, w, bytes)..GprAt(gpr, w, bytes) + w];
      gpr := gpr + 1;
    }
    avalue := [];
    for i := 0 to |args|
      invariant |avalue| == i && SameRegisters(Before(r, args, i, w), gpr, fpr, ov)
      invariant forall k {:trigger args[k]} :: 0 <= k < i ==> Received(frame[..], base, Before(r, args, k, w), args[k], avalue[k], w, bytes)
    {
      AreasApart(r, args, i, w);
      AreasApart(r, args, i + 1, w);
      BeforeNext(r, args, i, w);
      var p;
      p, gpr, fpr, ov := ReceiveArgument(frame, base, args[i], gpr, fpr, ov, w, bytes, Before(r, args, i, w));
      avalue := avalue + [p];
    }
  }

  /** The body of the loop of ffi_closure_helper_SYSV. */
  method ReceiveArgument(frame: array<Byte>, base: nat, t: ArgType, gpr0: nat, fpr0: nat, ov0: nat, w: WordSize, bytes: nat, ghost c: Cursor)
    returns (p: nat, gpr: nat, fpr: nat, ov: nat)
    requires Room(c, w, bytes) && Room(Advance(c, t, w), w, bytes) && SameRegisters(c, gpr0, fpr0, ov0) && frame.Length == FrameLength(w, bytes)
    ensures SameRegisters(Advance(c, t, w), gpr, fpr, ov) && Received(frame[..], base, c, t, p, w, bytes)
  {
    hide SlotAt, SlotLength, ValueAt, Align, InUse, Moved, Checked, Core, BigEndian;
    PassedAs(t, w);
    PassedSize(t, w);
    ValueInFrame(c, t, w, bytes);
    var k, deref := SInt8, false;
    if StructLike(t) {
      k := FfiCheckStructType(t, w);
      deref := k == Pointer;
    } else {
      k := t.kind;
    }
    var at;
    at, gpr, fpr, ov := LocateScalar(k, gpr0, fpr0, ov0, w, bytes, Copied(c, t, w));
    p := if deref then BigEndian(frame[at..at + w]) else base + at;
  }

  lemma ValueInFrame(c: Cursor, t: ArgType, w: WordSize, bytes: nat)
    requires Room(c, w, bytes) && Room(Advance(c, t, w), w, bytes)
    ensures Passed(t, w) != LongDouble && ValueAt(Copied(c, t, w), Passed(t, w), w, bytes) + w <= FrameLength(w, bytes)
    ensures Copied(c, t, w).gpr == c.gpr && Copied(c, t, w).fpr == c.fpr && Copied(c, t, w).ov == c.ov
  {
    hide Align;
  }

  // ---------- the round trip ----------

  /** At address p are the bytes v. */
  ghost predicate ArrivedAt(f: seq<Byte>, base: nat, p: nat, v: seq<Byte>) {
    p >= base && BytesAt(f, p - base, v, 0, |v|)
  }

  lemma Arrives(f: seq<Byte>, base: nat, c: Cursor, t: ArgType, v: seq<Byte>, p: nat, w: WordSize, bytes: nat)
    requires |v| == ArgSize(t, w) && Sent(f, base, c, t, v, w, bytes) && Received(f, base, c, t, p, w, bytes)
    requires |f| == FrameLength(w, bytes) && base + |f| <= Power(w)
    ensures ArrivedAt(f, base, p, v)
  {
    hide ValueAt, Align, Encode, BigEndian, Power, Checked, Core, SlotHolds;
    PassedSize(t, w);
    if ByPointer(t, w) {
      var s := CopyAt(c, t, w, bytes);
      var at := ValueAt(Copied(c, t, w), Pointer, w, bytes);
      assert f[at..at + w] == Encode(base + s, w);
      CopyPositive(t, w);
      EncodeDecodes(base + s, w);
    }
  }

  lemma CopyPositive(t: ArgType, w: WordSize)
    ensures RoundSize(ArgSize(t, w)) >= ArgSize(t, w)
  {
  }

  /** Every argument that ffi_prep_args has stored is found by ffi_closure_helper_SYSV, byte by byte,
      and so is the hidden pointer; whatever the signature. */
  method RoundTrip(r: Return, args: seq<ArgType>, avalue: seq<seq<Byte>>, rvalue: seq<Byte>, w: WordSize, base: nat)
    returns (frame: array<Byte>, received: seq<nat>, rvalue': seq<Byte>)
    requires |avalue| == |args| && (forall i :: 0 <= i < |args| ==> |avalue[i]| == ArgSize(args[i], w)) && |rvalue| == w
    requires base + FrameLength(w, StackBytes(Before(r, args, |args|, w), w)) <= Power(w)
    ensures var bytes := StackBytes(Before(r, args, |args|, w), w);
            && |received| == |args| && frame.Length == FrameLength(w, bytes)
            && (forall i {:trigger args[i]} :: 0 <= i < |args| ==> Sent(frame[..], base, Before(r, args, i, w), args[i], avalue[i], w, bytes))
            && (forall i {:trigger args[i]} :: 0 <= i < |args| ==> Received(frame[..], base, Before(r, args, i, w), args[i], received[i], w, bytes))
    ensures AllRightly(r, args, w, StackBytes(Before(r, args, |args|, w), w))
    ensures forall i {:trigger args[i]} :: 0 <= i < |args| ==> ArrivedAt(frame[..], base, received[i], avalue[i])
    ensures Hidden(r) ==> BytesAt(frame[..], GprAt(0, w, StackBytes(Before(r, args, |args|, w), w)), rvalue, 0, w) && rvalue' == rvalue
  {
    hide Before, Sent, Received, ArrivedAt, Align, Power, AllRightly;
    var bytes, flags := PrepCifMachdep(r, args, w);
    frame := PrepArgs(r, args, avalue, rvalue, w, bytes, flags, base);
    received, rvalue' := ClosureHelper(r, args, frame, w, bytes, flags, base);
    forall i {:trigger args[i]} | 0 <= i < |args|
      ensures ArrivedAt(frame[..], base, received[i], avalue[i])
    {
      Arrives(frame[..], base, Before(r, args, i, w), args[i], avalue[i], received[i], w, bytes);
    }
  }
}
