/** Passing arguments on x86-64: the sizing pass, the sender and the receiver walk the signature
    separately; this is why they agree, and why every field arrives. */
module X64Call {
  import opened Layout
  import opened X64Classes
  import opened X64Leaves
  import opened Bytes

  const MAX_GPR: nat := 6
  const MAX_SSE: nat := 8
  const REGS: nat := 176   // sizeof (struct register_args)

  /** gpr[i] and sse[i] within register_args. */
  function GprAt(i: nat): nat {
    8 * i
  }

  function SseAt(i: nat): nat {
    48 + 16 * i
  }

  // ---------- where arguments go ----------

  /** Registers and stack bytes used so far. */
  datatype Cursor = Cursor(gpr: nat, sse: nat, stack: nat)

  /** The test that all three passes make. */
  predicate Fits(c: Cursor, need: Need) {
    need.InRegisters? && c.gpr + need.gpr <= MAX_GPR && c.sse + need.sse <= MAX_SSE
  }

  function StackAlignment(t: Type): (a: nat)
    ensures a >= 8
  {
    if Alignment(t) < 8 then 8 else Alignment(t)
  }

  function StackPlace(c: Cursor, t: Type): nat {
    Align(c.stack, StackAlignment(t))
  }

  function Advance(c: Cursor, t: Type): Cursor {
    var need := Examine(t, false);
    if Fits(c, need) then Cursor(c.gpr + need.gpr, c.sse + need.sse, c.stack)
    else c.(stack := StackPlace(c, t) + Size(t))
  }

  datatype Return = Void | Returns(t: Type)

  /** The result is returned in memory, by way of a hidden first argument. */
  predicate Hidden(r: Return) {
    r.Returns? && Examine(r.t, true) == InMemory
  }

  function Start(r: Return): Cursor {
    Cursor(if Hidden(r) then 1 else 0, 0, 0)
  }

  /** The cursor before argument i. */
  function Before(r: Return, args: seq<Type>, i: nat): Cursor
    requires i <= |args|
  {
    if i == 0 then Start(r) else Advance(Before(r, args, i - 1), args[i - 1])
  }

  lemma BeforeFirst(r: Return, args: seq<Type>)
    ensures Before(r, args, 0) == Start(r)
  {
  }

  lemma BeforeNext(r: Return, args: seq<Type>, i: nat)
    requires i < |args|
    ensures Before(r, args, i + 1) == Advance(Before(r, args, i), args[i])
  {
  }

  lemma {:induction false} WithinRegisters(r: Return, args: seq<Type>, i: nat)
    requires i <= |args|
    ensures Before(r, args, i).gpr <= MAX_GPR && Before(r, args, i).sse <= MAX_SSE
  {
    if i > 0 { WithinRegisters(r, args, i - 1); }
  }

  lemma {:induction false} CursorGrows(r: Return, args: seq<Type>, i: nat, j: nat)
    requires i <= j <= |args|
    ensures var c, d := Before(r, args, i), Before(r, args, j); c.gpr <= d.gpr && c.sse <= d.sse && c.stack <= d.stack
    decreases j
  {
    hide Advance;
    if i < j {
      CursorGrows(r, args, i, j - 1);
      AdvanceGrows(Before(r, args, j - 1), args[j - 1]);
    }
  }

  lemma AdvanceGrows(c: Cursor, t: Type)
    ensures var d := Advance(c, t); c.gpr <= d.gpr && c.sse <= d.sse && c.stack <= d.stack
  {
    hide Examine, Align, Alignment, Size;
  }

  /** Only scalars smaller than 16 bytes and small structs are in registers, so a struct in
      memory is what a return in memory is. */
  lemma HiddenIsStruct(r: Return)
    requires Hidden(r)
    ensures r.t.Struct?
  {
  }

  // ---------- whether that is right ----------

  /** struct register_args: six general registers, then eight SSE registers, then the stack. */
  lemma RegisterArgs(i: nat)
    ensures GprAt(0) == 0 && GprAt(i + 1) == GprAt(i) + 8 && SseAt(0) == GprAt(6)
    ensures SseAt(i + 1) == SseAt(i) + 16 && REGS == SseAt(8)
  {
  }

  /** An argument goes in registers exactly if it has at most 16 bytes and no long double, and all of
      it still fits into the frame's registers; a stack argument lies at the least suitable place
      behind the stack so far. */
  ghost predicate Rightly(c: Cursor, t: Type) {
    var need, a := Examine(t, false), if Alignment(t) > 8 then Alignment(t) else 8;
    && (need.InRegisters? <==> NoLongDouble(t) && Size(t) <= 16)
    && (Fits(c, need) <==> need.InRegisters? && GprAt(c.gpr + need.gpr) <= SseAt(0) && SseAt(c.sse + need.sse) <= REGS)
    && StackPlace(c, t) % a == 0 && c.stack <= StackPlace(c, t) < c.stack + a
  }

  lemma AlwaysRightly(c: Cursor, t: Type)
    requires WellFormed(t)
    ensures Rightly(c, t)
  {
    hide Align, Classify, Size, Alignment;
    SmallInRegisters(t);
    AlignMultiple(c.stack, StackAlignment(t));
  }

  /** What may go in registers, as a property of the type. */
  lemma SmallInRegisters(t: Type)
    requires WellFormed(t)
    ensures Examine(t, false).InRegisters? <==> NoLongDouble(t) && Size(t) <= 16
  {
    hide Classify, Size, Alignment;
    if !NoLongDouble(t) {
      LongDoubleInMemory(t);
    } else {
      if Size(t) <= 16 {
        NotRejected(t, 0);
        ClassifyKept(t, 0);
        KeptPlain(Leaves(t, 0), Classify(t, 0), 0);
      } else {
        ScalarSizes(t);
        LargeInMemory(t, 0);
      }
    }
  }

  /** The stack arguments follow each other with no more room between them than their alignment asks for. */
  lemma {:induction false} StackTight(r: Return, args: seq<Type>, i: nat)
    requires i <= |args|
    ensures forall k :: 0 <= k < i && OnStack(r, args, k) ==> PlaceAt(r, args, k) + Size(args[k]) <= Before(r, args, i).stack
    ensures Before(r, args, i).stack == 0 || exists k :: 0 <= k < i && OnStack(r, args, k) && Before(r, args, i).stack == PlaceAt(r, args, k) + Size(args[k])
  {
    hide Align, Size, Examine, Alignment;
    if i > 0 {
      StackTight(r, args, i - 1);
      if OnStack(r, args, i - 1) { assert Before(r, args, i).stack == PlaceAt(r, args, i - 1) + Size(args[i - 1]); }
    }
  }

  predicate OnStack(r: Return, args: seq<Type>, i: int) {
    0 <= i < |args| && !Fits(Before(r, args, i), Examine(args[i], false))
  }

  function PlaceAt(r: Return, args: seq<Type>, i: int): nat
    requires 0 <= i < |args|
  {
    StackPlace(Before(r, args, i), args[i])
  }

  // ---------- ffi_prep_cif_machdep ----------

  function TypeCode(t: Type): nat {
    match t
    case Struct(_) => 13
    case Scalar(Float) => 2
    case Scalar(Double) => 3
    case Scalar(LongDouble) => 4
    case Scalar(UInt8) => 5
    case Scalar(SInt8) => 6
    case Scalar(UInt16) => 7
    case Scalar(SInt16) => 8
    case Scalar(UInt32) => 9
    case Scalar(SInt32) => 10
    case Scalar(UInt64) => 11
    case Scalar(SInt64) => 12
    case Scalar(Pointer) => 14
  }

  const USES_SSE: nat := 2048   // 1 << 11

  /** The flags before bit 11 is decided. */
  function ReturnFlags(r: Return): nat {
    if r.Void? || Hidden(r) then 0
    else if r.t.Struct? then
      var cs := Classify(r.t, 0);
      var two := |cs| == 2;
      var sse0, sse1 := |cs| > 0 && IsSSE(cs[0]), two && IsSSE(cs[1]);
      13 + (if sse0 && !sse1 then 256 else if !sse0 && sse1 then 512 else if sse0 && sse1 then 1024 else 0) + 4096 * Size(r.t)
    else TypeCode(r.t)
  }

  /** What the flags say about the result: nothing when there is none or it is in memory; else the
      type, and of a struct its size, and for which of its two eightbytes to look in an SSE register:
      bit 8 for the first only, bit 9 for the second only, bit 10 for both. These are the eightbytes
      that hold only floats and doubles. */
  ghost predicate FlagsTell(r: Return, flags: nat) {
    if r.Void? || Size(r.t) > 16 then flags % 256 == 0 && flags / 256 % 8 == 0 && flags / 4096 == 0
    else if r.t.Scalar? then flags % 256 == TypeCode(r.t) && flags / 256 % 8 == 0 && flags / 4096 == 0
    else
      && flags % 256 == 13 && flags / 4096 == Size(r.t)
      && (NoStraddle(r.t, 0) ==>
            var first, second := FloatsOnly(Leaves(r.t, 0), 0), FloatsOnly(Leaves(r.t, 0), 1);
            flags / 256 % 8 == if first && second then 4 else if second then 2 else if first then 1 else 0)
  }

  /** ffi_prep_cif_machdep: the bytes of stack that a call needs, and its flags. */
  method PrepCifMachdep(r: Return, args: seq<Type>) returns (bytes: nat, flags: nat)
    requires r.Returns? ==> WellFormed(r.t)
    ensures bytes == Align(Before(r, args, |args|).stack, 8)
    ensures flags / USES_SSE % 2 == 1 <==> Before(r, args, |args|).sse > 0
    ensures FlagsTell(r, flags)
    ensures flags % 256 == 0 <==> r.Void? || Hidden(r)
  {
    hide Align, Classify, Size, Alignment, FlagsTell;
    var gprcount: nat, ssecount: nat := 0, 0;
    flags := 0;
    if r.Returns? {
      flags := TypeCode(r.t);
      var need, cs := ExamineArgument(r.t, true);
      if need.InMemory? {
        gprcount := gprcount + 1;
        flags := 0;
      } else if r.t.Struct? {
        var sse0 := |cs| > 0 && IsSSE(cs[0]);
        var sse1 := |cs| == 2 && IsSSE(cs[1]);
        if sse0 && !sse1 {
          flags := flags + 256;
        } else if !sse0 && sse1 {
          flags := flags + 512;
        } else if sse0 && sse1 {
          flags := flags + 1024;
        }
        flags := flags + 4096 * Size(r.t);
      }
    }
    assert flags == ReturnFlags(r);
    bytes := 0;
    for i := 0 to |args|
      invariant Cursor(gprcount, ssecount, bytes) == Before(r, args, i)
    {
      var need, cs := ExamineArgument(args[i], false);
      if !need.InRegisters? || gprcount + need.gpr > MAX_GPR || ssecount + need.sse > MAX_SSE {
        var align := Alignment(args[i]);
        if align < 8 {
          align := 8;
        }
        bytes := Align(bytes, align);
        bytes := bytes + Size(args[i]);
      } else {
        gprcount := gprcount + need.gpr;
        ssecount := ssecount + need.sse;
      }
    }
    FlagBits(r);
    if ssecount > 0 {
      flags := flags + USES_SSE;
    }
    SseBitTells(r, ReturnFlags(r), flags);
    bytes := Align(bytes, 8);
  }

  /** Bit 11 is free before, and no flag disturbs another. */
  lemma FlagBits(r: Return)
    requires r.Returns? ==> WellFormed(r.t)
    ensures var f := ReturnFlags(r);
            && SameButSse(f, f) && SameButSse(f, f + USES_SSE) && f / USES_SSE % 2 == 0 && (f + USES_SSE) / USES_SSE % 2 == 1
            && FlagsTell(r, f)
  {
    hide Classify, Size, FloatsOnly, Leaves, NoStraddle, WellFormed;
    var f := ReturnFlags(r);
    if r.Returns? { MemoryReturn(r.t); }
    if r.Returns? && !Hidden(r) && r.t.Struct? {
      LowBits(f - 4096 * Size(r.t), Size(r.t));
      if NoStraddle(r.t, 0) { ReturnedClasses(r.t); }
    } else {
      LowBits(f, 0);
    }
  }

  /** Setting bit 11 changes no other part of the flags. */
  predicate SameButSse(f: nat, g: nat) {
    g % 256 == f % 256 && g / 256 % 8 == f / 256 % 8 && g / 4096 == f / 4096
  }

  lemma SseBitTells(r: Return, f: nat, g: nat)
    requires (r.Returns? ==> WellFormed(r.t)) && FlagsTell(r, f) && SameButSse(f, g)
    ensures FlagsTell(r, g) && (g % 256 == 0 <==> r.Void? || Hidden(r))
  {
    hide Size, FloatsOnly, Leaves, NoStraddle, Hidden, WellFormed;
    if r.Returns? { MemoryReturn(r.t); }
  }

  lemma LowBits(low: nat, size: nat)
    requires low < 2048
    ensures var f := low + 4096 * size;
            && SameButSse(f, f + 2048) && f / 2048 % 2 == 0 && (f + 2048) / 2048 % 2 == 1
            && f % 256 == low % 256 && f / 256 % 8 == low / 256 && f / 4096 == size
  {
    hide SameButSse;
    var f := low + 4096 * size;
    DivUnique(f, 2048, 2 * size, low);
    DivUnique(f + 2048, 2048, 2 * size + 1, low);
    FlagParts(low, size, 0);
    FlagParts(low, size, 1);
    SameParts(f, f + 2048);
  }

  lemma SameParts(f: nat, g: nat)
    requires g % 256 == f % 256 && g / 256 % 8 == f / 256 % 8 && g / 4096 == f / 4096
    ensures SameButSse(f, g)
  {
  }

  lemma FlagParts(low: nat, size: nat, sse: nat)
    requires low < 2048 && sse <= 1
    ensures var f := low + 4096 * size + 2048 * sse; f % 256 == low % 256 && f / 256 % 8 == low / 256 && f / 4096 == size
  {
    var f, part := low + 4096 * size + 2048 * sse, 16 * size + 8 * sse + low / 256;
    DivUnique(f, 256, part, low % 256);
    DivUnique(part, 8, 2 * size + sse, low / 256);
    DivUnique(f, 4096, size, low + 2048 * sse);
  }

  /** A result is in memory exactly if it is larger than two eightbytes. */
  lemma MemoryReturn(t: Type)
    requires WellFormed(t)
    ensures Hidden(Returns(t)) <==> Size(t) > 16
    ensures t.Scalar? ==> Size(t) <= 16
  {
    hide Classify, Size, Alignment;
    ScalarAtMost(t);
    if Size(t) > 16 {
      LargeInMemory(t, 0);
    } else if NoLongDouble(t) {
      NotRejected(t, 0);
    } else {
      LongDoubleShape(t);
    }
  }

  lemma ScalarAtMost(t: Type)
    ensures t.Scalar? ==> Size(t) <= 16
  {
  }

  /** The classes of a struct that is returned in registers, by its fields. */
  lemma ReturnedClasses(t: Type)
    requires WellFormed(t) && t.Struct? && !Hidden(Returns(t)) && NoStraddle(t, 0)
    ensures var cs := Classify(t, 0);
            && (|cs| > 0 && IsSSE(cs[0]) <==> FloatsOnly(Leaves(t, 0), 0))
            && (|cs| == 2 && IsSSE(cs[1]) <==> FloatsOnly(Leaves(t, 0), 1))
  {
    hide Classify, Size, Leaves, NoStraddle, FloatsOnly;
    MemoryReturn(t);
    if NoLongDouble(t) {
      NotRejected(t, 0);
      ClassifyKept(t, 0);
      SseExactly(t, 0);
      SseExactly(t, 1);
    } else {
      LongDoubleShape(t);
      OnlyLongDouble();
    }
  }

  lemma OnlyLongDouble()
    ensures !FloatsOnly([Leaf(0, LongDouble)], 0) && !FloatsOnly([Leaf(0, LongDouble)], 1)
  {
    assert Leaf(0, LongDouble) in [Leaf(0, LongDouble)];
  }

  /** No two types of result but structs have one code. */
  lemma TypeCodesDiffer(k: Kind, m: Kind, es: seq<Type>)
    ensures TypeCode(Scalar(k)) == TypeCode(Scalar(m)) ==> k == m
    ensures TypeCode(Scalar(k)) != 0 && TypeCode(Struct(es)) != 0 && TypeCode(Scalar(k)) != TypeCode(Struct(es))
  {
  }

  // ---------- the argument frame ----------

  /** Where eightbyte j of an argument in registers lies in the frame. */
  function WordAt(c: Cursor, cs: seq<Class>, j: nat): nat
    requires j < |cs|
  {
    if IsSSE(cs[j]) then SseAt(c.sse + CountSse(cs[..j])) else GprAt(c.gpr + CountGpr(cs[..j]))
  }

  /** How many bytes of an eightbyte are copied; left is what remains of the argument. */
  function CopyLength(c: Class, left: int): int {
    if c == SSESF then 4 else if IsSSE(c) then 8 else if left < 8 then left else 8
  }

  /** The sender aborts on an argument in registers one of whose eightbytes has no class. */
  predicate Passable(c: Cursor, t: Type) {
    Fits(c, Examine(t, false)) ==> NoClass !in Classify(t, 0)
  }

  /** There are only zeros from one place to another. */
  predicate ZerosAt(f: seq<Byte>, from: nat, to: nat) {
    to <= |f| && forall x {:trigger f[x]} :: from <= x < to ==> f[x] == 0
  }

  /** What a register holds: the bytes of the eightbyte, and zeros above them. */
  predicate WordSent(f: seq<Byte>, c: Cursor, cs: seq<Class>, v: seq<Byte>, j: nat) {
    j < |cs| && 8 * j <= |v| ==>
      var at, n := WordAt(c, cs, j), CopyLength(cs[j], |v| - 8 * j);
      0 <= n && BytesAt(f, at, v, 8 * j, n) && ZerosAt(f, at + n, at + if IsSSE(cs[j]) then 16 else 8)
  }

  /** The value v of an argument of type t lies in the frame as the sender puts it there. */
  ghost predicate Sent(f: seq<Byte>, c: Cursor, t: Type, v: seq<Byte>) {
    if Fits(c, Examine(t, false)) then forall j: nat {:trigger WordSent(f, c, Classify(t, 0), v, j)} :: WordSent(f, c, Classify(t, 0), v, j)
    else BytesAt(f, REGS + StackPlace(c, t), v, 0, Size(t))
  }

  // ---------- the classes of an argument in registers ----------

  /** What the sender relies on for an argument in registers. */
  lemma InRegistersShape(t: Type)
    requires WellFormed(t) && Examine(t, false).InRegisters?
    ensures Regular(t) && Size(t) <= 16 && 1 <= |Classify(t, 0)| <= 2 && |Classify(t, 0)| == Words(t)
    ensures Kept(Leaves(t, 0), Classify(t, 0), 0)
    ensures forall j :: 0 <= j < |Classify(t, 0)| ==> Plain(Classify(t, 0)[j])
    ensures Examine(t, false) == InRegisters(|Classify(t, 0)|, CountGpr(Classify(t, 0)), CountSse(Classify(t, 0)))
  {
    hide Classify, Size, Alignment;
    if !NoLongDouble(t) { LongDoubleInMemory(t); }
    if t.Struct? && Size(t) > 16 { LargeInMemory(t, 0); }
    ScalarSizes(t);
    SizePositive(t);
    ClassifyKept(t, 0);
    KeptPlain(Leaves(t, 0), Classify(t, 0), 0);
  }

  /** No word is read beyond the end of the argument: the class says how far a field reaches. */
  lemma CopyWithin(t: Type, j: nat)
    requires WellFormed(t) && Examine(t, false).InRegisters? && j < |Classify(t, 0)| && Classify(t, 0)[j] != NoClass
    ensures 8 * j < Size(t) && var n := CopyLength(Classify(t, 0)[j], Size(t) - 8 * j); 0 < n && 8 * j + n <= Size(t)
  {
    hide Classify, Size, Alignment;
    InRegistersShape(t);
    var ls, cs := Leaves(t, 0), Classify(t, 0);
    assert ClassOk(ls, cs, j);
    LeavesInside(t, 0);
    if cs[j] == SSESF { assert Inside(Leaf(8 * j, Float), 0, Size(t)); }
    if Leaf(8 * j + 4, Float) in ls { assert Inside(Leaf(8 * j + 4, Float), 0, Size(t)); }
    if Leaf(8 * j, Double) in ls { assert Inside(Leaf(8 * j, Double), 0, Size(t)); }
  }

  /** The bytes of a field are among those that are copied. */
  lemma FieldCopied(t: Type, l: Leaf)
    requires WellFormed(t) && Examine(t, false).InRegisters? && NoClass !in Classify(t, 0) && l in Leaves(t, 0)
    ensures var j := l.offset / 8;
            && j < |Classify(t, 0)| && l.offset + KindSize(l.kind) <= Size(t)
            && l.offset % 8 + KindSize(l.kind) <= CopyLength(Classify(t, 0)[j], Size(t) - 8 * j)
  {
    hide Classify, Size, Alignment, Leaves;
    InRegistersShape(t);
    var ls, cs := Leaves(t, 0), Classify(t, 0);
    LeavesInside(t, 0);
    LeavesLong(t, 0);
    assert Inside(l, 0, Size(t)) && LeafOk(cs, 0, l);
    assert cs[l.offset / 8] in cs;
    FieldInWord(l.offset, KindSize(l.kind));
  }

  lemma FieldInWord(o: nat, s: nat)
    requires s in {1, 2, 4, 8} && o % s == 0
    ensures o % 8 + s <= 8
  {
    AlignedWithin(o, s);
  }

  /** Which registers: an eightbyte of floats and doubles goes in an SSE register, and any other in a
      general one. */
  ghost predicate RightRegisters(c: Cursor, t: Type) {
    Fits(c, Examine(t, false)) && NoStraddle(t, 0) ==>
      forall j: nat {:trigger WordAt(c, Classify(t, 0), j)} :: j < |Classify(t, 0)| ==>
        var at := WordAt(c, Classify(t, 0), j);
        if FloatsOnly(Leaves(t, 0), j) then SseAt(c.sse) <= at && at + 16 <= SseAt(8) else GprAt(c.gpr) <= at && at + 8 <= GprAt(6)
  }

  lemma AlwaysRightRegisters(c: Cursor, t: Type)
    requires WellFormed(t)
    ensures RightRegisters(c, t)
  {
    hide Classify, Size, Alignment, Examine, Leaves, WordAt, FloatsOnly;
    if Fits(c, Examine(t, false)) && NoStraddle(t, 0) {
      InRegistersShape(t);
      forall j: nat | j < |Classify(t, 0)|
        ensures var at := WordAt(c, Classify(t, 0), j);
                if FloatsOnly(Leaves(t, 0), j) then SseAt(c.sse) <= at && at + 16 <= SseAt(8) else GprAt(c.gpr) <= at && at + 8 <= GprAt(6)
      {
        NoneLost(t, j);
        WordWhere(c, t, j);
        SseExactly(t, j);
      }
    }
  }

  /** No register is left out: between the cursors of an argument each holds one of its eightbytes. */
  lemma RegistersFilled(c: Cursor, t: Type, k: nat)
    requires WellFormed(t) && Fits(c, Examine(t, false))
    ensures c.gpr <= k < Advance(c, t).gpr ==> exists j {:trigger WordAt(c, Classify(t, 0), j)} :: 0 <= j < |Classify(t, 0)| && WordAt(c, Classify(t, 0), j) == GprAt(k)
    ensures c.sse <= k < Advance(c, t).sse ==> exists j {:trigger WordAt(c, Classify(t, 0), j)} :: 0 <= j < |Classify(t, 0)| && WordAt(c, Classify(t, 0), j) == SseAt(k)
  {
    hide Classify, Size, Alignment, Examine, CountGpr, CountSse;
    InRegistersShape(t);
    var cs := Classify(t, 0);
    if c.gpr <= k < Advance(c, t).gpr {
      var j := SlotOf(cs, k - c.gpr, false);
      WordDef(c, cs, j);
    }
    if c.sse <= k < Advance(c, t).sse {
      var j := SlotOf(cs, k - c.sse, true);
      WordDef(c, cs, j);
    }
  }

  /** The eightbyte that has so many of its sort before it. */
  lemma {:induction false} SlotOf(cs: seq<Class>, k: nat, sse: bool) returns (j: nat)
    requires k < if sse then CountSse(cs) else CountGpr(cs)
    ensures j < |cs| && if sse then IsSSE(cs[j]) && CountSse(cs[..j]) == k else !IsSSE(cs[j]) && CountGpr(cs[..j]) == k
  {
    var front := cs[..|cs| - 1];
    if k < if sse then CountSse(front) else CountGpr(front) {
      j := SlotOf(front, k, sse);
      assert front[..j] == cs[..j];
    } else {
      j := |cs| - 1;
    }
  }

  /** Without straddling structs every argument can be passed. */
  lemma StraddleFreePassable(c: Cursor, t: Type)
    requires WellFormed(t) && NoStraddle(t, 0)
    ensures Passable(c, t)
  {
    hide Classify;
    if Fits(c, Examine(t, false)) {
      InRegistersShape(t);
      var cs := Classify(t, 0);
      forall j | 0 <= j < |cs|
        ensures cs[j] != NoClass
      {
        NoneLost(t, j);
      }
    }
  }

  lemma {:induction false} CountsWithin(cs: seq<Class>, j: nat)
    requires j <= |cs|
    ensures CountGpr(cs[..j]) <= CountGpr(cs) && CountSse(cs[..j]) <= CountSse(cs)
    ensures j < |cs| && cs[j] in {Integer, IntegerSI} ==> CountGpr(cs[..j]) < CountGpr(cs)
    ensures j < |cs| && cs[j] in {SSE, SSESF, SSEDF} ==> CountSse(cs[..j]) < CountSse(cs)
  {
    if j == |cs| {
      assert cs[..j] == cs;
    } else {
      var front := cs[..|cs| - 1];
      CountsWithin(front, j);
      assert front[..j] == cs[..j];
    }
  }

  // ---------- what later arguments leave alone ----------

  /** Byte x of the frame is in use before the cursor. */
  predicate InUse(c: Cursor, x: nat) {
    x < GprAt(c.gpr) || SseAt(0) <= x < SseAt(c.sse) || REGS <= x < REGS + c.stack
  }

  predicate SameBelow(f: seq<Byte>, f': seq<Byte>, c: Cursor) {
    |f'| == |f| && forall x {:trigger f'[x]} :: 0 <= x < |f| && InUse(c, x) ==> f'[x] == f[x]
  }

  /** The register slots of an argument lie between its cursor and the next. */
  lemma WordWhere(c: Cursor, t: Type, j: nat)
    requires WellFormed(t) && Fits(c, Examine(t, false)) && j < |Classify(t, 0)| && Classify(t, 0)[j] != NoClass
    ensures var d, at := Advance(c, t), WordAt(c, Classify(t, 0), j);
            if IsSSE(Classify(t, 0)[j]) then SseAt(c.sse) <= at && at + 16 <= SseAt(d.sse) <= REGS
            else GprAt(c.gpr) <= at && at + 8 <= GprAt(d.gpr) <= SseAt(0)
  {
    hide Classify, Size, Alignment, Examine, CountGpr, CountSse;
    InRegistersShape(t);
    var cs := Classify(t, 0);
    CountsWithin(cs, j);
    assert Plain(cs[j]);
  }

  lemma SentKept(f: seq<Byte>, f': seq<Byte>, c: Cursor, t: Type, v: seq<Byte>)
    requires WellFormed(t) && |v| == Size(t) && Passable(c, t) && Sent(f, c, t, v) && SameBelow(f, f', Advance(c, t))
    ensures Sent(f', c, t, v)
  {
    hide Classify, Size, Alignment, Examine, WordAt, CountGpr, CountSse, Align;
    if Fits(c, Examine(t, false)) {
      var cs := Classify(t, 0);
      forall j: nat
        ensures WordSent(f', c, cs, v, j)
      {
        assert WordSent(f, c, cs, v, j);
        if j < |cs| && 8 * j <= |v| {
          assert cs[j] in cs;
          WordWhere(c, t, j);
          CopyWithin(t, j);
          var at, n := WordAt(c, cs, j), CopyLength(cs[j], |v| - 8 * j);
          BytesKept(f, f', Advance(c, t), at, v, 8 * j, n);
          ZerosKept(f, f', Advance(c, t), at + n, at + if IsSSE(cs[j]) then 16 else 8);
        }
      }
    } else {
      BytesKept(f, f', Advance(c, t), REGS + StackPlace(c, t), v, 0, Size(t));
    }
  }

  lemma BytesKept(f: seq<Byte>, f': seq<Byte>, c: Cursor, at: nat, v: seq<Byte>, from: nat, n: nat)
    requires SameBelow(f, f', c) && BytesAt(f, at, v, from, n) && forall x: nat :: at <= x < at + n ==> InUse(c, x)
    ensures BytesAt(f', at, v, from, n)
  {
  }

  lemma ZerosKept(f: seq<Byte>, f': seq<Byte>, c: Cursor, from: nat, to: nat)
    requires SameBelow(f, f', c) && ZerosAt(f, from, to) && forall x: nat :: from <= x < to ==> InUse(c, x)
    ensures ZerosAt(f', from, to)
  {
  }

  lemma SameBelowTrans(f: seq<Byte>, g: seq<Byte>, h: seq<Byte>, c: Cursor, d: Cursor)
    requires SameBelow(f, g, c) && SameBelow(g, h, d) && c.gpr <= d.gpr && c.sse <= d.sse && c.stack <= d.stack
    ensures SameBelow(f, h, c)
  {
    forall x | 0 <= x < |f| && InUse(c, x)
      ensures h[x] == f[x]
    {
      assert InUse(d, x) && g[x] == f[x];
    }
  }

  // ---------- ffi_call ----------

  /** One eightbyte of an argument, put into the register that is next. */
  method SendWord(frame: array<Byte>, c: Cursor, t: Type, v: seq<Byte>, cs: seq<Class>, j: nat, gpr: nat, sse: nat) returns (gprcount: nat, ssecount: nat)
    requires WellFormed(t) && Fits(c, Examine(t, false)) && |v| == Size(t) && frame.Length >= REGS && cs == Classify(t, 0)
    requires j < |cs| && cs[j] != NoClass && Plain(cs[j]) && gpr == c.gpr + CountGpr(cs[..j]) && sse == c.sse + CountSse(cs[..j])
    modifies frame
    ensures gprcount == c.gpr + CountGpr(cs[..j + 1]) && ssecount == c.sse + CountSse(cs[..j + 1])
    ensures WordSent(frame[..], c, cs, v, j)
    ensures OnlyWord(old(frame[..]), frame[..], c, cs, j)
    ensures SameBelow(old(frame[..]), frame[..], c)
  {
    hide Classify, Size, Alignment, Examine, Align, CountGpr, CountSse, WordAt;
    assert cs[..j + 1] == cs[..j] + [cs[j]];
    CountOne(cs[..j], cs[j]);
    WordWhere(c, t, j);
    CopyWithin(t, j);
    WordDef(c, cs, j);
    gprcount, ssecount := gpr, sse;
    var left := |v| - 8 * j;
    if cs[j] == Integer || cs[j] == IntegerSI {
      Store(frame, GprAt(gprcount), 8, v, 8 * j, if left < 8 then left else 8);
      gprcount := gprcount + 1;
    } else if cs[j] == SSESF {
      Store(frame, SseAt(ssecount), 16, v, 8 * j, 4);
      ssecount := ssecount + 1;
    } else {
      Store(frame, SseAt(ssecount), 16, v, 8 * j, 8);
      ssecount := ssecount + 1;
    }
  }

  /** The part of ffi_call that passes one argument in registers. */
  method SendInRegisters(frame: array<Byte>, c: Cursor, t: Type, v: seq<Byte>, cs: seq<Class>) returns (ok: bool, gprcount: nat, ssecount: nat)
    requires WellFormed(t) && Fits(c, Examine(t, false)) && |v| == Size(t) && frame.Length >= REGS && cs == Classify(t, 0)
    modifies frame
    ensures ok <==> Passable(c, t)
    ensures SameBelow(old(frame[..]), frame[..], c)
    ensures ok ==> Cursor(gprcount, ssecount, c.stack) == Advance(c, t) && Sent(frame[..], c, t, v)
  {
    hide Classify, Size, Alignment, Examine, Align, CountGpr, CountSse, WordAt, Sent, Passable, WordSent, OnlyWord, SameBelow, WellFormed;
    PassableInRegisters(c, t);
    InRegistersShape(t);
    SameBelowRefl(frame[..], c);
    gprcount, ssecount := c.gpr, c.sse;
    CountNone();
    assert cs[..0] == [];
    for j := 0 to |cs|
      invariant gprcount == c.gpr + CountGpr(cs[..j]) && ssecount == c.sse + CountSse(cs[..j])
      invariant forall k {:trigger cs[k]} :: 0 <= k < j ==> cs[k] != NoClass
      invariant SameBelow(old(frame[..]), frame[..], c)
      invariant forall k: nat {:trigger WordSent(frame[..], c, cs, v, k)} :: k < j ==> WordSent(frame[..], c, cs, v, k)
    {
      ghost var f := frame[..];
      if cs[j] == NoClass {
        assert cs[j] in cs;
        return false, gprcount, ssecount;
      }
      gprcount, ssecount := SendWord(frame, c, t, v, cs, j, gprcount, ssecount);
      SameBelowTrans(old(frame[..]), f, frame[..], c, c);
      forall k: nat | k < j
        ensures WordSent(frame[..], c, cs, v, k)
      {
        assert WordSent(f, c, cs, v, k);
        EarlierWord(f, frame[..], c, t, v, k, j);
      }
    }
    assert cs[..|cs|] == cs;
    AllSent(frame[..], c, t, v);
    ok := true;
  }

  lemma SameBelowRefl(f: seq<Byte>, c: Cursor)
    ensures SameBelow(f, f, c)
  {
  }

  /** Nothing but the slot of eightbyte j changes. */
  predicate OnlyWord(f: seq<Byte>, f': seq<Byte>, c: Cursor, cs: seq<Class>, j: nat) {
    && j < |cs| && |f'| == |f|
    && var at, width := WordAt(c, cs, j), if IsSSE(cs[j]) then 16 else 8;
       forall x {:trigger f'[x]} :: 0 <= x < |f| && !(at <= x < at + width) ==> f'[x] == f[x]
  }

  lemma PassableInRegisters(c: Cursor, t: Type)
    requires Fits(c, Examine(t, false))
    ensures Passable(c, t) <==> NoClass !in Classify(t, 0)
  {
  }

  lemma WordDef(c: Cursor, cs: seq<Class>, j: nat)
    requires j < |cs|
    ensures WordAt(c, cs, j) == if IsSSE(cs[j]) then SseAt(c.sse + CountSse(cs[..j])) else GprAt(c.gpr + CountGpr(cs[..j]))
  {
  }

  lemma AllSent(f: seq<Byte>, c: Cursor, t: Type, v: seq<Byte>)
    requires Fits(c, Examine(t, false))
    requires forall k: nat {:trigger WordSent(f, c, Classify(t, 0), v, k)} :: k < |Classify(t, 0)| ==> WordSent(f, c, Classify(t, 0), v, k)
    ensures Sent(f, c, t, v)
  {
    forall j: nat
      ensures WordSent(f, c, Classify(t, 0), v, j)
    {
    }
  }

  /** The words of one argument have slots of their own. */
  lemma EarlierWord(f: seq<Byte>, f': seq<Byte>, c: Cursor, t: Type, v: seq<Byte>, k: nat, j: nat)
    requires WellFormed(t) && Fits(c, Examine(t, false)) && |v| == Size(t) && |f'| == |f|
    requires var cs := Classify(t, 0);
             k < j < |cs| && cs[k] != NoClass && cs[j] != NoClass && WordSent(f, c, cs, v, k) && OnlyWord(f, f', c, cs, j)
    ensures WordSent(f', c, Classify(t, 0), v, k)
  {
    hide Classify, Size, Alignment, Examine, Align, CountGpr, CountSse;
    InRegistersShape(t);
    var cs := Classify(t, 0);
    assert Plain(cs[k]) && Plain(cs[j]);
    CountsWithin(cs[..j], k);
    assert cs[..j][..k] == cs[..k] && cs[..j][k] == cs[k];
    WordWhere(c, t, k);
    WordWhere(c, t, j);
    CopyWithin(t, k);
  }

  /** Everything that ffi_call and its partner assume of a prepared signature. */
  ghost predicate Prepared(r: Return, args: seq<Type>, bytes: nat, flags: nat) {
    && (r.Returns? ==> WellFormed(r.t)) && (forall t :: t in args ==> WellFormed(t))
    && bytes == Align(Before(r, args, |args|).stack, 8)
    && (flags % 256 == 0 <==> r.Void? || Hidden(r))
  }

  /** Stack addresses are 16-aligned, so aligning an address is aligning the offset. */
  lemma AlignAddress(base: nat, off: nat, a: nat)
    requires base % 16 == 0 && IsAlignment(a)
    ensures Align(base + off, a) == base + Align(off, a)
  {
    if a == 16 {
      DivUnique(base + off + 15, 16, base / 16 + (off + 15) / 16, (off + 15) % 16);
    } else {
      SixteenDivides(base, a);
      AlignFrom(off, a, base);
    }
  }

  lemma SixteenDivides(x: nat, a: nat)
    requires x % 16 == 0 && a in {1, 2, 4, 8}
    ensures x % a == 0
  {
    AlignmentDivides(x, a, 16);
  }

  lemma StackBounded(r: Return, args: seq<Type>, i: nat, bytes: nat)
    requires i < |args| && bytes == Align(Before(r, args, |args|).stack, 8)
    ensures !Fits(Before(r, args, i), Examine(args[i], false)) ==> StackPlace(Before(r, args, i), args[i]) + Size(args[i]) <= bytes
  {
    hide Examine, Align, Size;
    CursorGrows(r, args, i + 1, |args|);
  }

  /** The body of the loop of ffi_call. */
  method SendArgument(frame: array<Byte>, gprcount0: nat, ssecount0: nat, argp0: nat, stackAddress: nat, t: Type, v: seq<Byte>, ghost c: Cursor)
    returns (ok: bool, gprcount: nat, ssecount: nat, argp: nat)
    requires WellFormed(t) && |v| == Size(t) && stackAddress % 16 == 0 && stackAddress + REGS <= argp0
    requires c == Cursor(gprcount0, ssecount0, argp0 - stackAddress - REGS) && c.gpr <= MAX_GPR && c.sse <= MAX_SSE
    requires frame.Length >= REGS && (!Fits(c, Examine(t, false)) ==> REGS + StackPlace(c, t) + Size(t) <= frame.Length)
    modifies frame
    ensures ok <==> Passable(c, t)
    ensures SameBelow(old(frame[..]), frame[..], c)
    ensures stackAddress + REGS <= argp
    ensures ok ==> Cursor(gprcount, ssecount, argp - stackAddress - REGS) == Advance(c, t) && Sent(frame[..], c, t, v)
  {
    hide Examine, Align, Size, Alignment, Sent, Passable, Advance, Classify;
    ghost var f := frame[..];
    gprcount, ssecount, argp := gprcount0, ssecount0, argp0;
    ok := true;
    var size := Size(t);
    var need, cs := ExamineArgument(t, false);
    if !need.InRegisters? || gprcount + need.gpr > MAX_GPR || ssecount + need.sse > MAX_SSE {
      var align := Alignment(t);
      if align < 8 {
        align := 8;
      }
      AlignmentIs(t);
      AlignAddress(stackAddress + REGS, c.stack, align);
      argp := Align(argp, align);
      Store(frame, argp - stackAddress, size, v, 0, size);
      argp := argp + size;
      SentOnStack(f, frame[..], c, t, v);
    } else {
      ok, gprcount, ssecount := SendInRegisters(frame, Cursor(gprcount, ssecount, argp - stackAddress - REGS), t, v, cs);
      AdvanceStack(c, t);
    }
  }

  lemma AdvanceStack(c: Cursor, t: Type)
    requires Fits(c, Examine(t, false))
    ensures Advance(c, t).stack == c.stack
  {
  }

  /** All registers are free but the first one when the result is larger than two eightbytes. */
  function FirstCursor(r: Return): Cursor {
    Cursor(if r.Returns? && Size(r.t) > 16 then 1 else 0, 0, 0)
  }

  lemma StartsAtFirst(r: Return)
    requires r.Returns? ==> WellFormed(r.t)
    ensures Start(r) == FirstCursor(r)
  {
    hide Size, WellFormed;
    if r.Returns? { MemoryReturn(r.t); }
  }

  /** Every argument is placed as the layout of the frame asks for. */
  ghost predicate SentRightly(r: Return, args: seq<Type>) {
    && Before(r, args, 0) == FirstCursor(r)
    && forall i {:trigger args[i]} :: 0 <= i < |args| ==> Rightly(Before(r, args, i), args[i]) && RightRegisters(Before(r, args, i), args[i])
  }

  lemma AlwaysSentRightly(r: Return, args: seq<Type>)
    requires (r.Returns? ==> WellFormed(r.t)) && forall t :: t in args ==> WellFormed(t)
    ensures SentRightly(r, args)
  {
    hide Rightly, RightRegisters, Before, WellFormed, FirstCursor, Start;
    BeforeFirst(r, args);
    StartsAtFirst(r);
    forall i {:trigger args[i]} | 0 <= i < |args|
      ensures Rightly(Before(r, args, i), args[i]) && RightRegisters(Before(r, args, i), args[i])
    {
      assert args[i] in args;
      AlwaysRightly(Before(r, args, i), args[i]);
      AlwaysRightRegisters(Before(r, args, i), args[i]);
    }
  }

  /** ffi_call, up to the call itself: the frame with its registers and stack, and the number of
      SSE registers used. stackAddress is where the frame has been allocated. */
  method FfiCall(r: Return, args: seq<Type>, avalue: seq<seq<Byte>>, rvalue: seq<Byte>, bytes: nat, flags: nat, stackAddress: nat)
    returns (ok: bool, frame: array<Byte>, ssecount: nat)
    requires Prepared(r, args, bytes, flags) && stackAddress % 16 == 0
    requires |avalue| == |args| && (forall i :: 0 <= i < |args| ==> |avalue[i]| == Size(args[i])) && |rvalue| == 8
    ensures fresh(frame) && frame.Length == REGS + bytes + 32
    ensures ok <==> forall i {:trigger args[i]} :: 0 <= i < |args| ==> Passable(Before(r, args, i), args[i])
    ensures ok ==> ssecount == Before(r, args, |args|).sse
    ensures ok ==> forall i {:trigger args[i]} :: 0 <= i < |args| ==> Sent(frame[..], Before(r, args, i), args[i], avalue[i])
    ensures ok && Hidden(r) ==> BytesAt(frame[..], GprAt(0), rvalue, 0, 8)
    ensures SentRightly(r, args)
  {
    hide Examine, Align, Size, Alignment, Sent, Passable, Advance, SentRightly, Before, WellFormed, SameBelow, Fits;
    BeforeFirst(r, args);
    AlwaysSentRightly(r, args);
    var retInMemory := r.Returns? && r.t.Struct? && flags % 256 == 0;
    if Hidden(r) { HiddenIsStruct(r); }
    frame := new Byte[REGS + bytes + 32](_ => 0);
    var argp := stackAddress + REGS;
    var gprcount: nat := 0;
    ssecount := 0;
    if retInMemory {
      Store(frame, GprAt(gprcount), 8, rvalue, 0, 8);
      gprcount := gprcount + 1;
    }
    for i := 0 to |args|
      invariant stackAddress + REGS <= argp && Cursor(gprcount, ssecount, argp - stackAddress - REGS) == Before(r, args, i)
      invariant forall k {:trigger args[k]} :: 0 <= k < i ==> Passable(Before(r, args, k), args[k])
      invariant forall k {:trigger args[k]} :: 0 <= k < i ==> Sent(frame[..], Before(r, args, k), args[k], avalue[k])
      invariant Hidden(r) ==> BytesAt(frame[..], GprAt(0), rvalue, 0, 8)
    {
      ghost var f := frame[..];
      ghost var c := Before(r, args, i);
      assert args[i] in args;
      BeforeNext(r, args, i);
      StackBounded(r, args, i, bytes);
      WithinRegisters(r, args, i);
      var sent;
      sent, gprcount, ssecount, argp := SendArgument(frame, gprcount, ssecount, argp, stackAddress, args[i], avalue[i], c);
      if !sent {
        return false, frame, ssecount;
      }
      EarlierKept(r, args, avalue, f, frame[..], i);
      if Hidden(r) { HiddenKept(r, args, f, frame[..], rvalue, i); }
    }
    ok := true;
  }

  lemma SentOnStack(f: seq<Byte>, f': seq<Byte>, c: Cursor, t: Type, v: seq<Byte>)
    requires !Fits(c, Examine(t, false)) && |v| == Size(t) && |f'| == |f| && c.gpr <= MAX_GPR && c.sse <= MAX_SSE
    requires BytesAt(f', REGS + StackPlace(c, t), v, 0, Size(t))
    requires forall x :: 0 <= x < |f| && !(REGS + StackPlace(c, t) <= x < REGS + StackPlace(c, t) + Size(t)) ==> f'[x] == f[x]
    ensures Sent(f', c, t, v) && Passable(c, t) && SameBelow(f, f', c)
    ensures Advance(c, t) == c.(stack := StackPlace(c, t) + Size(t))
  {
    hide Examine, Classify, Size, Alignment;
  }

  lemma EarlierKept(r: Return, args: seq<Type>, avalue: seq<seq<Byte>>, f: seq<Byte>, f': seq<Byte>, i: nat)
    requires i < |args| == |avalue| && (forall t :: t in args ==> WellFormed(t)) && SameBelow(f, f', Before(r, args, i))
    requires forall k :: 0 <= k < |args| ==> |avalue[k]| == Size(args[k])
    requires forall k {:trigger args[k]} :: 0 <= k < i ==> Passable(Before(r, args, k), args[k]) && Sent(f, Before(r, args, k), args[k], avalue[k])
    ensures forall k {:trigger args[k]} :: 0 <= k < i ==> Sent(f', Before(r, args, k), args[k], avalue[k])
  {
    hide Examine, Size, Sent, Passable, Advance, SameBelow, WellFormed, Before;
    forall k {:trigger args[k]} | 0 <= k < i
      ensures Sent(f', Before(r, args, k), args[k], avalue[k])
    {
      assert args[k] in args;
      CursorGrows(r, args, k + 1, i);
      BeforeNext(r, args, k);
      NarrowSame(f, f', Before(r, args, k + 1), Before(r, args, i));
      SentKept(f, f', Before(r, args, k), args[k], avalue[k]);
    }
  }

  lemma NarrowSame(f: seq<Byte>, f': seq<Byte>, c: Cursor, d: Cursor)
    requires SameBelow(f, f', d) && c.gpr <= d.gpr && c.sse <= d.sse && c.stack <= d.stack
    ensures SameBelow(f, f', c)
  {
  }

  lemma HiddenKept(r: Return, args: seq<Type>, f: seq<Byte>, f': seq<Byte>, rvalue: seq<Byte>, i: nat)
    requires i <= |args| && Hidden(r) && SameBelow(f, f', Before(r, args, i)) && BytesAt(f, GprAt(0), rvalue, 0, 8)
    ensures BytesAt(f', GprAt(0), rvalue, 0, 8)
  {
    CursorGrows(r, args, 0, i);
  }

  // ---------- ffi_closure_unix64_inner ----------

  /** What the receiver hands to the closure: an address in the frame, or a small copy. */
  datatype Pointer = InFrame(at: nat) | Copy(bytes: seq<Byte>)

  predicate CanLoad(f: seq<Byte>, p: Pointer, k: nat) {
    match p
    case InFrame(at) => at + k < |f|
    case Copy(b) => k < |b|
  }

  function Load(f: seq<Byte>, p: Pointer, k: nat): Byte
    requires CanLoad(f, p, k)
  {
    match p
    case InFrame(at) => f[at + k]
    case Copy(b) => b[k]
  }

  /** Two eightbytes that are not both in general registers are copied together. */
  predicate Scattered(cs: seq<Class>) {
    |cs| == 2 && (IsSSE(cs[0]) || IsSSE(cs[1]))
  }

  /** How the receiver counts: whatever is not SSE takes a general register. */
  function SseWords(cs: seq<Class>): nat {
    if |cs| == 0 then 0 else SseWords(cs[..|cs| - 1]) + (if IsSSE(cs[|cs| - 1]) then 1 else 0)
  }

  function OtherWords(cs: seq<Class>): nat {
    if |cs| == 0 then 0 else OtherWords(cs[..|cs| - 1]) + (if IsSSE(cs[|cs| - 1]) then 0 else 1)
  }

  /** Where the receiver looks for eightbyte j. */
  function PlaceOf(c: Cursor, cs: seq<Class>, j: nat): nat
    requires j < |cs|
  {
    if IsSSE(cs[j]) then SseAt(c.sse + SseWords(cs[..j])) else GprAt(c.gpr + OtherWords(cs[..j]))
  }

  /** The receiver's cursor after an argument. */
  function Taken(c: Cursor, t: Type): Cursor {
    var cs := Classify(t, 0);
    if Fits(c, Examine(t, false)) then Cursor(c.gpr + OtherWords(cs), c.sse + SseWords(cs), c.stack)
    else c.(stack := StackPlace(c, t) + Size(t))
  }

  /** The receiver's cursor before argument i. */
  function ReceiverAt(r: Return, args: seq<Type>, i: nat): Cursor
    requires i <= |args|
  {
    if i == 0 then Start(r) else Taken(ReceiverAt(r, args, i - 1), args[i - 1])
  }

  lemma OneWord(cs: seq<Class>, c: Class)
    ensures SseWords([]) == 0 && OtherWords([]) == 0
    ensures SseWords(cs + [c]) == SseWords(cs) + (if IsSSE(c) then 1 else 0)
    ensures OtherWords(cs + [c]) == OtherWords(cs) + (if IsSSE(c) then 0 else 1)
  {
    assert (cs + [c])[..|cs|] == cs;
  }

  lemma {:induction false} WordsCounted(cs: seq<Class>)
    requires forall j :: 0 <= j < |cs| ==> Plain(cs[j])
    ensures SseWords(cs) == CountSse(cs) && SseWords(cs) + OtherWords(cs) == |cs|
    ensures NoClass !in cs ==> OtherWords(cs) == CountGpr(cs)
  {
    if |cs| > 0 {
      var front := cs[..|cs| - 1];
      WordsCounted(front);
      if NoClass !in cs { assert NoClass !in front && cs[|cs| - 1] in cs; }
    }
  }

  /** The receiver reads within the registers, whatever the classes. */
  lemma PlaceWithin(c: Cursor, t: Type, j: nat)
    requires WellFormed(t) && Fits(c, Examine(t, false)) && j < |Classify(t, 0)|
    ensures 1 <= |Classify(t, 0)| <= 2 && PlaceOf(c, Classify(t, 0), j) + 8 <= REGS
  {
    hide Classify, Size, Alignment, Examine, CountGpr, CountSse, SseWords, OtherWords;
    InRegistersShape(t);
    var cs := Classify(t, 0);
    WordsCounted(cs[..j]);
    if IsSSE(cs[j]) { CountsWithin(cs, j); }
  }

  /** Without classless eightbytes the receiver looks where the sender has put them. */
  lemma SamePlaces(c: Cursor, t: Type)
    requires WellFormed(t) && Passable(c, t)
    ensures Taken(c, t) == Advance(c, t)
    ensures Fits(c, Examine(t, false)) ==>
              forall j: nat {:trigger PlaceOf(c, Classify(t, 0), j)} :: j < |Classify(t, 0)| ==> PlaceOf(c, Classify(t, 0), j) == WordAt(c, Classify(t, 0), j)
  {
    hide Classify, Size, Alignment, Examine, CountGpr, CountSse, SseWords, OtherWords, Align;
    if Fits(c, Examine(t, false)) {
      InRegistersShape(t);
      var cs := Classify(t, 0);
      WordsCounted(cs);
      forall j: nat | j < |cs|
        ensures PlaceOf(c, cs, j) == WordAt(c, cs, j)
      {
        assert NoClass !in cs[..j];
        WordsCounted(cs[..j]);
      }
    }
  }

  /** What is received is the argument at cursor c. */
  ghost predicate Received(f: seq<Byte>, c: Cursor, t: Type, p: Pointer) {
    var cs := Classify(t, 0);
    if !Fits(c, Examine(t, false)) then p == InFrame(REGS + StackPlace(c, t))
    else if !Scattered(cs) then |cs| > 0 && p == InFrame(PlaceOf(c, cs, 0))
    else
      && p.Copy? && |p.bytes| == 16
      && BytesAt(p.bytes, 0, f, PlaceOf(c, cs, 0), 8) && BytesAt(p.bytes, 8, f, PlaceOf(c, cs, 1), 8)
  }

  /** The part of ffi_closure_unix64_inner that finds one argument in registers. */
  method ReceiveFromRegisters(frame: array<Byte>, c: Cursor, t: Type, n: nat, cs: seq<Class>) returns (p: Pointer, gprcount: nat, ssecount: nat)
    requires WellFormed(t) && Fits(c, Examine(t, false)) && frame.Length >= REGS && cs == Classify(t, 0) && n == |cs|
    ensures Received(frame[..], c, t, p) && Cursor(gprcount, ssecount, c.stack) == Taken(c, t)
  {
    hide Classify, Size, Alignment, Examine, Align, SseWords, OtherWords;
    PlaceShape(c, t);
    gprcount, ssecount := c.gpr, c.sse;
    if n == 1 || (n == 2 && !(IsSSE(cs[0]) || IsSSE(cs[1]))) {
      ContiguousWords(cs);
      if IsSSE(cs[0]) {
        p := InFrame(SseAt(ssecount));
        ssecount := ssecount + n;
      } else {
        p := InFrame(GprAt(gprcount));
        gprcount := gprcount + n;
      }
    } else {
      var a;
      a, gprcount, ssecount := GatherWords(frame, c, t, cs);
      p := Copy(a);
    }
  }

  lemma PlaceShape(c: Cursor, t: Type)
    requires WellFormed(t) && Fits(c, Examine(t, false))
    ensures 1 <= |Classify(t, 0)| <= 2
  {
    InRegistersShape(t);
  }

  /** One eightbyte, or two in general registers. */
  lemma ContiguousWords(cs: seq<Class>)
    requires |cs| == 1 || (|cs| == 2 && !IsSSE(cs[0]) && !IsSSE(cs[1]))
    ensures SseWords(cs[..0]) == 0 && OtherWords(cs[..0]) == 0
    ensures SseWords(cs) == (if IsSSE(cs[0]) then 1 else 0) && OtherWords(cs) == (if IsSSE(cs[0]) then 0 else |cs|)
  {
    hide SseWords, OtherWords;
    assert cs[..0] == [] && cs == (if |cs| == 1 then [] + [cs[0]] else [cs[0]] + [cs[1]]);
    OneWord([], cs[0]);
    assert [] + [cs[0]] == [cs[0]];
    if |cs| == 2 { OneWord([cs[0]], cs[1]); }
  }

  /** Two eightbytes from wherever they are, made consecutive. */
  method GatherWords(frame: array<Byte>, c: Cursor, t: Type, cs: seq<Class>) returns (a: seq<Byte>, gprcount: nat, ssecount: nat)
    requires WellFormed(t) && Fits(c, Examine(t, false)) && frame.Length >= REGS && cs == Classify(t, 0) && |cs| == 2
    ensures |a| == 16 && BytesAt(a, 0, frame[..], PlaceOf(c, cs, 0), 8) && BytesAt(a, 8, frame[..], PlaceOf(c, cs, 1), 8)
    ensures gprcount == c.gpr + OtherWords(cs) && ssecount == c.sse + SseWords(cs)
  {
    hide Classify, Size, Alignment, Examine, Align, SseWords, OtherWords;
    a := [];
    gprcount, ssecount := c.gpr, c.sse;
    OneWord([], NoClass);
    assert cs[..0] == [];
    for j := 0 to |cs|
      invariant |a| == 8 * j
      invariant gprcount == c.gpr + OtherWords(cs[..j]) && ssecount == c.sse + SseWords(cs[..j])
      invariant j >= 1 ==> BytesAt(a, 0, frame[..], PlaceOf(c, cs, 0), 8)
      invariant j >= 2 ==> BytesAt(a, 8, frame[..], PlaceOf(c, cs, 1), 8)
    {
      assert cs[..j + 1] == cs[..j] + [cs[j]];
      OneWord(cs[..j], cs[j]);
      PlaceWithin(c, t, j);
      if IsSSE(cs[j]) {
        a := a + frame[SseAt(ssecount)..SseAt(ssecount) + 8];
        ssecount := ssecount + 1;
      } else {
        a := a + frame[GprAt(gprcount)..GprAt(gprcount) + 8];
        gprcount := gprcount + 1;
      }
    }
    assert cs[..|cs|] == cs;
  }

  /** Every argument is looked for where the layout of the frame says. */
  ghost predicate ReceivedRightly(r: Return, args: seq<Type>) {
    && ReceiverAt(r, args, 0) == FirstCursor(r)
    && forall i {:trigger args[i]} :: 0 <= i < |args| ==> Rightly(ReceiverAt(r, args, i), args[i]) && RightRegisters(ReceiverAt(r, args, i), args[i])
  }

  lemma AlwaysReceivedRightly(r: Return, args: seq<Type>)
    requires (r.Returns? ==> WellFormed(r.t)) && forall t :: t in args ==> WellFormed(t)
    ensures ReceivedRightly(r, args)
  {
    hide Rightly, RightRegisters, ReceiverAt, WellFormed, FirstCursor, Start;
    ReceiverFirst(r, args);
    StartsAtFirst(r);
    forall i {:trigger args[i]} | 0 <= i < |args|
      ensures Rightly(ReceiverAt(r, args, i), args[i]) && RightRegisters(ReceiverAt(r, args, i), args[i])
    {
      assert args[i] in args;
      AlwaysRightly(ReceiverAt(r, args, i), args[i]);
      AlwaysRightRegisters(ReceiverAt(r, args, i), args[i]);
    }
  }

  /** ffi_closure_unix64_inner, up to the call of the closure. argp is the address of the stack
      arguments, which lie behind the registers in the frame. */
  method FfiClosureInner(r: Return, args: seq<Type>, frame: array<Byte>, argp0: nat) returns (avalue: seq<Pointer>, rvalue: seq<Byte>)
    requires (r.Returns? ==> WellFormed(r.t)) && (forall t :: t in args ==> WellFormed(t))
    requires argp0 % 16 == 0 && frame.Length >= REGS
    ensures |avalue| == |args|
    ensures forall i {:trigger args[i]} :: 0 <= i < |args| ==> Received(frame[..], ReceiverAt(r, args, i), args[i], avalue[i])
    ensures Hidden(r) ==> rvalue == frame[GprAt(0)..GprAt(0) + 8]
    ensures ReceivedRightly(r, args)
  {
    hide ReceivedRightly, Examine, Align, Size, Alignment, Classify, Received, ReceiverAt, Taken, WellFormed;
    AlwaysReceivedRightly(r, args);
    ReceiverFirst(r, args);
    var gprcount: nat, ssecount: nat, argp := 0, 0, argp0;
    rvalue := [];
    if r.Returns? {
      var need, cs := ExamineArgument(r.t, true);
      if need.InMemory? {
        rvalue := frame[GprAt(gprcount)..GprAt(gprcount) + 8];
        gprcount := gprcount + 1;
      }
    }
    avalue := [];
    for i := 0 to |args|
      invariant |avalue| == i && argp >= argp0 && Cursor(gprcount, ssecount, argp - argp0) == ReceiverAt(r, args, i)
      invariant forall k {:trigger args[k]} :: 0 <= k < i ==> Received(frame[..], ReceiverAt(r, args, k), args[k], avalue[k])
    {
      ghost var c := ReceiverAt(r, args, i);
      assert args[i] in args;
      ReceiverNext(r, args, i);
      var p;
      p, gprcount, ssecount, argp := ReceiveArgument(frame, gprcount, ssecount, argp, argp0, args[i], c);
      avalue := avalue + [p];
    }
  }

  /** The body of the loop of ffi_closure_unix64_inner. */
  method ReceiveArgument(frame: array<Byte>, gprcount0: nat, ssecount0: nat, argpNow: nat, argp0: nat, t: Type, ghost c: Cursor)
    returns (p: Pointer, gprcount: nat, ssecount: nat, argp: nat)
    requires WellFormed(t) && argp0 % 16 == 0 && argp0 <= argpNow && frame.Length >= REGS
    requires c == Cursor(gprcount0, ssecount0, argpNow - argp0)
    ensures argp0 <= argp && Cursor(gprcount, ssecount, argp - argp0) == Taken(c, t) && Received(frame[..], c, t, p)
  {
    hide Examine, Align, Size, Alignment, Classify, Received, Taken;
    gprcount, ssecount, argp := gprcount0, ssecount0, argpNow;
    var need, cs := ExamineArgument(t, false);
    if !need.InRegisters? || gprcount + need.gpr > MAX_GPR || ssecount + need.sse > MAX_SSE {
      var align := Alignment(t);
      if align < 8 {
        align := 8;
      }
      AlignmentIs(t);
      AlignAddress(argp0, c.stack, align);
      argp := Align(argp, align);
      ReceivedOnStack(frame[..], c, t);
      p := InFrame(REGS + (argp - argp0));
      argp := argp + Size(t);
    } else {
      NeedsAllWords(t);
      p, gprcount, ssecount := ReceiveFromRegisters(frame, Cursor(gprcount, ssecount, argp - argp0), t, need.n, cs);
      TakenStack(c, t);
    }
  }

  lemma ReceivedOnStack(f: seq<Byte>, c: Cursor, t: Type)
    requires !Fits(c, Examine(t, false))
    ensures Received(f, c, t, InFrame(REGS + StackPlace(c, t)))
    ensures Taken(c, t) == c.(stack := StackPlace(c, t) + Size(t))
  {
  }

  lemma TakenStack(c: Cursor, t: Type)
    requires Fits(c, Examine(t, false))
    ensures Taken(c, t).stack == c.stack
  {
  }

  lemma NeedsAllWords(t: Type)
    requires WellFormed(t) && Examine(t, false).InRegisters?
    ensures Examine(t, false).n == |Classify(t, 0)|
  {
    InRegistersShape(t);
  }

  lemma ReceiverFirst(r: Return, args: seq<Type>)
    ensures ReceiverAt(r, args, 0) == Start(r)
  {
  }

  lemma ReceiverNext(r: Return, args: seq<Type>, i: nat)
    requires i < |args|
    ensures ReceiverAt(r, args, i + 1) == Taken(ReceiverAt(r, args, i), args[i])
  {
  }

  // ---------- the round trip ----------

  /** Every byte of every field of an argument that has been sent is received. */
  lemma FieldArrives(f: seq<Byte>, c: Cursor, t: Type, v: seq<Byte>, p: Pointer, l: Leaf, b: nat)
    requires WellFormed(t) && |v| == Size(t) && Passable(c, t)
    requires Sent(f, c, t, v) && Received(f, c, t, p) && |f| >= REGS
    requires l in Leaves(t, 0) && b < KindSize(l.kind)
    ensures l.offset + b < |v| && CanLoad(f, p, l.offset + b) && Load(f, p, l.offset + b) == v[l.offset + b]
  {
    hide Classify, Size, Alignment, Examine, Align, Leaves, CountGpr, CountSse;
    var x := l.offset + b;
    if Fits(c, Examine(t, false)) {
      var cs, j := Classify(t, 0), l.offset / 8;
      InRegistersShape(t);
      FieldCopied(t, l);
      assert cs[j] in cs && WordSent(f, c, cs, v, j);
      assert x / 8 == j && x == 8 * j + x % 8;
      WordWhere(c, t, j);
      ReceivedWord(f, c, t, p, j, x % 8);
    } else {
      StackField(t, l);
    }
  }

  lemma StackField(t: Type, l: Leaf)
    requires WellFormed(t) && l in Leaves(t, 0)
    ensures l.offset + KindSize(l.kind) <= Size(t)
  {
    LeafWithin(t, 0, l);
  }

  /** Fields lie within their type, also next to long doubles. */
  lemma {:induction false} LeafWithin(t: Type, base: nat, l: Leaf)
    requires WellFormed(t) && l in Leaves(t, base) && base % Alignment(t) == 0
    ensures l.offset + KindSize(l.kind) <= base + Size(t)
    decreases t, 1, 0
  {
    hide Align;
    if t.Struct? {
      var es := t.elements;
      ElementLeafWithin(es, |es|, base, l);
      AlignmentIs(t);
      MaxAlignmentIs(es);
      EndBased(es, |es|, base, MaxAlignment(es));
    }
  }

  lemma {:induction false} ElementLeafWithin(es: seq<Type>, k: nat, base: nat, l: Leaf)
    requires k <= |es| && (forall e :: e in es ==> WellFormed(e)) && l in ElementLeaves(es, k, base)
    ensures l.offset + KindSize(l.kind) <= End(es, k, base)
    decreases es, 0, k
  {
    hide Align;
    if k > 0 {
      if l in ElementLeaves(es, k - 1, base) {
        ElementLeafWithin(es, k - 1, base, l);
        EndMonotone(es, k - 1, k, base);
      } else {
        assert es[k - 1] in es;
        OffsetsOrdered(es, k - 1, k - 1, base);
        LeafWithin(es[k - 1], Offset(es, k - 1, base), l);
      }
    }
  }

  lemma {:induction false} EndBased(es: seq<Type>, k: nat, base: nat, a: nat)
    requires k <= |es| && IsAlignment(a) && base % a == 0 && forall i :: 0 <= i < k ==> Alignment(es[i]) <= a
    ensures End(es, k, base) == base + End(es, k, 0)
    decreases k
  {
    hide Align;
    if k > 0 {
      EndBased(es, k - 1, base, a);
      AlignmentIs(es[k - 1]);
      AlignmentDivides(base, Alignment(es[k - 1]), a);
      AlignBased(End(es, k - 1, 0), Alignment(es[k - 1]), base);
    }
  }

  lemma AlignBased(v: nat, a: nat, base: nat)
    requires a >= 1 && base % a == 0
    ensures Align(base + v, a) == base + Align(v, a)
  {
    var q, r := (v + a - 1) / a, (v + a - 1) % a;
    var m := base / a;
    assert base == m * a && v + a - 1 == q * a + r;
    Distribute(m, -q, a);
    DivUnique(base + v + a - 1, a, m + q, r);
  }

  /** Byte y of eightbyte j is where the receiver says. */
  lemma ReceivedWord(f: seq<Byte>, c: Cursor, t: Type, p: Pointer, j: nat, y: nat)
    requires WellFormed(t) && Fits(c, Examine(t, false)) && Passable(c, t) && Received(f, c, t, p) && |f| >= REGS
    requires j < |Classify(t, 0)| && y < 8 && 8 * j + y < 16
    ensures CanLoad(f, p, 8 * j + y) && WordAt(c, Classify(t, 0), j) + y < |f|
    ensures Load(f, p, 8 * j + y) == f[WordAt(c, Classify(t, 0), j) + y]
  {
    hide Classify, Size, Alignment, Examine, Align, CountGpr, CountSse, SseWords, OtherWords, PlaceOf;
    InRegistersShape(t);
    var cs := Classify(t, 0);
    SamePlaces(c, t);
    assert cs[j] in cs;
    WordWhere(c, t, j);
    if !Scattered(cs) && j == 1 {
      assert cs[0] in cs;
      CountNone();
      CountOne([], cs[0]);
      assert [] + [cs[0]] == [cs[0]] == cs[..1] && cs[..0] == [];
      WordDef(c, cs, 0);
      WordDef(c, cs, 1);
    }
  }

  /** The closure finds byte b of field l where it looks for it. */
  predicate ByteArrived(f: seq<Byte>, p: Pointer, v: seq<Byte>, l: Leaf, b: nat) {
    l.offset + b < |v| && CanLoad(f, p, l.offset + b) && Load(f, p, l.offset + b) == v[l.offset + b]
  }

  /** Every byte of every field of the argument has arrived. */
  ghost predicate Arrived(f: seq<Byte>, p: Pointer, t: Type, v: seq<Byte>) {
    forall l, b: nat {:trigger ByteArrived(f, p, v, l, b)} :: l in Leaves(t, 0) && b < KindSize(l.kind) ==> ByteArrived(f, p, v, l, b)
  }

  lemma AllArrives(f: seq<Byte>, c: Cursor, t: Type, v: seq<Byte>, p: Pointer)
    requires WellFormed(t) && |v| == Size(t) && Passable(c, t)
    requires Sent(f, c, t, v) && Received(f, c, t, p) && |f| >= REGS
    ensures Arrived(f, p, t, v)
  {
    hide Leaves, Sent, Received, Passable, Size;
    forall l, b: nat | l in Leaves(t, 0) && b < KindSize(l.kind)
      ensures ByteArrived(f, p, v, l, b)
    {
      FieldArrives(f, c, t, v, p, l, b);
    }
  }

  predicate ArgumentPasses(r: Return, args: seq<Type>, i: nat) {
    i < |args| ==> Passable(Before(r, args, i), args[i])
  }

  ghost predicate AllPass(r: Return, args: seq<Type>) {
    forall i: nat {:trigger ArgumentPasses(r, args, i)} :: ArgumentPasses(r, args, i)
  }

  lemma StraddleFreePasses(r: Return, args: seq<Type>)
    requires forall t :: t in args ==> WellFormed(t) && NoStraddle(t, 0)
    ensures AllPass(r, args)
  {
    hide WellFormed, NoStraddle, Passable, Before;
    forall i: nat
      ensures ArgumentPasses(r, args, i)
    {
      if i < |args| {
        assert args[i] in args;
        StraddleFreePassable(Before(r, args, i), args[i]);
      }
    }
  }

  /** When the sender does not give up, the receiver's cursor is the sender's. */
  lemma {:induction false} CursorsAgree(r: Return, args: seq<Type>, i: nat)
    requires (forall t :: t in args ==> WellFormed(t)) && AllPass(r, args) && i <= |args|
    ensures ReceiverAt(r, args, i) == Before(r, args, i)
  {
    hide Taken, Advance, Passable, WellFormed;
    if i > 0 {
      CursorsAgree(r, args, i - 1);
      assert args[i - 1] in args && ArgumentPasses(r, args, i - 1);
      SamePlaces(Before(r, args, i - 1), args[i - 1]);
    }
  }

  /** The smallest argument that the sender cannot pass. */
  lemma StraddlingIsRefused()
    ensures var t := Struct([Scalar(Float), Struct([Scalar(Float), Scalar(Float)])]);
            WellFormed(t) && !NoStraddle(t, 0) && !AllPass(Void, [t])
  {
    hide Classify, NoStraddle;
    var t := Struct([Scalar(Float), Struct([Scalar(Float), Scalar(Float)])]);
    StraddlingLosesAField();
    OneSse();
    assert Before(Void, [t], 0) == Cursor(0, 0, 0);
    assert NoClass in Classify(t, 0);
    assert !ArgumentPasses(Void, [t], 0);
  }

  lemma OneSse()
    ensures CountGpr([SSE, NoClass]) == 0 && CountSse([SSE, NoClass]) == 1
  {
    CountNone();
    CountOne([], SSE);
    CountOne([SSE], NoClass);
    assert [] + [SSE] == [SSE] && [SSE] + [NoClass] == [SSE, NoClass];
  }

  lemma EveryArgumentArrives(r: Return, args: seq<Type>, avalue: seq<seq<Byte>>, f: seq<Byte>, ps: seq<Pointer>)
    requires (forall t :: t in args ==> WellFormed(t)) && AllPass(r, args) && |avalue| == |ps| == |args| && |f| >= REGS
    requires forall i :: 0 <= i < |args| ==> |avalue[i]| == Size(args[i])
    requires forall i {:trigger args[i]} :: 0 <= i < |args| ==> Sent(f, Before(r, args, i), args[i], avalue[i])
    requires forall i {:trigger args[i]} :: 0 <= i < |args| ==> Received(f, ReceiverAt(r, args, i), args[i], ps[i])
    ensures forall i {:trigger args[i]} :: 0 <= i < |args| ==> Arrived(f, ps[i], args[i], avalue[i])
  {
    hide WellFormed, Passable, Before, ReceiverAt, Sent, Received, Arrived, Size;
    forall i {:trigger args[i]} | 0 <= i < |args|
      ensures Arrived(f, ps[i], args[i], avalue[i])
    {
      assert args[i] in args && ArgumentPasses(r, args, i);
      CursorsAgree(r, args, i);
      AllArrives(f, Before(r, args, i), args[i], avalue[i], ps[i]);
    }
  }

  /** Sending and receiving under one prepared signature: the closure gets every field of every
      argument, whatever the mix of registers and stack, and the hidden pointer. The call fails
      exactly when some argument in registers has an eightbyte without a class. */
  method RoundTrip(r: Return, args: seq<Type>, avalue: seq<seq<Byte>>, rvalue: seq<Byte>, stackAddress: nat)
    returns (ok: bool, frame: array<Byte>, received: seq<Pointer>, rvalue': seq<Byte>)
    requires (r.Returns? ==> WellFormed(r.t)) && (forall t :: t in args ==> WellFormed(t)) && stackAddress % 16 == 0
    requires |avalue| == |args| && (forall i :: 0 <= i < |args| ==> |avalue[i]| == Size(args[i])) && |rvalue| == 8
    ensures ok <==> AllPass(r, args)
    ensures (forall t :: t in args ==> NoStraddle(t, 0)) ==> ok
    // What the sender has left, and what the receiver makes of it.
    ensures ok ==> forall i {:trigger args[i]} :: 0 <= i < |args| ==> Sent(frame[..], Before(r, args, i), args[i], avalue[i])
    ensures ok ==> |received| == |args|
    ensures ok ==> forall i {:trigger args[i]} :: 0 <= i < |args| ==> Received(frame[..], ReceiverAt(r, args, i), args[i], received[i])
    ensures ok && Hidden(r) ==> BytesAt(frame[..], GprAt(0), rvalue, 0, 8) && rvalue' == rvalue
    ensures SentRightly(r, args)
    // Nothing is lost between the two.
    ensures ok ==> forall i {:trigger args[i]} :: 0 <= i < |args| ==> Arrived(frame[..], received[i], args[i], avalue[i])
  {
    hide Examine, Align, Size, Alignment, Classify, Received, Passable, Sent, Leaves, Arrived, NoStraddle, WellFormed, Before, ReceiverAt, SentRightly, ReceivedRightly, FlagsTell;
    var bytes, flags := PrepCifMachdep(r, args);
    var ssecount;
    ok, frame, ssecount := FfiCall(r, args, avalue, rvalue, bytes, flags, stackAddress);
    received, rvalue' := [], [];
    if forall t :: t in args ==> NoStraddle(t, 0) {
      StraddleFreePasses(r, args);
    }
    assert AllPass(r, args) ==> forall i {:trigger args[i]} :: 0 <= i < |args| ==> ArgumentPasses(r, args, i);
    if ok {
      received, rvalue' := FfiClosureInner(r, args, frame, stackAddress + REGS);
      EveryArgumentArrives(r, args, avalue, frame[..], received);
    }
  }
}
