/** Classification of arguments on x86-64, as in section 3.2.3 of the System V application
    binary interface, AMD64 architecture processor supplement. */
module X64Classes {
  import opened Layout

  datatype Class =
    NoClass | Integer | IntegerSI | SSE | SSESF | SSEDF | SSEUP | X87 | X87UP | ComplexX87 | Memory

  predicate IsX87(c: Class) {
    c == X87 || c == X87UP || c == ComplexX87
  }

  /** SSE_CLASS_P */
  predicate IsSSE(c: Class) {
    c in {SSE, SSESF, SSEDF, SSEUP}
  }

  /** merge_classes */
  function Merge(a: Class, b: Class): Class {
    if a == b then a
    else if a == NoClass then b
    else if b == NoClass then a
    else if a == Memory || b == Memory then Memory
    else if (a == IntegerSI && b == SSESF) || (b == IntegerSI && a == SSESF) then IntegerSI
    else if a == Integer || a == IntegerSI || b == Integer || b == IntegerSI then Integer
    else if IsX87(a) || IsX87(b) then Memory
    else SSE
  }

  /** The classes that arguments without long double fields can have. */
  predicate Plain(c: Class) {
    c in {NoClass, Integer, IntegerSI, SSE, SSESF, SSEDF}
  }

  /** Without x87 classes the merge is a join: the order of the fields does not matter. */
  lemma MergeIsJoin(a: Class, b: Class, c: Class)
    requires Plain(a) && Plain(b) && Plain(c)
    ensures Merge(a, b) == Merge(b, a) && Merge(a, a) == a && Merge(a, NoClass) == a
    ensures Merge(Merge(a, b), c) == Merge(a, Merge(b, c)) && Plain(Merge(a, b))
  {
    hide Merge;
    MergeBasics(a, b);
    MergeBasics(b, c);
    MergeBasics(Merge(a, b), c);
    MergeBasics(a, Merge(b, c));
    var l, r := Merge(Merge(a, b), c), Merge(a, Merge(b, c));
    MergeUpper(a, b, l);
    MergeUpper(Merge(a, b), c, l);
    MergeUpper(b, c, l);
    MergeUpper(a, Merge(b, c), l);
    MergeUpper(a, b, r);
    MergeUpper(Merge(a, b), c, r);
    MergeUpper(b, c, r);
    MergeUpper(a, Merge(b, c), r);
  }

  /** The order of the join: NO_CLASS below everything, INTEGER above everything. */
  predicate Leq(a: Class, b: Class) {
    a == b || a == NoClass || b == Integer || (a == SSESF && (b == SSE || b == IntegerSI)) || (a == SSEDF && b == SSE)
  }

  lemma MergeBasics(a: Class, b: Class)
    requires Plain(a) && Plain(b)
    ensures Merge(a, b) == Merge(b, a) && Merge(a, a) == a && Merge(a, NoClass) == a && Plain(Merge(a, b))
  {
  }

  /** The merge is the least upper bound. */
  lemma MergeUpper(a: Class, b: Class, x: Class)
    requires Plain(a) && Plain(b) && Plain(x)
    ensures Leq(Merge(a, b), x) <==> Leq(a, x) && Leq(b, x)
  {
  }

  predicate IsInteger(c: Class) {
    c == Integer || c == IntegerSI
  }

  /** Different classes that are memory together, though neither is. */
  predicate Clash(a: Class, b: Class) {
    a != b && (IsX87(a) || IsX87(b)) && (IsX87(a) || IsSSE(a)) && (IsX87(b) || IsSSE(b))
  }

  /** Over all classes the merge associates except when an integer class meets two that clash:
      rule 4, for integers, comes before rule 5, for x87 classes. */
  lemma MergeAssociates(a: Class, b: Class, c: Class)
    ensures Merge(Merge(a, b), c) == Merge(a, Merge(b, c)) <==> !(IsInteger(a) && Clash(b, c)) && !(IsInteger(c) && Clash(a, b))
  {
    hide Merge;
    if a == NoClass || b == NoClass || c == NoClass || a == Memory || b == Memory || c == Memory {
      MergeEnds(a, b);
      MergeEnds(b, c);
      MergeEnds(a, Merge(b, c));
      MergeEnds(Merge(a, b), c);
    } else if IsInteger(a) || IsInteger(b) || IsInteger(c) {
      IntegerAssociates(a, b, c);
    } else {
      MergeFloats(a, b);
      MergeFloats(b, c);
      MergeFloats(a, Merge(b, c));
      MergeFloats(Merge(a, b), c);
    }
  }

  /** NO_CLASS is neutral, and MEMORY absorbs. */
  lemma MergeEnds(a: Class, b: Class)
    ensures a == NoClass ==> Merge(a, b) == b
    ensures b == NoClass ==> Merge(a, b) == a
    ensures a == Memory || b == Memory ==> Merge(a, b) == Memory
    ensures a != NoClass && b != NoClass ==> Merge(a, b) != NoClass
  {
  }

  predicate Proper(c: Class) {
    c != NoClass && c != Memory
  }

  lemma MergeFloats(a: Class, b: Class)
    requires !IsInteger(a) && !IsInteger(b) && a != NoClass && b != NoClass
    ensures Merge(a, b) == if a == b then a else if IsSSE(a) && IsSSE(b) then SSE else Memory
  {
  }

  lemma IntegerMerges(a: Class, b: Class)
    requires Proper(a) && Proper(b) && (IsInteger(a) || IsInteger(b))
    ensures IsInteger(Merge(a, b))
    ensures Merge(a, b) == IntegerSI <==> a in {IntegerSI, SSESF} && b in {IntegerSI, SSESF}
  {
  }

  lemma IntegerAssociates(a: Class, b: Class, c: Class)
    requires Proper(a) && Proper(b) && Proper(c) && (IsInteger(a) || IsInteger(b) || IsInteger(c))
    ensures Merge(Merge(a, b), c) == Merge(a, Merge(b, c)) <==> !(IsInteger(a) && Clash(b, c)) && !(IsInteger(c) && Clash(a, b))
  {
    hide Merge;
    var l, r := Merge(a, b), Merge(b, c);
    if IsInteger(a) || IsInteger(b) { IntegerMerges(a, b); } else { MergeFloats(a, b); }
    if IsInteger(b) || IsInteger(c) { IntegerMerges(b, c); } else { MergeFloats(b, c); }
    MergeEnds(l, c);
    MergeEnds(a, r);
    if l != Memory { IntegerMerges(l, c); }
    if r != Memory { IntegerMerges(a, r); }
  }

  /** So the order of fields matters: SSE, X87 and then INTEGER give memory, or INTEGER. */
  lemma MergeNotAssociative()
    ensures Merge(Merge(SSE, X87), Integer) == Memory
    ensures Merge(SSE, Merge(X87, Integer)) == Integer
  {
  }

  // ---------- classify_argument ----------

  /** The classes of a scalar at offset off of an eightbyte. */
  function ClassifyScalar(k: Kind, off: nat): seq<Class> {
    match k
    case Float => if off % 8 == 0 then [SSESF] else [SSE]
    case Double => [SSEDF]
    case LongDouble => [X87, X87UP]
    case _ =>
      var size := off + KindSize(k);
      if size <= 4 then [IntegerSI]
      else if size <= 8 then [Integer]
      else if size <= 12 then [Integer, IntegerSI]
      else [IntegerSI, IntegerSI]
  }

  function Words(t: Type): nat {
    (Size(t) + 7) / 8
  }

  /** classify_argument; the empty sequence stands for memory, and off is the offset within an
      eightbyte at which t starts. */
  function Classify(t: Type, off: nat): seq<Class>
    decreases t, 1, 0
  {
    match t
    case Scalar(k) => ClassifyScalar(k, off)
    case Struct(es) =>
      var words := Words(t);
      if Size(t) > 32 then []
      else if words == 0 then [NoClass]
      else
        var cs := Fields(es, |es|, off, words);
        if |cs| != words then [] else Cleanup(cs, words)
  }

  /** The merger of the first k fields into words eightbytes. What falls behind the last of them
      is dropped: it is written behind the array, or to an entry that nobody reads. */
  function Fields(es: seq<Type>, k: nat, off: nat, words: nat): seq<Class>
    requires k <= |es|
    decreases es, 0, k
  {
    if k == 0 then Nothing(words)
    else
      var cs := Fields(es, k - 1, off, words);
      var o := Offset(es, k - 1, off);
      var sub := Classify(es[k - 1], o % 8);
      if |cs| != words || |sub| == 0 then [] else MergeAt(cs, sub, o / 8)
  }

  function Nothing(words: nat): (r: seq<Class>)
    ensures |r| == words && forall i :: 0 <= i < words ==> r[i] == NoClass
  {
    seq(words, i => NoClass)
  }

  function MergeAt(cs: seq<Class>, sub: seq<Class>, pos: nat): (r: seq<Class>)
    ensures |r| == |cs|
    ensures forall i :: 0 <= i < |cs| ==> r[i] == if pos <= i < pos + |sub| then Merge(sub[i - pos], cs[i]) else cs[i]
  {
    seq(|cs|, i requires 0 <= i < |cs| => if pos <= i < pos + |sub| then Merge(sub[i - pos], cs[i]) else cs[i])
  }

  /** The tests after the merger. */
  function Cleanup(cs: seq<Class>, words: nat): seq<Class>
    requires |cs| == words && words > 0
  {
    if words > 2 && (cs[0] != SSE || exists i :: 0 < i < words && cs[i] != SSEUP) then []
    else Tidy(cs, words)
  }

  /** The first k rounds of the final loop. Reading the class before the first one never decides
      anything, as no field of a struct starts with an upper half. */
  function Tidy(cs: seq<Class>, k: nat): seq<Class>
    requires k <= |cs|
  {
    if k == 0 then cs
    else
      var r := Tidy(cs, k - 1);
      var i := k - 1;
      if |r| != |cs| then []
      else if r[i] == Memory then []
      else if r[i] == SSEUP && (i == 0 || (r[i - 1] != SSE && r[i - 1] != SSEUP)) then r[i := SSE]
      else if r[i] == X87UP && (i == 0 || r[i - 1] != X87) then []
      else r
  }

  // ---------- the loops ----------

  /** classify_argument */
  method ClassifyArgument(t: Type, off: nat) returns (cs: seq<Class>)
    ensures cs == Classify(t, off)
    decreases t
  {
    if t.Scalar? {
      return ClassifyScalar(t.kind, off);
    }
    hide Align, Size, Alignment, MergeAt, Cleanup, Nothing, Fields, ClassifyScalar;
    var es := t.elements;
    var words := (Size(t) + 7) / 8;
    if Size(t) > 32 {
      return [];
    }
    if words == 0 {
      return [NoClass];
    }
    cs := MergeFields(es, off, words);
    if |cs| == 0 {
      return [];
    }
    cs := CleanUp(cs, words);
  }

  /** The merger of the fields in classify_argument. */
  method MergeFields(es: seq<Type>, off: nat, words: nat) returns (cs: seq<Class>)
    requires words > 0
    ensures if |Fields(es, |es|, off, words)| == words then cs == Fields(es, |es|, off, words) else cs == []
    decreases es
  {
    hide Align, Size, Alignment, MergeAt, Classify, Nothing, Fields;
    var byteOffset := off;
    cs := Nothing(words);
    NoFields(es, off, words);
    for i := 0 to |es|
      invariant byteOffset == End(es, i, off) && cs == Fields(es, i, off, words) && |cs| == words
    {
      FieldStep(es, i, off, words);
      byteOffset := Align(byteOffset, Alignment(es[i]));
      var sub := ClassifyArgument(es[i], byteOffset % 8);
      if |sub| == 0 {
        FieldsFail(es, i + 1, |es|, off, words);
        return [];
      }
      cs := MergeAt(cs, sub, byteOffset / 8);
      byteOffset := byteOffset + Size(es[i]);
    }
  }

  /** The end of classify_argument: what may not stay in registers, and the final merger cleanup. */
  method CleanUp(merged: seq<Class>, words: nat) returns (cs: seq<Class>)
    requires |merged| == words && words > 0
    ensures cs == Cleanup(merged, words)
  {
    cs := merged;
    if words > 2 {
      if cs[0] != SSE {
        return [];
      }
      for i := 1 to words
        invariant forall j :: 0 < j < i ==> cs[j] == SSEUP
      {
        if cs[i] != SSEUP {
          return [];
        }
      }
    }
    for i := 0 to words
      invariant |cs| == words && cs == Tidy(merged, i)
    {
      if cs[i] == Memory {
        TidyFail(merged, i + 1, words);
        return [];
      }
      if cs[i] == SSEUP && (i == 0 || (cs[i - 1] != SSE && cs[i - 1] != SSEUP)) {
        cs := cs[i := SSE];
      } else if cs[i] == X87UP && (i == 0 || cs[i - 1] != X87) {
        TidyFail(merged, i + 1, words);
        return [];
      }
    }
  }

  lemma NoFields(es: seq<Type>, off: nat, words: nat)
    ensures Fields(es, 0, off, words) == Nothing(words)
  {
  }

  lemma FieldStep(es: seq<Type>, i: nat, off: nat, words: nat)
    requires i < |es| && |Fields(es, i, off, words)| == words
    ensures var o := Align(End(es, i, off), Alignment(es[i]));
            && End(es, i + 1, off) == o + Size(es[i])
            && Fields(es, i + 1, off, words) ==
                 var sub := Classify(es[i], o % 8);
                 if |sub| == 0 then [] else MergeAt(Fields(es, i, off, words), sub, o / 8)
  {
  }

  lemma {:induction false} FieldsFail(es: seq<Type>, i: nat, k: nat, off: nat, words: nat)
    requires 0 < i <= k <= |es| && words > 0 && |Fields(es, i, off, words)| != words
    ensures |Fields(es, k, off, words)| != words
    decreases k
  {
    if i < k { FieldsFail(es, i, k - 1, off, words); }
  }

  lemma {:induction false} TidyFail(cs: seq<Class>, i: nat, k: nat)
    requires 0 < i <= k <= |cs| && Tidy(cs, i) == []
    ensures Tidy(cs, k) == []
    decreases k
  {
    if i < k { TidyFail(cs, i, k - 1); }
  }

  /** No class in the result is MEMORY. */
  lemma NoMemory(t: Type, off: nat)
    ensures Memory !in Classify(t, off)
  {
    if t.Struct? && 0 < Size(t) <= 32 {
      var cs := Fields(t.elements, |t.elements|, off, Words(t));
      if |cs| == Words(t) { TidyNoMemory(cs, |cs|); }
    }
  }

  lemma {:induction false} TidyNoMemory(cs: seq<Class>, k: nat)
    requires k <= |cs|
    ensures forall i :: 0 <= i < k && i < |Tidy(cs, k)| ==> Tidy(cs, k)[i] != Memory
    ensures |Tidy(cs, k)| == |cs| || Tidy(cs, k) == []
  {
    if k > 0 { TidyNoMemory(cs, k - 1); }
  }

  // ---------- examine_argument ----------

  /** The number of general and of SSE registers, or memory. An x87 value counts as one in a
      return and goes to memory as an argument; the counts are then left as they were. */
  datatype Need = InMemory | InRegisters(n: nat, gpr: nat, sse: nat) | X87Return

  function CountGpr(cs: seq<Class>): nat {
    if |cs| == 0 then 0 else CountGpr(cs[..|cs| - 1]) + (if cs[|cs| - 1] in {Integer, IntegerSI} then 1 else 0)
  }

  function CountSse(cs: seq<Class>): nat {
    if |cs| == 0 then 0 else CountSse(cs[..|cs| - 1]) + (if cs[|cs| - 1] in {SSE, SSESF, SSEDF} then 1 else 0)
  }

  predicate AnyX87(cs: seq<Class>) {
    exists c :: c in cs && IsX87(c)
  }

  function Examine(t: Type, inReturn: bool): Need {
    var cs := Classify(t, 0);
    if |cs| == 0 then InMemory
    else if AnyX87(cs) then (if inReturn then X87Return else InMemory)
    else InRegisters(|cs|, CountGpr(cs), CountSse(cs))
  }

  /** examine_argument, with the classes that it leaves to its caller. */
  method ExamineArgument(t: Type, inReturn: bool) returns (need: Need, cs: seq<Class>)
    ensures need == Examine(t, inReturn) && cs == Classify(t, 0)
  {
    cs := ClassifyArgument(t, 0);
    if |cs| == 0 {
      return InMemory, cs;
    }
    NoMemory(t, 0);
    need := CountRegisters(cs, inReturn);
  }

  lemma CountNone()
    ensures CountGpr([]) == 0 && CountSse([]) == 0
  {
  }

  lemma CountOne(cs: seq<Class>, c: Class)
    ensures CountGpr(cs + [c]) == CountGpr(cs) + (if c in {Integer, IntegerSI} then 1 else 0)
    ensures CountSse(cs + [c]) == CountSse(cs) + (if c in {SSE, SSESF, SSEDF} then 1 else 0)
  {
    assert (cs + [c])[..|cs|] == cs;
  }

  /** The loop of examine_argument. */
  method CountRegisters(cs: seq<Class>, inReturn: bool) returns (need: Need)
    requires Memory !in cs
    ensures need == if AnyX87(cs) then (if inReturn then X87Return else InMemory) else InRegisters(|cs|, CountGpr(cs), CountSse(cs))
  {
    hide CountGpr, CountSse;
    var ngpr, nsse := 0, 0;
    CountNone();
    for i := 0 to |cs|
      invariant forall c :: c in cs[..i] ==> !IsX87(c)
      invariant ngpr == CountGpr(cs[..i]) && nsse == CountSse(cs[..i])
    {
      assert cs[..i + 1] == cs[..i] + [cs[i]];
      CountOne(cs[..i], cs[i]);
      match cs[i] {
        case Integer => ngpr := ngpr + 1;
        case IntegerSI => ngpr := ngpr + 1;
        case SSE => nsse := nsse + 1;
        case SSESF => nsse := nsse + 1;
        case SSEDF => nsse := nsse + 1;
        case NoClass =>
        case SSEUP =>
        case Memory => assert false;
        case _ =>
          assert cs[i] in cs && IsX87(cs[i]);
          return if inReturn then X87Return else InMemory;
      }
    }
    assert cs[..|cs|] == cs;
    need := InRegisters(|cs|, ngpr, nsse);
  }
}
