/** What the classes of a struct say about its scalar fields, wherever they are nested: which
    of them decide the class of an eightbyte, and which get lost. */
module X64Leaves {
  import opened Layout
  import opened X64Classes

  /** A scalar field at its offset from the start of an eightbyte. */
  datatype Leaf = Leaf(offset: nat, kind: Kind)

  function Leaves(t: Type, base: nat): seq<Leaf>
    decreases t, 1, 0
  {
    match t
    case Scalar(k) => [Leaf(base, k)]
    case Struct(es) => ElementLeaves(es, |es|, base)
  }

  function ElementLeaves(es: seq<Type>, k: nat, base: nat): seq<Leaf>
    requires k <= |es|
    decreases es, 0, k
  {
    if k == 0 then [] else ElementLeaves(es, k - 1, base) + Leaves(es[k - 1], Offset(es, k - 1, base))
  }

  predicate NoLongDouble(t: Type) {
    match t
    case Scalar(k) => k != LongDouble
    case Struct(es) => forall e :: e in es ==> NoLongDouble(e)
  }

  /** The types for which classification by fields is about: complete, without long double. */
  predicate Regular(t: Type) {
    WellFormed(t) && NoLongDouble(t)
  }

  // ---------- positions ----------

  lemma {:induction false} SmallAlignment(t: Type)
    requires NoLongDouble(t)
    ensures Alignment(t) in {1, 2, 4, 8}
  {
    if t.Struct? && |t.elements| > 0 {
      MaxAlignmentIs(t.elements);
      var i :| 0 <= i < |t.elements| && Alignment(t.elements[i]) == MaxAlignment(t.elements);
      assert t.elements[i] in t.elements;
      SmallAlignment(t.elements[i]);
    }
  }

  lemma AlignShift(v: nat, a: nat, m: nat)
    requires a in {1, 2, 4, 8}
    ensures Align(v + 8 * m, a) == Align(v, a) + 8 * m
  {
  }

  /** Moving a layout by whole eightbytes moves every field by as much. */
  lemma {:induction false} EndShift(es: seq<Type>, k: nat, base: nat, m: nat)
    requires k <= |es| && forall e :: e in es ==> NoLongDouble(e)
    ensures End(es, k, base + 8 * m) == End(es, k, base) + 8 * m
    ensures k < |es| ==> Offset(es, k, base + 8 * m) == Offset(es, k, base) + 8 * m
    decreases k
  {
    hide Align;
    if k > 0 { EndShift(es, k - 1, base, m); }
    if k < |es| {
      SmallAlignment(es[k]);
      AlignShift(End(es, k, base), Alignment(es[k]), m);
    }
  }

  function Moved(ls: seq<Leaf>, d: nat): (r: seq<Leaf>)
    ensures |r| == |ls| && forall i :: 0 <= i < |ls| ==> r[i] == Leaf(ls[i].offset + d, ls[i].kind)
  {
    seq(|ls|, i requires 0 <= i < |ls| => Leaf(ls[i].offset + d, ls[i].kind))
  }

  lemma {:induction false} LeavesShift(t: Type, base: nat, m: nat)
    requires NoLongDouble(t)
    ensures Leaves(t, base + 8 * m) == Moved(Leaves(t, base), 8 * m)
    decreases t, 1, 0
  {
    if t.Struct? { ElementLeavesShift(t.elements, |t.elements|, base, m); }
  }

  lemma {:induction false} ElementLeavesShift(es: seq<Type>, k: nat, base: nat, m: nat)
    requires k <= |es| && forall e :: e in es ==> NoLongDouble(e)
    ensures ElementLeaves(es, k, base + 8 * m) == Moved(ElementLeaves(es, k, base), 8 * m)
    decreases es, 0, k
  {
    if k > 0 {
      ElementLeavesShift(es, k - 1, base, m);
      EndShift(es, k - 1, base, m);
      LeavesShift(es[k - 1], Offset(es, k - 1, base), m);
    }
  }

  /** The fields of an element, seen from its own eightbyte. */
  lemma LeavesFrom(t: Type, o: nat)
    requires NoLongDouble(t)
    ensures Leaves(t, o) == Moved(Leaves(t, o % 8), 8 * (o / 8))
  {
    LeavesShift(t, o % 8, o / 8);
  }

  predicate Inside(l: Leaf, lo: nat, hi: nat) {
    lo <= l.offset && l.offset + KindSize(l.kind) <= hi && l.offset % KindSize(l.kind) == 0
  }

  /** A field starts at a multiple of its size and lies within its type. */
  lemma {:induction false} LeavesInside(t: Type, base: nat)
    requires Regular(t) && base % Alignment(t) == 0
    ensures forall l :: l in Leaves(t, base) ==> Inside(l, base, base + Size(t))
    decreases t, 1, 0
  {
    if t.Struct? {
      ElementLeavesInside(t.elements, |t.elements|, base);
      SizeCovers(t, base);
    }
  }

  /** From an aligned base on, the elements end within the size of the struct. */
  lemma SizeCovers(t: Type, base: nat)
    requires Regular(t) && t.Struct? && base % Alignment(t) == 0
    ensures End(t.elements, |t.elements|, base) <= base + Size(t)
    ensures base + Size(t) < End(t.elements, |t.elements|, base) + Alignment(t)
  {
    hide Align;
    var es := t.elements;
    SmallAlignment(t);
    MaxAlignmentIs(es);
    EndFrom(es, |es|, base, Alignment(t));
  }

  /** Layouts from a base aligned for the whole do not depend on the base. */
  lemma {:induction false} EndFrom(es: seq<Type>, k: nat, base: nat, a: nat)
    requires k <= |es| && (forall e :: e in es ==> NoLongDouble(e)) && a in {1, 2, 4, 8} && base % a == 0
    requires forall i :: 0 <= i < k ==> Alignment(es[i]) <= a
    ensures End(es, k, base) == base + End(es, k, 0)
    decreases k
  {
    if k > 0 {
      hide Align;
      EndFrom(es, k - 1, base, a);
      SmallAlignment(es[k - 1]);
      AlignmentDivides(base, Alignment(es[k - 1]), a);
      AlignFrom(End(es, k - 1, 0), Alignment(es[k - 1]), base);
    }
  }

  lemma AlignFrom(v: nat, a: nat, base: nat)
    requires a in {1, 2, 4, 8} && base % a == 0
    ensures Align(base + v, a) == base + Align(v, a)
  {
  }

  lemma {:induction false} ElementLeavesInside(es: seq<Type>, k: nat, base: nat)
    requires k <= |es| && forall e :: e in es ==> Regular(e)
    ensures forall l :: l in ElementLeaves(es, k, base) ==> Inside(l, base, End(es, k, base))
    decreases es, 0, k
  {
    hide Align;
    if k > 0 {
      ElementLeavesInside(es, k - 1, base);
      OffsetsOrdered(es, k - 1, k - 1, base);
      LeavesInside(es[k - 1], Offset(es, k - 1, base));
    }
  }

  // ---------- large structs ----------

  /** No field brings the class SSEUP. */
  lemma {:induction false} NoUpperHalves(t: Type, off: nat)
    ensures SSEUP !in Classify(t, off)
    decreases t, 1, 0
  {
    if t.Struct? && 0 < Size(t) <= 32 {
      FieldsNoUpperHalves(t.elements, |t.elements|, off, Words(t));
      var cs := Fields(t.elements, |t.elements|, off, Words(t));
      if |cs| == Words(t) { TidySame(cs, |cs|); }
    }
  }

  lemma {:induction false} FieldsNoUpperHalves(es: seq<Type>, k: nat, off: nat, words: nat)
    requires k <= |es|
    ensures SSEUP !in Fields(es, k, off, words)
    decreases es, 0, k
  {
    hide Align;
    if k > 0 {
      FieldsNoUpperHalves(es, k - 1, off, words);
      NoUpperHalves(es[k - 1], Offset(es, k - 1, off) % 8);
      var cs, sub := Fields(es, k - 1, off, words), Classify(es[k - 1], Offset(es, k - 1, off) % 8);
      if |cs| == words && |sub| > 0 { MergeNoUpper(cs, sub, Offset(es, k - 1, off) / 8); }
    }
  }

  lemma MergeNoUpper(cs: seq<Class>, sub: seq<Class>, pos: nat)
    requires SSEUP !in cs && SSEUP !in sub
    ensures SSEUP !in MergeAt(cs, sub, pos)
  {
  }

  predicate Acceptable(cs: seq<Class>, i: int) {
    0 <= i < |cs| ==> cs[i] != Memory && (cs[i] == X87UP ==> i > 0 && cs[i - 1] == X87)
  }

  /** Without SSEUP the final loop changes no class; it can only reject. */
  lemma {:induction false} TidySame(cs: seq<Class>, k: nat)
    requires k <= |cs| && SSEUP !in cs
    ensures Tidy(cs, k) == cs || Tidy(cs, k) == []
    ensures (forall i {:trigger Acceptable(cs, i)} :: 0 <= i < k ==> Acceptable(cs, i)) ==> Tidy(cs, k) == cs
  {
    if k > 0 {
      TidySame(cs, k - 1);
      assert cs[k - 1] in cs;
      assert Acceptable(cs, k - 1) || !Acceptable(cs, k - 1);
    }
  }

  /** Every struct over 16 bytes goes to memory. */
  lemma LargeInMemory(t: Type, off: nat)
    requires t.Struct? && Size(t) > 16
    ensures Classify(t, off) == []
  {
    if Size(t) <= 32 {
      var cs := Fields(t.elements, |t.elements|, off, Words(t));
      FieldsNoUpperHalves(t.elements, |t.elements|, off, Words(t));
      if |cs| == Words(t) {
        assert cs[1] != SSEUP;
      }
    }
  }

  // ---------- which fields decide ----------

  /** Field l has left no trace in the classes cs of something that starts at off, and then it
      lies in a later eightbyte; or it has, and if the class of its eightbyte copies four bytes
      only, these are the field. */
  predicate LeafOk(cs: seq<Class>, off: nat, l: Leaf) {
    var j := l.offset / 8;
    if j >= |cs| || cs[j] == NoClass then off < 8 * j
    else cs[j] == SSESF ==> l == Leaf(8 * j, Float)
  }

  /** A class that copies four or eight bytes stands for a field that ends there. */
  predicate ClassOk(ls: seq<Leaf>, cs: seq<Class>, j: int) {
    0 <= j < |cs| ==>
      && Plain(cs[j])
      && (cs[j] == SSESF ==> Leaf(8 * j, Float) in ls)
      && (cs[j] in {SSE, SSEDF} ==> Leaf(8 * j + 4, Float) in ls || Leaf(8 * j, Double) in ls)
  }

  ghost predicate Kept(ls: seq<Leaf>, cs: seq<Class>, off: nat) {
    (forall l {:trigger LeafOk(cs, off, l)} :: l in ls ==> LeafOk(cs, off, l))
    && forall j {:trigger ClassOk(ls, cs, j)} :: ClassOk(ls, cs, j)
  }

  lemma {:induction false} ClassifyKept(t: Type, off: nat)
    requires Regular(t) && off < 8 && off % Alignment(t) == 0 && Classify(t, off) != []
    ensures Kept(Leaves(t, off), Classify(t, off), off)
    ensures |Classify(t, off)| == if t.Scalar? then 1 else Words(t)
    decreases t, 1, 0
  {
    hide Align, LeafOk, ClassOk, MergeAt, Cleanup, Size, Alignment, Leaves;
    LeavesDef(t, off);
    if t.Scalar? {
      ScalarKept(t.kind, off);
    } else {
      var es, words := t.elements, Words(t);
      if Size(t) > 16 { LargeInMemory(t, off); }
      SizePositive(t);
      FieldsKept(es, |es|, off, words);
      var cs := Fields(es, |es|, off, words);
      KeptPlain(ElementLeaves(es, |es|, off), cs, off);
      PlainTidy(t, cs, off);
    }
  }

  lemma LeavesDef(t: Type, off: nat)
    ensures Leaves(t, off) == if t.Scalar? then [Leaf(off, t.kind)] else ElementLeaves(t.elements, |t.elements|, off)
    ensures t.Scalar? ==> Alignment(t) == KindSize(t.kind)
  {
  }

  lemma PlainTidy(t: Type, cs: seq<Class>, off: nat)
    requires t.Struct? && 0 < Size(t) <= 16 && cs == Fields(t.elements, |t.elements|, off, Words(t))
    requires |cs| == Words(t) && forall j :: 0 <= j < |cs| ==> Plain(cs[j])
    ensures Classify(t, off) == cs
  {
    TidySame(cs, |cs|);
  }

  lemma KeptPlain(ls: seq<Leaf>, cs: seq<Class>, off: nat)
    requires Kept(ls, cs, off)
    ensures forall j :: 0 <= j < |cs| ==> Plain(cs[j])
  {
    forall j | 0 <= j < |cs|
      ensures Plain(cs[j])
    {
      assert ClassOk(ls, cs, j);
    }
  }

  lemma ScalarKept(k: Kind, off: nat)
    requires k != LongDouble && off < 8 && off % KindSize(k) == 0
    ensures Kept([Leaf(off, k)], ClassifyScalar(k, off), off) && |ClassifyScalar(k, off)| == 1
  {
    var cs, ls := ClassifyScalar(k, off), [Leaf(off, k)];
    assert off + KindSize(k) <= 8;
    forall j
      ensures ClassOk(ls, cs, j)
    {
      assert Leaf(off, k) in ls;
    }
  }

  lemma {:induction false} FieldsKept(es: seq<Type>, k: nat, off: nat, words: nat)
    requires k <= |es| && (forall e :: e in es ==> Regular(e)) && off < 8 && words > 0
    requires |Fields(es, |es|, off, words)| == words
    ensures |Fields(es, k, off, words)| == words
    ensures Kept(ElementLeaves(es, k, off), Fields(es, k, off, words), off)
    decreases es, 0, k
  {
    hide Align, MergeAt, Classify, Size, Alignment, Leaves, Moved, Kept, Offset, Nothing, WellFormed, NoLongDouble;
    if |Fields(es, k, off, words)| != words && k > 0 { FieldsFail(es, k, |es|, off, words); }
    if k == 0 {
      NothingKept(words, off);
    } else {
      FieldsKept(es, k - 1, off, words);
      var e, o := es[k - 1], Offset(es, k - 1, off);
      ElementPlaced(es, k - 1, off);
      var sub := Classify(e, o % 8);
      ClassifyKept(e, o % 8);
      MergeKept(ElementLeaves(es, k - 1, off), Leaves(e, o % 8), Fields(es, k - 1, off, words), sub, off, o);
    }
  }

  /** Where element k lies, seen from the start of its eightbyte, and what lies before it. */
  lemma ElementPlaced(es: seq<Type>, k: nat, off: nat)
    requires k < |es| && forall e :: e in es ==> Regular(e)
    ensures var e, o := es[k], Offset(es, k, off);
            && Regular(e) && off <= o && o % 8 % Alignment(e) == 0
            && Leaves(e, o) == Moved(Leaves(e, o % 8), 8 * (o / 8))
            && (forall l :: l in ElementLeaves(es, k, off) ==> l.offset < o)
            && (forall l :: l in Leaves(e, o % 8) ==> o % 8 <= l.offset)
  {
    hide Align, Leaves;
    var e, o := es[k], Offset(es, k, off);
    assert e in es;
    OffsetsOrdered(es, k, k, off);
    SmallAlignment(e);
    AlignedWithin(o, Alignment(e));
    LeavesFrom(e, o);
    ElementLeavesInside(es, k, off);
    LeavesInside(e, o % 8);
    forall l | l in ElementLeaves(es, k, off)
      ensures l.offset < o
    {
      assert Inside(l, off, End(es, k, off));
    }
  }

  lemma AlignedWithin(o: nat, a: nat)
    requires a in {1, 2, 4, 8} && o % a == 0
    ensures o % 8 % a == 0
  {
  }

  lemma NothingKept(words: nat, off: nat)
    ensures Kept([], Nothing(words), off)
  {
  }

  /** Merging in the classes of an element at o, which lies behind all earlier fields. */
  lemma MergeKept(ls: seq<Leaf>, new_: seq<Leaf>, cs: seq<Class>, sub: seq<Class>, off: nat, o: nat)
    requires Kept(ls, cs, off) && Kept(new_, sub, o % 8) && off <= o && off < 8 && |cs| > 0
    requires forall l :: l in ls ==> l.offset < o
    requires forall l :: l in new_ ==> o % 8 <= l.offset
    ensures Kept(ls + Moved(new_, 8 * (o / 8)), MergeAt(cs, sub, o / 8), off)
  {
    hide LeafOk, ClassOk;
    var pos := o / 8;
    var all, cs' := ls + Moved(new_, 8 * pos), MergeAt(cs, sub, pos);
    forall j
      ensures ClassOk(all, cs', j)
    {
      assert ClassOk(ls, cs, j) && ClassOk(new_, sub, j - pos);
      MergeClassOk(ls, new_, cs, sub, o, j);
    }
    forall l | l in all
      ensures LeafOk(cs', off, l)
    {
      var j := l.offset / 8;
      assert ClassOk(ls, cs, j) && ClassOk(new_, sub, j - pos);
      if l in ls {
        assert LeafOk(cs, off, l);
        OldLeafOk(ls, new_, cs, sub, off, o, l);
      } else {
        var i :| 0 <= i < |new_| && l == Moved(new_, 8 * pos)[i];
        assert new_[i] in new_;
        assert LeafOk(sub, o % 8, new_[i]);
        NewLeafOk(ls, new_, cs, sub, off, o, new_[i]);
      }
    }
  }

  lemma MovedIn(ls: seq<Leaf>, d: nat, l: Leaf)
    requires l in ls
    ensures Leaf(l.offset + d, l.kind) in Moved(ls, d)
  {
    var i :| 0 <= i < |ls| && ls[i] == l;
    assert Moved(ls, d)[i] == Leaf(l.offset + d, l.kind);
  }

  lemma MergeFacts(a: Class, b: Class)
    requires Plain(a) && Plain(b)
    ensures Plain(Merge(a, b)) && (Merge(a, b) == NoClass ==> a == NoClass && b == NoClass)
    ensures Merge(a, b) == SSESF ==> a in {NoClass, SSESF} && b in {NoClass, SSESF} && (a == SSESF || b == SSESF)
    ensures Merge(a, b) in {SSE, SSEDF} ==> a in {SSE, SSEDF} || b in {SSE, SSEDF}
  {
  }

  lemma MergeClassOk(ls: seq<Leaf>, new_: seq<Leaf>, cs: seq<Class>, sub: seq<Class>, o: nat, j: int)
    requires ClassOk(ls, cs, j) && ClassOk(new_, sub, j - o / 8)
    ensures ClassOk(ls + Moved(new_, 8 * (o / 8)), MergeAt(cs, sub, o / 8), j)
  {
    hide Merge;
    var pos := o / 8;
    if 0 <= j < |cs| && pos <= j < pos + |sub| {
      var i := j - pos;
      MergeFacts(sub[i], cs[j]);
      if Leaf(8 * i, Float) in new_ { MovedIn(new_, 8 * pos, Leaf(8 * i, Float)); }
      if Leaf(8 * i + 4, Float) in new_ { MovedIn(new_, 8 * pos, Leaf(8 * i + 4, Float)); }
      if Leaf(8 * i, Double) in new_ { MovedIn(new_, 8 * pos, Leaf(8 * i, Double)); }
    }
  }

  lemma OldLeafOk(ls: seq<Leaf>, new_: seq<Leaf>, cs: seq<Class>, sub: seq<Class>, off: nat, o: nat, l: Leaf)
    requires LeafOk(cs, off, l) && l.offset < o
    requires var j := l.offset / 8; ClassOk(ls, cs, j) && ClassOk(new_, sub, j - o / 8)
    requires forall x :: x in new_ ==> o % 8 <= x.offset
    ensures LeafOk(MergeAt(cs, sub, o / 8), off, l)
  {
  }

  lemma NewLeafOk(ls: seq<Leaf>, new_: seq<Leaf>, cs: seq<Class>, sub: seq<Class>, off: nat, o: nat, l: Leaf)
    requires l in new_ && LeafOk(sub, o % 8, l) && off <= o && o % 8 <= l.offset && off < 8 && |cs| > 0
    requires var j := l.offset / 8 + o / 8; ClassOk(ls, cs, j) && ClassOk(new_, sub, j - o / 8)
    requires forall x :: x in ls ==> x.offset < o
    ensures LeafOk(MergeAt(cs, sub, o / 8), off, Leaf(l.offset + 8 * (o / 8), l.kind))
  {
    var pos := o / 8;
    var i := l.offset / 8;
    var j := i + pos;
    assert (l.offset + 8 * pos) / 8 == j && o == 8 * pos + o % 8;
  }

  // ---------- types with long double ----------

  /** A struct around a long double is larger than 16 bytes, or is nothing but the long double. */
  lemma {:induction false} LongDoubleShape(t: Type)
    requires WellFormed(t) && !NoLongDouble(t)
    ensures Size(t) >= 16
    ensures Size(t) == 16 ==> Classify(t, 0) == [X87, X87UP] && Leaves(t, 0) == [Leaf(0, LongDouble)]
  {
    hide Align;
    if t.Struct? {
      var es := t.elements;
      var i :| 0 <= i < |es| && !NoLongDouble(es[i]) by { ElementWith(es); }
      LongDoubleShape(es[i]);
      OffsetsOrdered(es, i, i, 0);
      EndMonotone(es, i + 1, |es|, 0);
      if Size(t) == 16 {
        OnlyElement(es, i);
        LongDoubleAlone(es);
      }
    }
  }

  lemma ElementWith(es: seq<Type>)
    requires exists e :: e in es && !NoLongDouble(e)
    ensures exists i :: 0 <= i < |es| && !NoLongDouble(es[i])
  {
    var e :| e in es && !NoLongDouble(e);
    var i :| 0 <= i < |es| && es[i] == e;
  }

  /** An element as large as the whole struct is its only element. */
  lemma OnlyElement(es: seq<Type>, i: nat)
    requires i < |es| && (forall e :: e in es ==> WellFormed(e)) && Size(es[i]) >= Size(Struct(es))
    ensures |es| == 1 && Offset(es, 0, 0) == 0
  {
    hide Align;
    SizeLeast(es, 0);
    OffsetsOrdered(es, 0, i, 0);
    OffsetsOrdered(es, i, |es| - 1, 0);
    assert es[0] in es && es[|es| - 1] in es;
    SizePositive(es[0]);
    SizePositive(es[|es| - 1]);
    EndMonotone(es, i + 1, |es|, 0);
  }

  lemma LongDoubleAlone(es: seq<Type>)
    requires |es| == 1 && Offset(es, 0, 0) == 0 && Classify(es[0], 0) == [X87, X87UP] && Size(Struct(es)) == 16
    ensures Classify(Struct(es), 0) == [X87, X87UP] && Leaves(Struct(es), 0) == Leaves(es[0], 0)
  {
    hide Align;
    assert ElementLeaves(es, 0, 0) == [];
    var cs := Fields(es, 1, 0, 2);
    assert Fields(es, 0, 0, 2) == [NoClass, NoClass];
    assert cs == MergeAt([NoClass, NoClass], [X87, X87UP], 0);
    assert cs == [X87, X87UP];
    assert Acceptable(cs, 0) && Acceptable(cs, 1);
    TidySame(cs, 2);
  }

  lemma LongDoubleInMemory(t: Type)
    requires WellFormed(t) && !NoLongDouble(t)
    ensures Examine(t, false) == InMemory
  {
    LongDoubleShape(t);
    if Size(t) > 16 {
      LargeInMemory(t, 0);
    } else {
      assert IsX87(Classify(t, 0)[0]);
    }
  }

  // ---------- fields that are never lost ----------

  /** Every struct inside t either starts an eightbyte or lies within one; t starts at off. */
  predicate NoStraddle(t: Type, off: nat)
    decreases t, 1, 0
  {
    t.Struct? ==> (off % 8 == 0 || off % 8 + Size(t) <= 8) && ElementsNoStraddle(t.elements, |t.elements|, off)
  }

  predicate ElementsNoStraddle(es: seq<Type>, k: nat, off: nat)
    requires k <= |es|
    decreases es, 0, k
  {
    k == 0 || (ElementsNoStraddle(es, k - 1, off) && NoStraddle(es[k - 1], Offset(es, k - 1, off) % 8))
  }

  predicate Seen(cs: seq<Class>, l: Leaf) {
    l.offset / 8 < |cs| && cs[l.offset / 8] != NoClass
  }

  /** Without straddling structs every field leaves its mark. */
  lemma {:induction false} AllSeen(t: Type, off: nat)
    requires Regular(t) && off < 8 && off % Alignment(t) == 0 && Classify(t, off) != [] && NoStraddle(t, off)
    ensures forall l :: l in Leaves(t, off) ==> Seen(Classify(t, off), l)
    decreases t, 1, 0
  {
    hide Align, LeafOk, ClassOk, MergeAt, Cleanup, Size, Alignment, Leaves;
    LeavesDef(t, off);
    if t.Scalar? {
      ScalarKept(t.kind, off);
    } else {
      var es, words := t.elements, Words(t);
      if Size(t) > 16 { LargeInMemory(t, off); }
      SizePositive(t);
      FieldsSeen(es, |es|, off, words);
      var cs := Fields(es, |es|, off, words);
      FieldsKept(es, |es|, off, words);
      KeptPlain(ElementLeaves(es, |es|, off), cs, off);
      PlainTidy(t, cs, off);
      LeavesInside(t, off);
      forall l | l in Leaves(t, off)
        ensures Seen(cs, l)
      {
        assert Inside(l, off, off + Size(t)) && SeenWithin(cs, words, l);
      }
    }
  }

  predicate SeenWithin(cs: seq<Class>, words: nat, l: Leaf) {
    l.offset / 8 < words ==> Seen(cs, l)
  }

  lemma {:induction false} FieldsSeen(es: seq<Type>, k: nat, off: nat, words: nat)
    requires k <= |es| && (forall e :: e in es ==> Regular(e)) && off < 8 && words > 0
    requires |Fields(es, |es|, off, words)| == words && ElementsNoStraddle(es, k, off)
    ensures forall l {:trigger SeenWithin(Fields(es, k, off, words), words, l)} ::
              l in ElementLeaves(es, k, off) ==> SeenWithin(Fields(es, k, off, words), words, l)
    decreases es, 0, k
  {
    hide Align, Classify, Size, Alignment, Leaves, Moved, Offset, Nothing, WellFormed, NoLongDouble;
    if |Fields(es, k, off, words)| != words && k > 0 { FieldsFail(es, k, |es|, off, words); }
    if k > 0 {
      FieldsSeen(es, k - 1, off, words);
      var e, o := es[k - 1], Offset(es, k - 1, off);
      ElementPlaced(es, k - 1, off);
      AllSeen(e, o % 8);
      MergeSeen(ElementLeaves(es, k - 1, off), Leaves(e, o % 8), Fields(es, k - 1, off, words), Classify(e, o % 8), words, o);
    }
  }

  lemma MergeSeen(ls: seq<Leaf>, new_: seq<Leaf>, cs: seq<Class>, sub: seq<Class>, words: nat, o: nat)
    requires |cs| == words
    requires forall l {:trigger SeenWithin(cs, words, l)} :: l in ls ==> SeenWithin(cs, words, l)
    requires forall l :: l in new_ ==> Seen(sub, l)
    ensures var all, cs' := ls + Moved(new_, 8 * (o / 8)), MergeAt(cs, sub, o / 8);
            forall l {:trigger SeenWithin(cs', words, l)} :: l in all ==> SeenWithin(cs', words, l)
  {
    var all, cs' := ls + Moved(new_, 8 * (o / 8)), MergeAt(cs, sub, o / 8);
    forall l | l in all
      ensures SeenWithin(cs', words, l)
    {
      if l in ls {
        assert SeenWithin(cs, words, l);
      } else {
        var i :| 0 <= i < |new_| && l == Moved(new_, 8 * (o / 8))[i];
        assert new_[i] in new_ && Seen(sub, new_[i]);
        assert l.offset / 8 == new_[i].offset / 8 + o / 8;
      }
    }
  }

  /** Every eightbyte that t reaches into holds the start of a field of t. */
  lemma {:induction false} EveryWordHasField(t: Type, off: nat, j: nat) returns (l: Leaf)
    requires Regular(t) && off % Alignment(t) == 0 && 8 * j < off + Size(t) && off < 8 * j + 8
    ensures l in Leaves(t, off) && l.offset / 8 == j
    decreases t
  {
    hide Align;
    if t.Scalar? {
      l := Leaf(off, t.kind);
      ScalarWithin(KindSize(t.kind), off, j);
    } else {
      var es := t.elements;
      SizeCovers(t, off);
      SmallAlignment(t);
      SizePositive(t);
      MultipleDifference(off, Size(t), Alignment(t));
      NotAllBefore(off + Size(t), End(es, |es|, off), Alignment(t), j);
      var k := Reaching(es, off, j);
      ElementPlaced(es, k, off);
      OffsetsOrdered(es, k, k, off);
      SmallAlignment(es[k]);
      if End(es, k, off) <= 8 * j {
        EightMultiple(j, Alignment(es[k]));
        AlignLeast(End(es, k, off), Alignment(es[k]), 8 * j);
      } else {
        MaxAlignmentIs(es);
        AlignmentDivides(off, Alignment(es[0]), Alignment(t));
        AlignLeast(off, Alignment(es[0]), off);
      }
      l := EveryWordHasField(es[k], Offset(es, k, off), j);
      ElementLeavesIn(es, k, |es|, off, l);
    }
  }

  lemma ScalarWithin(s: nat, off: nat, j: nat)
    requires s in {1, 2, 4, 8} && off % s == 0 && 8 * j < off + s && off < 8 * j + 8
    ensures off / 8 == j
  {
    EightMultiple(j, s);
    MultipleDifference(8 * j, off, s);
    MulSteps(s, (8 * j - off) / s);
  }

  /** Tail padding does not reach a new eightbyte. */
  lemma NotAllBefore(end: nat, last: nat, a: nat, j: nat)
    requires a in {1, 2, 4, 8} && end < last + a && 8 * j < end && end % a == 0
    ensures last > 8 * j
  {
    EightMultiple(j, a);
    MultipleDifference(end, 8 * j, a);
    MulSteps(a, (end - 8 * j) / a);
  }

  lemma EightMultiple(j: nat, a: nat)
    requires a in {1, 2, 4, 8}
    ensures 8 * j % a == 0
  {
    var q := if a == 1 then 8 * j else if a == 2 then 4 * j else if a == 4 then 2 * j else j;
    DivUnique(8 * j, a, q, 0);
  }

  /** The first element that ends behind the start of eightbyte j. */
  lemma Reaching(es: seq<Type>, off: nat, j: nat) returns (k: nat)
    requires |es| > 0 && End(es, |es|, off) > 8 * j
    ensures k < |es| && End(es, k + 1, off) > 8 * j && (k == 0 || End(es, k, off) <= 8 * j)
  {
    k := |es| - 1;
    while k > 0 && End(es, k, off) > 8 * j
      invariant k < |es| && End(es, k + 1, off) > 8 * j
    {
      k := k - 1;
    }
  }

  lemma {:induction false} ElementLeavesIn(es: seq<Type>, i: nat, k: nat, base: nat, l: Leaf)
    requires i < k <= |es| && l in Leaves(es[i], Offset(es, i, base))
    ensures l in ElementLeaves(es, k, base)
    decreases k
  {
    if i < k - 1 { ElementLeavesIn(es, i, k - 1, base, l); }
  }

  /** Without straddling structs every eightbyte of a struct in registers has a class. */
  lemma NoneLost(t: Type, j: nat)
    requires Regular(t) && Classify(t, 0) != [] && NoStraddle(t, 0) && j < |Classify(t, 0)|
    ensures Classify(t, 0)[j] != NoClass
  {
    hide Classify;
    ClassifyKept(t, 0);
    SizePositive(t);
    ScalarSizes(t);
    var l := EveryWordHasField(t, 0, j);
    AllSeen(t, 0);
    assert Seen(Classify(t, 0), l);
  }

  lemma ScalarSizes(t: Type)
    requires Regular(t)
    ensures t.Scalar? ==> Size(t) <= 8
  {
  }

  /** The smallest trouble: the second struct lies across a boundary, and its second field is
      lost, so that the second eightbyte has no class at all. */
  lemma StraddlingLosesAField()
    ensures var t := Struct([Scalar(Float), Struct([Scalar(Float), Scalar(Float)])]);
            Regular(t) && Size(t) == 12 && !NoStraddle(t, 0) && Classify(t, 0) == [SSE, NoClass]
  {
    hide Fields, Classify, ElementsNoStraddle, Cleanup, Align;
    var inner := Struct([Scalar(Float), Scalar(Float)]);
    var es := [Scalar(Float), inner];
    FloatPair();
    FloatClass(0);
    TwoElements(Scalar(Float), inner, 0);
    FieldSteps(Scalar(Float), inner, 0, 2, [SSESF], [SSE]);
    assert MergeAt(MergeAt(Nothing(2), [SSESF], 0), [SSE], 0) == [SSE, NoClass];
    StructClass(Struct(es), 0, [SSE, NoClass]);
    StraddleAtEnd(es, 0);
  }

  lemma StraddleAtEnd(es: seq<Type>, off: nat)
    requires |es| > 0 && !NoStraddle(es[|es| - 1], Offset(es, |es| - 1, off) % 8)
    ensures !NoStraddle(Struct(es), off)
  {
  }

  lemma FloatClass(off: nat)
    ensures Classify(Scalar(Float), off) == if off % 8 == 0 then [SSESF] else [SSE]
    ensures Size(Scalar(Float)) == 4 && Alignment(Scalar(Float)) == 4
  {
  }

  /** The layout of a struct of two elements with alignment 4. */
  lemma TwoElements(a: Type, b: Type, base: nat)
    requires Alignment(a) == 4 && Alignment(b) == 4 && base % 4 == 0 && Size(a) % 4 == 0 && Size(b) % 4 == 0
    ensures Offset([a, b], 0, base) == base && Offset([a, b], 1, base) == base + Size(a)
    ensures End([a, b], 2, base) == base + Size(a) + Size(b)
    ensures Size(Struct([a, b])) == Size(a) + Size(b) && Alignment(Struct([a, b])) == 4
  {
    hide Align;
    var es := [a, b];
    assert es[..1] == [a] && [a][..0] == [];
    assert MaxAlignment([]) == 1 && MaxAlignment([a]) == 4 && MaxAlignment(es) == 4;
    TwoEnds(a, b, base);
    TwoEnds(a, b, 0);
    AlignLeast(Size(a) + Size(b), 4, Size(a) + Size(b));
  }

  lemma TwoEnds(a: Type, b: Type, base: nat)
    requires Alignment(a) == 4 && Alignment(b) == 4 && base % 4 == 0 && Size(a) % 4 == 0
    ensures Offset([a, b], 0, base) == base && Offset([a, b], 1, base) == base + Size(a)
    ensures End([a, b], 2, base) == base + Size(a) + Size(b)
  {
    hide Align;
    var es := [a, b];
    assert End(es, 0, base) == base;
    AlignLeast(base, 4, base);
    assert End(es, 1, base) == base + Size(a);
    AlignLeast(base + Size(a), 4, base + Size(a));
  }

  lemma FieldSteps(a: Type, b: Type, off: nat, words: nat, ca: seq<Class>, cb: seq<Class>)
    requires var es := [a, b];
             && Classify(a, Offset(es, 0, off) % 8) == ca && Classify(b, Offset(es, 1, off) % 8) == cb && |ca| > 0 && |cb| > 0
    ensures var es := [a, b];
            Fields(es, 2, off, words) == MergeAt(MergeAt(Nothing(words), ca, Offset(es, 0, off) / 8), cb, Offset(es, 1, off) / 8)
  {
    hide Classify, Offset, MergeAt;
    var es := [a, b];
    assert Fields(es, 0, off, words) == Nothing(words);
    assert Fields(es, 1, off, words) == MergeAt(Nothing(words), ca, Offset(es, 0, off) / 8);
  }

  lemma StructClass(t: Type, off: nat, cs: seq<Class>)
    requires t.Struct? && 0 < Size(t) <= 16 && cs == Fields(t.elements, |t.elements|, off, Words(t)) && |cs| == Words(t)
    requires forall j :: 0 <= j < |cs| ==> Plain(cs[j])
    ensures Classify(t, off) == cs
  {
    PlainTidy(t, cs, off);
  }

  lemma FloatPair()
    ensures var t := Struct([Scalar(Float), Scalar(Float)]);
            && Size(t) == 8 && Alignment(t) == 4 && Regular(t) && Classify(t, 4) == [SSE] && !NoStraddle(t, 4)
  {
    hide Fields, Classify, Align;
    FloatClass(4);
    FloatClass(0);
    TwoElements(Scalar(Float), Scalar(Float), 4);
    FieldSteps(Scalar(Float), Scalar(Float), 4, 1, [SSE], [SSESF]);
    assert MergeAt(MergeAt(Nothing(1), [SSE], 0), [SSESF], 1) == [SSE];
    StructClass(Struct([Scalar(Float), Scalar(Float)]), 4, [SSE]);
  }

  // ---------- the classes the standard asks for ----------

  /** The class that a field on its own gives its eightbyte. */
  function LeafClass(l: Leaf): Class {
    match l.kind
    case Float => if l.offset % 8 == 0 then SSESF else SSE
    case Double => SSEDF
    case LongDouble => X87
    case _ => if l.offset % 8 + KindSize(l.kind) <= 4 then IntegerSI else Integer
  }

  /** The class of eightbyte j: all fields in it, merged. */
  function ClassOf(ls: seq<Leaf>, j: int): Class {
    if |ls| == 0 then NoClass
    else
      var c := ClassOf(ls[..|ls| - 1], j);
      if ls[|ls| - 1].offset / 8 == j then Merge(LeafClass(ls[|ls| - 1]), c) else c
  }

  predicate NoLong(ls: seq<Leaf>) {
    forall l :: l in ls ==> l.kind != LongDouble && l.offset % KindSize(l.kind) == 0
  }

  lemma {:induction false} ClassOfPlain(ls: seq<Leaf>, j: int)
    requires NoLong(ls)
    ensures Plain(ClassOf(ls, j))
  {
    if |ls| > 0 {
      assert ls[|ls| - 1] in ls;
      assert forall l :: l in ls[..|ls| - 1] ==> l in ls;
      ClassOfPlain(ls[..|ls| - 1], j);
    }
  }

  lemma {:induction false} ClassOfAppend(a: seq<Leaf>, b: seq<Leaf>, j: int)
    requires NoLong(a) && NoLong(b)
    ensures ClassOf(a + b, j) == Merge(ClassOf(b, j), ClassOf(a, j))
  {
    ClassOfPlain(a, j);
    if |b| == 0 {
      assert a + b == a;
    } else {
      var l, front := b[|b| - 1], b[..|b| - 1];
      assert l in b && forall x :: x in front ==> x in b;
      ClassOfAppend(a, front, j);
      ClassOfPlain(front, j);
      assert (a + b)[..|a + b| - 1] == a + front;
      MergeIsJoin(LeafClass(l), ClassOf(front, j), ClassOf(a, j));
    }
  }

  lemma {:induction false} ClassOfMoved(ls: seq<Leaf>, m: nat, j: int)
    requires forall l :: l in ls ==> l.offset >= 0
    ensures ClassOf(Moved(ls, 8 * m), j) == ClassOf(ls, j - m)
  {
    if |ls| > 0 {
      var front := ls[..|ls| - 1];
      ClassOfMoved(front, m, j);
      assert Moved(ls, 8 * m)[..|ls| - 1] == Moved(front, 8 * m);
      assert (ls[|ls| - 1].offset + 8 * m) / 8 == ls[|ls| - 1].offset / 8 + m;
    }
  }

  lemma {:induction false} ClassOfAbsent(ls: seq<Leaf>, j: int)
    requires forall l :: l in ls ==> l.offset / 8 != j
    ensures ClassOf(ls, j) == NoClass
  {
    if |ls| > 0 {
      assert ls[|ls| - 1] in ls;
      assert forall l :: l in ls[..|ls| - 1] ==> l in ls;
      ClassOfAbsent(ls[..|ls| - 1], j);
    }
  }

  /** Without straddling structs, classify_argument gives every eightbyte the class that the
      standard asks for: that of all fields in it, merged. */
  lemma {:induction false} ClassifyIsMerge(t: Type, off: nat, j: nat)
    requires Regular(t) && off < 8 && off % Alignment(t) == 0 && Classify(t, off) != [] && NoStraddle(t, off)
    requires j < |Classify(t, off)|
    ensures Classify(t, off)[j] == ClassOf(Leaves(t, off), j)
    decreases t, 1, 0
  {
    hide Align, LeafOk, ClassOk, MergeAt, Cleanup, Size, Alignment, Leaves;
    LeavesDef(t, off);
    if t.Scalar? {
      ScalarKept(t.kind, off);
      assert [Leaf(off, t.kind)][..0] == [];
    } else {
      var es, words := t.elements, Words(t);
      if Size(t) > 16 { LargeInMemory(t, off); }
      SizePositive(t);
      var cs := Fields(es, |es|, off, words);
      FieldsKept(es, |es|, off, words);
      KeptPlain(ElementLeaves(es, |es|, off), cs, off);
      PlainTidy(t, cs, off);
      FieldsAreMerge(es, |es|, off, words, j);
    }
  }

  lemma {:induction false} FieldsAreMerge(es: seq<Type>, k: nat, off: nat, words: nat, j: nat)
    requires k <= |es| && (forall e :: e in es ==> Regular(e)) && off < 8 && j < words
    requires |Fields(es, |es|, off, words)| == words && ElementsNoStraddle(es, k, off)
    ensures |Fields(es, k, off, words)| == words
    ensures Fields(es, k, off, words)[j] == ClassOf(ElementLeaves(es, k, off), j)
    decreases es, 0, k
  {
    hide Align, Classify, Size, Alignment, Leaves, Moved, Offset, WellFormed, NoLongDouble, Merge, MergeAt, ClassOf, Nothing,
      NoStraddle, Seen;
    if |Fields(es, k, off, words)| != words && k > 0 { FieldsFail(es, k, |es|, off, words); }
    if k > 0 {
      FieldsAreMerge(es, k - 1, off, words, j);
      var e, o := es[k - 1], Offset(es, k - 1, off);
      ElementPlaced(es, k - 1, off);
      var sub := Classify(e, o % 8);
      AllSeen(e, o % 8);
      if o / 8 <= j < o / 8 + |sub| { ClassifyIsMerge(e, o % 8, j - o / 8); }
      ElementLeavesLong(es, k - 1, off);
      LeavesLong(e, o % 8);
      MergedClass(ElementLeaves(es, k - 1, off), Leaves(e, o % 8), Fields(es, k - 1, off, words), sub, o / 8, j);
    } else {
      NothingThere(words, j);
    }
  }

  lemma NothingThere(words: nat, j: nat)
    requires j < words
    ensures Nothing(words)[j] == NoClass && ClassOf([], j) == NoClass
  {
  }

  lemma MergedClass(ls: seq<Leaf>, new_: seq<Leaf>, cs: seq<Class>, sub: seq<Class>, pos: nat, j: nat)
    requires j < |cs| && cs[j] == ClassOf(ls, j) && NoLong(ls) && NoLong(new_)
    requires pos <= j < pos + |sub| ==> sub[j - pos] == ClassOf(new_, j - pos)
    requires forall l :: l in new_ ==> Seen(sub, l)
    ensures MergeAt(cs, sub, pos)[j] == ClassOf(ls + Moved(new_, 8 * pos), j)
  {
    hide ClassOf, Merge;
    if !(pos <= j < pos + |sub|) { ClassOfAbsent(new_, j - pos); }
    ClassOfMoved(new_, pos, j);
    MovedLong(new_, pos);
    ClassOfAppend(ls, Moved(new_, 8 * pos), j);
    MergeNothing(ClassOf(ls, j));
  }

  lemma MovedLong(ls: seq<Leaf>, m: nat)
    requires NoLong(ls)
    ensures NoLong(Moved(ls, 8 * m))
  {
    forall l | l in Moved(ls, 8 * m)
      ensures l.kind != LongDouble && l.offset % KindSize(l.kind) == 0
    {
      var i :| 0 <= i < |ls| && l == Moved(ls, 8 * m)[i];
      assert ls[i] in ls;
      StillAligned(ls[i].offset, m, KindSize(l.kind));
    }
  }

  lemma StillAligned(o: nat, m: nat, s: nat)
    requires s in {1, 2, 4, 8} && o % s == 0
    ensures (o + 8 * m) % s == 0
  {
    EightMultiple(m, s);
    MultipleDifference(o, 8 * m, s);
  }

  lemma MergeNothing(c: Class)
    ensures Merge(NoClass, c) == c
  {
  }

  lemma ElementLeavesLong(es: seq<Type>, k: nat, base: nat)
    requires k <= |es| && forall e :: e in es ==> Regular(e)
    ensures NoLong(ElementLeaves(es, k, base))
    decreases es, 0, k
  {
    if k > 0 {
      ElementLeavesLong(es, k - 1, base);
      ElementPlaced(es, k - 1, base);
      OffsetsOrdered(es, k - 1, k - 1, base);
      LeavesLong(es[k - 1], Offset(es, k - 1, base));
    }
  }

  lemma LeavesLong(t: Type, base: nat)
    requires Regular(t) && base % Alignment(t) == 0
    ensures NoLong(Leaves(t, base))
    decreases t, 1, 0
  {
    if t.Struct? { ElementLeavesLong(t.elements, |t.elements|, base); }
  }

  // ---------- which eightbytes are floating ----------

  /** Eightbyte j holds fields, and all of them are floats or doubles. */
  ghost predicate FloatsOnly(ls: seq<Leaf>, j: int) {
    && (exists l :: l in ls && l.offset / 8 == j)
    && forall l :: l in ls && l.offset / 8 == j ==> l.kind in {Float, Double}
  }

  lemma MergeFloating(a: Class, b: Class)
    requires Plain(a) && Plain(b)
    ensures Merge(a, b) == NoClass <==> a == NoClass && b == NoClass
    ensures IsSSE(Merge(a, b)) <==> (IsSSE(a) || a == NoClass) && (IsSSE(b) || b == NoClass) && (IsSSE(a) || IsSSE(b))
  {
  }

  lemma LeafFloating(l: Leaf)
    requires l.kind != LongDouble
    ensures Plain(LeafClass(l)) && LeafClass(l) != NoClass && (IsSSE(LeafClass(l)) <==> l.kind in {Float, Double})
  {
  }

  lemma {:induction false} ClassOfFloats(ls: seq<Leaf>, j: int)
    requires NoLong(ls)
    ensures ClassOf(ls, j) == NoClass <==> forall l :: l in ls ==> l.offset / 8 != j
    ensures IsSSE(ClassOf(ls, j)) <==> FloatsOnly(ls, j)
  {
    hide Merge, LeafClass;
    if |ls| > 0 {
      var front, l := ls[..|ls| - 1], ls[|ls| - 1];
      assert forall x :: x in ls <==> x in front || x == l by { assert ls == front + [l]; }
      assert NoLong(front);
      ClassOfFloats(front, j);
      ClassOfPlain(front, j);
      LeafFloating(l);
      MergeFloating(LeafClass(l), ClassOf(front, j));
    }
  }

  /** Without straddling structs, just the eightbytes of floats and doubles are of an SSE class. */
  lemma SseExactly(t: Type, j: nat)
    requires Regular(t) && Classify(t, 0) != [] && NoStraddle(t, 0)
    ensures j < |Classify(t, 0)| ==> (IsSSE(Classify(t, 0)[j]) <==> FloatsOnly(Leaves(t, 0), j))
    ensures j >= |Classify(t, 0)| ==> !FloatsOnly(Leaves(t, 0), j)
  {
    hide Classify, ClassOf;
    LeavesLong(t, 0);
    if j < |Classify(t, 0)| {
      ClassifyIsMerge(t, 0, j);
      ClassOfFloats(Leaves(t, 0), j);
    } else {
      ClassifyKept(t, 0);
      LeavesInside(t, 0);
      ScalarSizes(t);
      SizePositive(t);
    }
  }

  // ---------- what may go in registers ----------

  lemma ElementSize(es: seq<Type>, k: nat)
    requires k < |es|
    ensures Size(es[k]) <= Size(Struct(es))
  {
    hide Align;
    OffsetsOrdered(es, k, k, 0);
    EndMonotone(es, k + 1, |es|, 0);
  }

  /** Nothing of up to 16 bytes without a long double is rejected. */
  lemma {:induction false} NotRejected(t: Type, off: nat)
    requires Regular(t) && Size(t) <= 16 && off < 8 && off % Alignment(t) == 0
    ensures Classify(t, off) != []
    decreases t, 1, 0
  {
    hide Align, LeafOk, ClassOk, MergeAt, Cleanup, Size, Alignment, Leaves;
    if t.Struct? {
      var es, words := t.elements, Words(t);
      SizePositive(t);
      FieldsNotRejected(es, |es|, off, words);
      FieldsKept(es, |es|, off, words);
      KeptPlain(ElementLeaves(es, |es|, off), Fields(es, |es|, off, words), off);
      PlainTidy(t, Fields(es, |es|, off, words), off);
    }
  }

  lemma {:induction false} FieldsNotRejected(es: seq<Type>, k: nat, off: nat, words: nat)
    requires k <= |es| && (forall e :: e in es ==> Regular(e)) && Size(Struct(es)) <= 16 && off < 8
    ensures |Fields(es, k, off, words)| == words
    decreases es, 0, k
  {
    hide Align, Classify, Size, Alignment, Leaves, Offset;
    if k > 0 {
      FieldsNotRejected(es, k - 1, off, words);
      ElementSize(es, k - 1);
      ElementPlaced(es, k - 1, off);
      NotRejected(es[k - 1], Offset(es, k - 1, off) % 8);
    }
  }
}
