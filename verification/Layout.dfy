/** Types, and the layout of structs that initialize_aggregate computes. */
module Layout {

  /** The scalar kinds of libffi, with the sizes they have on x86-64. Every scalar is aligned
      to its size. */
  datatype Kind = SInt8 | UInt8 | SInt16 | UInt16 | SInt32 | UInt32 | SInt64 | UInt64 | Pointer | Float | Double | LongDouble

  function KindSize(k: Kind): (r: nat)
    ensures r in {1, 2, 4, 8, 16}
  {
    match k
    case SInt8 => 1
    case UInt8 => 1
    case SInt16 => 2
    case UInt16 => 2
    case SInt32 => 4
    case UInt32 => 4
    case Float => 4
    case LongDouble => 16
    case _ => 8
  }

  /** An ffi_type: a scalar, or a struct with its elements. */
  datatype Type = Scalar(kind: Kind) | Struct(elements: seq<Type>)

  // ---------- rounding ----------

  /** The least multiple of a that is at least v. */
  function Align(v: nat, a: nat): (r: nat)
    requires a >= 1
    ensures v <= r < v + a
  {
    AlignMeans(v, a);
    (v + a - 1) / a * a
  }

  lemma AlignMeans(v: nat, a: nat)
    requires a >= 1
    ensures var r := (v + a - 1) / a * a; v <= r < v + a && r % a == 0
  {
    var q, rest := (v + a - 1) / a, (v + a - 1) % a;
    assert v + a - 1 == a * q + rest;
    assert a * q == q * a;
    DivUnique(q * a, a, q, 0);
  }

  lemma DivUnique(x: int, a: int, q: int, r: int)
    requires a >= 1 && x == q * a + r && 0 <= r < a
    ensures x / a == q && x % a == r
  {
    var d := x / a - q;
    assert x == a * (x / a) + x % a;
    assert a * d == a * (x / a) - a * q;
    MulSteps(a, d);
  }

  lemma MulSteps(m: int, d: int)
    requires 1 <= m
    ensures d >= 1 ==> m * d >= m
    ensures d <= -1 ==> m * d <= -m
  {
  }

  lemma AlignMultiple(v: nat, a: nat)
    requires a >= 1
    ensures Align(v, a) % a == 0
  {
    AlignMeans(v, a);
  }

  /** Rounding gives the least multiple. */
  lemma AlignLeast(v: nat, a: nat, m: nat)
    requires a >= 1 && v <= m && m % a == 0
    ensures Align(v, a) <= m
  {
    var r := Align(v, a);
    AlignMultiple(v, a);
    if m < r {
      var d := (r - m) / a;
      MultipleDifference(r, m, a);
      MulSteps(a, (r - m) / a);
    }
  }

  lemma MultipleDifference(x: int, y: int, a: int)
    requires a >= 1 && x % a == 0 && y % a == 0
    ensures (x - y) % a == 0 && x - y == a * ((x - y) / a)
    ensures (x + y) % a == 0
  {
    var p, q := x / a, y / a;
    assert x == p * a && y == q * a;
    assert x - y == (p - q) * a by { Distribute(p, q, a); }
    assert x + y == (p + q) * a by { Distribute(p, -q, a); }
    DivUnique(x - y, a, p - q, 0);
    DivUnique(x + y, a, p + q, 0);
  }

  lemma Distribute(p: int, q: int, a: int)
    ensures (p - q) * a == p * a - q * a
  {
  }

  /** The alignments that occur: powers of two up to 16. */
  predicate IsAlignment(a: nat) {
    a in {1, 2, 4, 8, 16}
  }

  /** Of two alignments, the smaller divides the larger. */
  lemma AlignmentDivides(x: nat, a: nat, b: nat)
    requires IsAlignment(a) && IsAlignment(b) && a <= b && x % b == 0
    ensures x % a == 0
  {
    assert b % a == 0;
    var m, q := b / a, x / b;
    assert b == m * a && x == q * b;
    Associate(q, m, a);
    DivUnique(x, a, q * m, 0);
  }

  // ---------- size and alignment ----------

  function Size(t: Type): nat
    decreases t, 1
  {
    match t
    case Scalar(k) => KindSize(k)
    case Struct(es) => Align(End(es, |es|, 0), if |es| == 0 then 1 else MaxAlignment(es))
  }

  function Alignment(t: Type): (r: nat)
    ensures r >= 1
    decreases t, 1
  {
    match t
    case Scalar(k) => KindSize(k)
    case Struct(es) => if |es| == 0 then 1 else MaxAlignment(es)
  }

  function MaxAlignment(es: seq<Type>): (r: nat)
    ensures r >= 1
    decreases es, 0
  {
    if |es| == 0 then 1
    else
      var m := MaxAlignment(es[..|es| - 1]);
      var a := Alignment(es[|es| - 1]);
      if m > a then m else a
  }

  /** The alignment of a struct is that of its most demanding element. */
  lemma {:induction false} MaxAlignmentIs(es: seq<Type>)
    ensures forall i :: 0 <= i < |es| ==> Alignment(es[i]) <= MaxAlignment(es)
    ensures |es| > 0 ==> exists i :: 0 <= i < |es| && Alignment(es[i]) == MaxAlignment(es)
    ensures |es| == 0 ==> MaxAlignment(es) == 1
  {
    if |es| > 0 {
      var front := es[..|es| - 1];
      MaxAlignmentIs(front);
      forall i | 0 <= i < |es| - 1
        ensures Alignment(es[i]) <= MaxAlignment(es)
      {
        assert es[i] == front[i];
      }
      if MaxAlignment(front) > Alignment(es[|es| - 1]) && |front| > 0 {
        var i :| 0 <= i < |front| && Alignment(front[i]) == MaxAlignment(front);
        assert es[i] == front[i];
      } else {
        assert Alignment(es[|es| - 1]) == MaxAlignment(es);
      }
    }
  }

  lemma {:induction false} AlignmentIs(t: Type)
    ensures IsAlignment(Alignment(t))
  {
    if t.Struct? && |t.elements| > 0 {
      MaxAlignmentIs(t.elements);
      var i :| 0 <= i < |t.elements| && Alignment(t.elements[i]) == MaxAlignment(t.elements);
      AlignmentIs(t.elements[i]);
    }
  }

  /** Where element k starts when the first one is laid out from base on. */
  function Offset(es: seq<Type>, k: nat, base: nat): nat
    requires k < |es|
    decreases es, k, 1
  {
    Align(End(es, k, base), Alignment(es[k]))
  }

  /** Where the first k elements end. */
  function End(es: seq<Type>, k: nat, base: nat): nat
    requires k <= |es|
    decreases es, k, 0
  {
    if k == 0 then base else Offset(es, k - 1, base) + Size(es[k - 1])
  }

  /** A type that initialize_aggregate accepts: no struct is empty. */
  predicate WellFormed(t: Type) {
    t.Scalar? || (|t.elements| > 0 && forall e :: e in t.elements ==> WellFormed(e))
  }

  // ---------- what a layout promises ----------

  /** Every element is aligned, starts where the one before has ended or later, by less than
      its alignment, and ends before the end of the whole. */
  lemma {:induction false} OffsetsOrdered(es: seq<Type>, j: nat, k: nat, base: nat)
    requires j <= k < |es|
    ensures Offset(es, k, base) % Alignment(es[k]) == 0
    ensures base <= End(es, j, base) <= Offset(es, j, base) <= Offset(es, k, base)
    ensures j < k ==> Offset(es, j, base) + Size(es[j]) <= Offset(es, k, base)
    ensures Offset(es, k, base) < End(es, k, base) + Alignment(es[k])
    ensures Offset(es, k, base) + Size(es[k]) == End(es, k + 1, base)
    decreases k
  {
    hide Align;
    EndAbove(es, j, base);
    AlignMultiple(End(es, k, base), Alignment(es[k]));
    if j < k {
      OffsetsOrdered(es, j, k - 1, base);
    }
  }

  lemma {:induction false} EndAbove(es: seq<Type>, k: nat, base: nat)
    requires k <= |es|
    ensures base <= End(es, k, base)
    decreases k
  {
    if k > 0 { EndAbove(es, k - 1, base); }
  }

  lemma {:induction false} EndMonotone(es: seq<Type>, j: nat, k: nat, base: nat)
    requires j <= k <= |es|
    ensures End(es, j, base) <= End(es, k, base)
    decreases k
  {
    if j < k {
      EndMonotone(es, j, k - 1, base);
      assert End(es, k - 1, base) <= Offset(es, k - 1, base);
    }
  }

  /** The size is the least multiple of the alignment that holds all elements. */
  lemma SizeLeast(es: seq<Type>, m: nat)
    requires |es| > 0
    ensures var s := Size(Struct(es)); s % Alignment(Struct(es)) == 0 && End(es, |es|, 0) <= s
    ensures End(es, |es|, 0) <= m && m % Alignment(Struct(es)) == 0 ==> Size(Struct(es)) <= m
  {
    hide Align;
    AlignMultiple(End(es, |es|, 0), MaxAlignment(es));
    if End(es, |es|, 0) <= m && m % Alignment(Struct(es)) == 0 {
      AlignLeast(End(es, |es|, 0), MaxAlignment(es), m);
    }
  }

  lemma {:induction false} SizePositive(t: Type)
    requires WellFormed(t)
    ensures Size(t) > 0 && Size(t) % Alignment(t) == 0
  {
    hide Align;
    if t.Struct? {
      var es := t.elements;
      AlignMultiple(End(es, |es|, 0), MaxAlignment(es));
      assert es[0] in es;
      SizePositive(es[0]);
      EndMonotone(es, 1, |es|, 0);
      assert End(es, 1, 0) == Offset(es, 0, 0) + Size(es[0]);
    }
  }

  // ---------- initialize_aggregate ----------

  datatype Status = Ok | BadTypedef

  /** initialize_aggregate, which fills in size and alignment of a struct and of the structs
      in it. The type of a scalar is never initialized. */
  method InitializeAggregate(t: Type) returns (status: Status, size: nat, alignment: nat)
    requires t.Struct?
    ensures status.Ok? <==> WellFormed(t)
    ensures status.Ok? ==> size == Size(t) && alignment == Alignment(t)
    decreases t
  {
    hide Align;
    var es := t.elements;
    size, alignment := 0, 0;
    var i := 0;
    while i < |es|
      invariant 0 <= i <= |es|
      invariant forall j :: 0 <= j < i ==> WellFormed(es[j])
      invariant size == End(es, i, 0) && alignment == (if i == 0 then 0 else MaxAlignment(es[..i]))
    {
      var s, a;
      if es[i].Struct? {
        var st;
        st, s, a := InitializeAggregate(es[i]);
        if st.BadTypedef? {
          assert es[i] in es;
          return BadTypedef, 0, 0;
        }
      } else {
        s, a := KindSize(es[i].kind), KindSize(es[i].kind);
      }
      SizePositive(es[i]);
      size := Align(size, a);
      size := size + s;
      alignment := if alignment > a then alignment else a;
      assert es[..i + 1][..i] == es[..i];
      i := i + 1;
    }
    if i == 0 {
      return BadTypedef, 0, 0;
    }
    assert es[..i] == es;
    size := Align(size, alignment);
    assert forall e :: e in es ==> exists j :: 0 <= j < |es| && es[j] == e;
    SizePositive(t);
    status := Ok;
  }

  // ---------- arrays in structs ----------

  /** A field as the JavaScript side describes it: one type, or an array of a fixed length. */
  datatype Field = One(t: Type) | Many(t: Type, length: nat)

  /** Type() writes every array element as an element of its own. */
  function Flatten(fields: seq<Field>): seq<Type> {
    if |fields| == 0 then []
    else
      var f := fields[|fields| - 1];
      Flatten(fields[..|fields| - 1]) + (if f.One? then [f.t] else seq(f.length, i => f.t))
  }

  function FieldSize(f: Field): nat {
    if f.One? then Size(f.t) else f.length * Size(f.t)
  }

  /** The end of a layout in which an array is one block of its length times the element size. */
  function BlockEnd(fields: seq<Field>): nat {
    if |fields| == 0 then 0
    else
      var f := fields[|fields| - 1];
      Align(BlockEnd(fields[..|fields| - 1]), Alignment(f.t)) + FieldSize(f)
  }

  function BlockAlignment(fields: seq<Field>): (r: nat)
    ensures r >= 1
  {
    if |fields| == 0 then 1
    else
      var m := BlockAlignment(fields[..|fields| - 1]);
      var a := Alignment(fields[|fields| - 1].t);
      if m > a then m else a
  }

  lemma {:induction false} EndAppend(es: seq<Type>, fs: seq<Type>, k: nat, base: nat)
    requires k <= |fs|
    ensures End(es + fs, |es| + k, base) == End(fs, k, End(es, |es|, base))
    decreases k
  {
    if k == 0 {
      EndPrefix(es, fs, |es|, base);
    } else {
      EndAppend(es, fs, k - 1, base);
    }
  }

  lemma {:induction false} EndPrefix(es: seq<Type>, fs: seq<Type>, k: nat, base: nat)
    requires k <= |es|
    ensures End(es + fs, k, base) == End(es, k, base)
    decreases k
  {
    if k > 0 { EndPrefix(es, fs, k - 1, base); }
  }

  /** Copies of one type follow each other without gaps. */
  lemma {:induction false} EndOfCopies(t: Type, n: nat, k: nat, base: nat)
    requires k <= n && WellFormed(t)
    ensures var es := seq(n, i => t); k > 0 ==> End(es, k, base) == Align(base, Alignment(t)) + k * Size(t)
    decreases k
  {
    var es := seq(n, i => t);
    hide Align;
    if k == 1 {
      assert End(es, 0, base) == base;
    } else if k > 1 {
      EndOfCopies(t, n, k - 1, base);
      SizePositive(t);
      var v := Align(base, Alignment(t)) + (k - 1) * Size(t);
      MultipleOf(Size(t), k - 1, Alignment(t));
      AlignMultiple(base, Alignment(t));
      MultipleDifference(Align(base, Alignment(t)), -((k - 1) * Size(t)), Alignment(t));
      AlignLeast(v, Alignment(t), v);
      Distribute(k, 1, Size(t));
    }
  }

  lemma {:induction false} MultipleOf(x: int, n: nat, a: int)
    requires a >= 1 && x % a == 0
    ensures (n * x) % a == 0 && (-(n * x)) % a == 0
  {
    var q := x / a;
    assert x == q * a;
    assert n * x == (n * q) * a by { Associate(n, q, a); }
    DivUnique(n * x, a, n * q, 0);
    assert -(n * x) == (-(n * q)) * a;
    DivUnique(-(n * x), a, -(n * q), 0);
  }

  lemma Associate(n: int, q: int, a: int)
    ensures n * (q * a) == (n * q) * a
  {
  }

  /** Writing arrays element by element gives the layout of arrays as blocks. */
  lemma {:induction false} FlatteningIsFaithful(fields: seq<Field>)
    requires forall f :: f in fields ==> WellFormed(f.t) && (f.Many? ==> f.length > 0)
    ensures End(Flatten(fields), |Flatten(fields)|, 0) == BlockEnd(fields)
    ensures |fields| > 0 ==> |Flatten(fields)| > 0
    ensures |Flatten(fields)| > 0 ==> MaxAlignment(Flatten(fields)) == BlockAlignment(fields)
    ensures |fields| > 0 ==> Size(Struct(Flatten(fields))) == Align(BlockEnd(fields), BlockAlignment(fields))
  {
    hide Align;
    if |fields| > 0 {
      var front, f := fields[..|fields| - 1], fields[|fields| - 1];
      assert f in fields;
      FlatteningIsFaithful(front);
      var es := Flatten(front);
      var fs := if f.One? then [f.t] else seq(f.length, i => f.t);
      EndAppend(es, fs, |fs|, 0);
      if f.One? {
        assert End([f.t], 0, End(es, |es|, 0)) == End(es, |es|, 0);
      } else {
        EndOfCopies(f.t, f.length, f.length, End(es, |es|, 0));
      }
      MaxAppend(es, fs, f.t);
      assert Flatten(fields) == es + fs;
    }
  }

  lemma {:induction false} MaxAppend(es: seq<Type>, fs: seq<Type>, t: Type)
    requires |fs| > 0 && forall f :: f in fs ==> f == t
    ensures MaxAlignment(es + fs) == var m, a := MaxAlignment(es), Alignment(t); if m > a then m else a
    decreases |fs|
  {
    var all := es + fs;
    var front := fs[..|fs| - 1];
    assert forall f :: f in front ==> f in fs;
    assert all[..|all| - 1] == es + front && all[|all| - 1] == fs[|fs| - 1] == t by { assert fs[|fs| - 1] in fs; }
    if |front| > 0 {
      MaxAppend(es, front, t);
    } else {
      assert es + front == es;
    }
  }
}
