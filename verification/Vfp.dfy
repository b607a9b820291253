/** Passing floats in the VFP registers of ARM: which arguments are candidates, and the registers
    that they get. Sizes of floats, doubles and structs of them are those of Layout. */
module Vfp {
  import opened Layout

  // ---------- candidates ----------

  /** What vfp_type_p may store in the type field of a struct. */
  datatype Code = PlainStruct | AsFloat | AsDouble | VfpFloat | VfpDouble

  /** An ffi_type with its current code. */
  datatype VType = Leaf(kind: Kind) | Group(code: Code, elements: seq<VType>)

  function Shape(v: VType): Type
    decreases v, 1
  {
    match v
    case Leaf(k) => Scalar(k)
    case Group(_, es) => Struct(Shapes(es, |es|))
  }

  function Shapes(es: seq<VType>, k: nat): (r: seq<Type>)
    requires k <= |es|
    ensures |r| == k
    decreases es, 0, k
  {
    if k == 0 then [] else Shapes(es, k - 1) + [Shape(es[k - 1])]
  }

  /** The kinds of all fields, in order. */
  function Kinds(v: VType): seq<Kind>
    decreases v, 1
  {
    match v
    case Leaf(k) => [k]
    case Group(_, es) => KindsOf(es, |es|)
  }

  function KindsOf(es: seq<VType>, k: nat): seq<Kind>
    requires k <= |es|
    decreases es, 0, k
  {
    if k == 0 then [] else KindsOf(es, k - 1) + Kinds(es[k - 1])
  }

  predicate AllKind(ks: seq<Kind>, k: Kind) {
    forall i {:trigger ks[i]} :: 0 <= i < |ks| ==> ks[i] == k
  }

  /** One to four floats, or one to four doubles, however nested: a candidate in the sense of the
      procedure call standard. */
  predicate Homogeneous(v: VType, k: Kind) {
    k in {Float, Double} && 1 <= |Kinds(v)| <= 4 && AllKind(Kinds(v), k)
  }

  function CodeOf(k: Kind, n: nat): Code {
    if n == 1 then (if k == Float then AsFloat else AsDouble) else if k == Float then VfpFloat else VfpDouble
  }

  /** The code of every struct is the original one, or what vfp_type_p makes of it; no struct is empty. */
  ghost predicate Honest(v: VType)
    decreases v
  {
    v.Group? ==>
      && |v.elements| > 0 && (forall e :: e in v.elements ==> Honest(e))
      && (v.code != PlainStruct ==> exists k :: Homogeneous(v, k) && v.code == CodeOf(k, |Kinds(v)|))
  }

  /** Homogeneous structs have no padding. */
  lemma {:induction false} HomogeneousSize(v: VType, k: Kind)
    requires Honest(v) && k in {Float, Double} && AllKind(Kinds(v), k)
    ensures Size(Shape(v)) == |Kinds(v)| * KindSize(k) && Alignment(Shape(v)) == KindSize(k) && |Kinds(v)| > 0
    decreases v, 1
  {
    hide Align, AllKind;
    if v.Group? {
      var es := v.elements;
      var n := |es|;
      HomogeneousEnd(es, n, k);
      AlignExact(|Kinds(v)|, KindSize(k));
    } else {
      OneLeaf(v.kind, k);
    }
  }

  lemma OneLeaf(l: Kind, k: Kind)
    requires AllKind([l], k)
    ensures l == k
  {
    assert [l][0] == k;
  }

  lemma AlignExact(n: nat, a: nat)
    requires a >= 1
    ensures Align(n * a, a) == n * a
  {
    DivUnique(n * a + a - 1, a, n, a - 1);
  }

  lemma {:induction false} HomogeneousEnd(es: seq<VType>, j: nat, k: Kind)
    requires 0 < j <= |es| && (forall e :: e in es ==> Honest(e)) && k in {Float, Double} && AllKind(KindsOf(es, j), k)
    ensures End(Shapes(es, j), j, 0) == |KindsOf(es, j)| * KindSize(k) && MaxAlignment(Shapes(es, j)) == KindSize(k) && |KindsOf(es, j)| > 0
    decreases es, 0, j
  {
    hide Align, AllKind, Size, Alignment, Kinds, Shape;
    var ts, us := Shapes(es, j), Shapes(es, j - 1);
    assert ts[..j - 1] == us && ts == us + [Shape(es[j - 1])];
    assert es[j - 1] in es;
    PartsUniform(KindsOf(es, j - 1), Kinds(es[j - 1]), k);
    HomogeneousSize(es[j - 1], k);
    if j > 1 { HomogeneousEnd(es, j - 1, k); }
    HomogeneousStep(us, Shape(es[j - 1]), |KindsOf(es, j - 1)|, |Kinds(es[j - 1])|, KindSize(k));
  }

  lemma HomogeneousStep(us: seq<Type>, t: Type, n: nat, m: int, a: nat)
    requires a >= 1 && End(us, |us|, 0) == n * a && (|us| > 0 ==> MaxAlignment(us) == a) && Size(t) == m * a && Alignment(t) == a
    ensures End(us + [t], |us| + 1, 0) == (n + m) * a && MaxAlignment(us + [t]) == a
  {
    hide Align, Size, Alignment, End, MaxAlignment;
    AlignExact(n, a);
    EndOfPrefix(us, t, |us|);
    Distribute(n, -m, a);
    LastMax(us, t);
  }

  lemma PartsUniform(a: seq<Kind>, b: seq<Kind>, k: Kind)
    requires AllKind(a + b, k)
    ensures AllKind(a, k) && AllKind(b, k)
  {
    forall i | 0 <= i < |a|
      ensures a[i] == k
    {
      assert (a + b)[i] == a[i];
    }
    forall i | 0 <= i < |b|
      ensures b[i] == k
    {
      assert (a + b)[|a| + i] == b[i];
    }
  }

  lemma EndOfPrefix(us: seq<Type>, t: Type, j: nat)
    requires j == |us|
    ensures End(us + [t], j + 1, 0) == Align(End(us, j, 0), Alignment(t)) + Size(t)
  {
    hide Align;
    EndPrefix(us, [t], j, 0);
  }

  lemma LastMax(us: seq<Type>, t: Type)
    ensures MaxAlignment(us + [t]) == if |us| > 0 && MaxAlignment(us) > Alignment(t) then MaxAlignment(us) else Alignment(t)
  {
    assert (us + [t])[..|us|] == us;
    if |us| == 0 { assert us + [t] == [t]; }
  }

  lemma {:induction false} KindsPositive(v: VType)
    requires Honest(v)
    ensures |Kinds(v)| > 0
    decreases v, 1
  {
    if v.Group? { KindsOfPositive(v.elements, |v.elements|); }
  }

  lemma {:induction false} KindsOfPositive(es: seq<VType>, j: nat)
    requires 0 < j <= |es| && forall e :: e in es ==> Honest(e)
    ensures |KindsOf(es, j)| > 0
    decreases es, 0, j
  {
    assert es[j - 1] in es;
    KindsPositive(es[j - 1]);
  }

  lemma {:induction false} KindsOfPrefix(es: seq<VType>, i: nat, j: nat)
    requires i <= j <= |es|
    ensures |KindsOf(es, i)| <= |KindsOf(es, j)| && KindsOf(es, j)[..|KindsOf(es, i)|] == KindsOf(es, i)
    decreases j
  {
    if i < j { KindsOfPrefix(es, i, j - 1); }
  }

  lemma HomogeneousSame(v: VType, k: Kind, l: Kind)
    requires Homogeneous(v, k) && Homogeneous(v, l)
    ensures k == l
  {
    assert Kinds(v)[0] == k;
  }

  /** What a struct with a code has been found to be. */
  lemma CodeMeans(v: VType)
    requires Honest(v) && v.Group? && v.code != PlainStruct
    ensures v.code in {AsFloat, VfpFloat} ==> Homogeneous(v, Float) && Size(Shape(v)) == 4 * |Kinds(v)|
    ensures v.code in {AsDouble, VfpDouble} ==> Homogeneous(v, Double) && Size(Shape(v)) == 8 * |Kinds(v)|
    ensures v.code in {AsFloat, AsDouble} ==> |Kinds(v)| == 1
  {
    hide Size, Alignment, Homogeneous;
    var k :| Homogeneous(v, k) && v.code == CodeOf(k, |Kinds(v)|);
    assert k in {Float, Double} && AllKind(Kinds(v), k) by { assert Homogeneous(v, k); HomogeneousShape(v, k); }
    HomogeneousSize(v, k);
  }

  lemma HomogeneousShape(v: VType, k: Kind)
    requires Homogeneous(v, k)
    ensures k in {Float, Double} && 1 <= |Kinds(v)| <= 4 && AllKind(Kinds(v), k)
  {
  }

  /** rec_vfp_type_p: exactly the homogeneous types are candidates, also when structs within them
      have got a code by an earlier pass. */
  method RecVfpTypeP(v: VType) returns (ok: bool, elt: Kind, elnum: nat)
    requires Honest(v)
    ensures ok <==> exists k :: Homogeneous(v, k)
    ensures ok ==> Homogeneous(v, elt) && elnum == |Kinds(v)|
    decreases v
  {
    hide Size, Alignment, Homogeneous;
    ok, elt, elnum := false, Float, 0;
    match v
    case Leaf(k) =>
      LeafCandidate(k);
      if k == Float || k == Double {
        ok, elt, elnum := true, k, 1;
        assert Homogeneous(v, elt);
      }
    case Group(code, es) =>
      if code == PlainStruct {
        ok, elt, elnum := RecStruct(v);
      } else {
        CodeMeans(v);
        elt := if code == AsFloat || code == VfpFloat then Float else Double;
        elnum := if code == AsFloat || code == AsDouble then 1 else Size(Shape(v)) / KindSize(elt);
        ok := true;
      }
      assert ok ==> Homogeneous(v, elt);
  }

  lemma LeafCandidate(k: Kind)
    ensures forall l :: Homogeneous(Leaf(k), l) <==> l == k && k in {Float, Double}
  {
    forall l
      ensures Homogeneous(Leaf(k), l) <==> l == k && k in {Float, Double}
    {
      assert Kinds(Leaf(k))[0] == k;
    }
  }

  /** Elements up to j are all of one kind. */
  ghost predicate Uniform(es: seq<VType>, j: nat, k: Kind)
    requires j <= |es|
  {
    k in {Float, Double} && 1 <= |KindsOf(es, j)| <= 4 && AllKind(KindsOf(es, j), k)
  }

  /** The loop of rec_vfp_type_p over the elements of a struct. */
  method RecStruct(v: VType) returns (ok: bool, elt: Kind, elnum: nat)
    requires Honest(v) && v.Group?
    ensures ok <==> exists k :: Homogeneous(v, k)
    ensures ok ==> Homogeneous(v, elt) && elnum == |Kinds(v)|
    decreases v, 0
  {
    hide Homogeneous, Uniform, AllKind;
    var es := v.elements;
    elnum, elt := 0, Float;   // base_elt is unset as long as total_elnum is 0
    for j := 0 to |es|
      invariant elnum == |KindsOf(es, j)|
      invariant j > 0 ==> Uniform(es, j, elt)
    {
      assert es[j] in es;
      var elOk, elElt, elElnum := RecVfpTypeP(es[j]);
      if !elOk || (elnum > 0 && elt != elElt) || elnum + elElnum > 4 {
        NotUniform(v, j, elt, elOk, elElt, elElnum);
        return false, elt, elnum;
      }
      if j > 0 { KindsOfPositive(es, j); }
      StillUniform(es, j, elt, elElt);
      elt := elElt;
      elnum := elnum + elElnum;
    }
    ok := true;
    AllUniform(v, elt);
  }

  lemma AllUniform(v: VType, k: Kind)
    requires v.Group? && Uniform(v.elements, |v.elements|, k)
    ensures Homogeneous(v, k)
  {
  }

  lemma StillUniform(es: seq<VType>, j: nat, k: Kind, l: Kind)
    requires j < |es| && (j > 0 ==> Uniform(es, j, k)) && Homogeneous(es[j], l)
    requires (j > 0 ==> k == l) && |KindsOf(es, j)| + |Kinds(es[j])| <= 4
    ensures Uniform(es, j + 1, l)
  {
  }

  lemma SameKind(ks: seq<Kind>, k: Kind, l: Kind)
    requires |ks| > 0 && AllKind(ks, k) && AllKind(ks, l)
    ensures k == l
  {
    assert ks[0] == k;
  }

  /** Each of the three tests rules out that the whole is homogeneous. */
  lemma NotUniform(v: VType, j: nat, elt: Kind, elOk: bool, elElt: Kind, elElnum: nat)
    requires Honest(v) && v.Group? && j < |v.elements|
    requires elOk <==> exists k :: Homogeneous(v.elements[j], k)
    requires elOk ==> Homogeneous(v.elements[j], elElt) && elElnum == |Kinds(v.elements[j])|
    requires j > 0 ==> Uniform(v.elements, j, elt)
    requires !elOk || (|KindsOf(v.elements, j)| > 0 && elt != elElt) || |KindsOf(v.elements, j)| + elElnum > 4
    ensures forall k :: !Homogeneous(v, k)
  {
    var es := v.elements;
    assert es[j] in es;
    KindsPositive(es[j]);
    forall k
      ensures !Homogeneous(v, k)
    {
      if Homogeneous(v, k) {
        PartHomogeneous(v, k, j);
        if elOk { HomogeneousSame(es[j], k, elElt); }
        if j > 0 {
          KindsOfPositive(es, j);
          SameKind(KindsOf(es, j), elt, k);
        }
      }
    }
  }

  lemma PartHomogeneous(v: VType, k: Kind, j: nat)
    requires Honest(v) && v.Group? && Homogeneous(v, k) && j < |v.elements|
    ensures Homogeneous(v.elements[j], k) && AllKind(KindsOf(v.elements, j), k)
    ensures |KindsOf(v.elements, j)| + |Kinds(v.elements[j])| <= 4
  {
    var es := v.elements;
    KindsOfPrefix(es, j + 1, |es|);
    var rest := Kinds(v)[|KindsOf(es, j + 1)|..];
    assert Kinds(v) == KindsOf(es, j + 1) + rest;
    PartsUniform(KindsOf(es, j + 1), rest, k);
    PartsUniform(KindsOf(es, j), Kinds(es[j]), k);
    assert es[j] in es;
    KindsPositive(es[j]);
  }

  function Recoded(v: VType, code: Code): VType {
    match v
    case Leaf(_) => v
    case Group(_, es) => Group(code, es)
  }

  /** vfp_type_p: the verdict, and the type with its new code. Nothing that depends on the type
      changes by that, so a later pass decides the same. */
  method VfpTypeP(v: VType) returns (ok: bool, v': VType)
    requires Honest(v)
    ensures ok <==> exists k :: Homogeneous(v, k)
    ensures Honest(v') && Shape(v') == Shape(v) && Kinds(v') == Kinds(v) && forall k :: Homogeneous(v', k) <==> Homogeneous(v, k)
    ensures !ok ==> v' == v
    ensures ok && v.Group? && v.code == PlainStruct ==> exists k :: Homogeneous(v, k) && v' == Group(CodeOf(k, |Kinds(v)|), v.elements)
    ensures v.Leaf? || v.code != PlainStruct ==> v' == v
  {
    var elt, elnum;
    ok, elt, elnum := RecVfpTypeP(v);
    v' := v;
    if ok && v.Group? && v.code == PlainStruct {
      v' := Recoded(v, if elnum == 1 then (if elt == Float then AsFloat else AsDouble) else if elt == Float then VfpFloat else VfpDouble);
      assert Homogeneous(v', elt) && v'.code == CodeOf(elt, |Kinds(v')|);
    }
  }

  // ---------- registers ----------

  const REGISTERS: nat := 16

  /** The registers that an argument takes, and the alignment of the first. */
  datatype Need = Need(count: nat, align: nat)

  datatype Run = Run(start: nat, count: nat)

  predicate Sensible(n: Need) {
    n.count > 0 && n.align in {1, 2}
  }

  predicate Suits(used: set<nat>, n: Need, r: nat)
    requires n.align in {1, 2}
  {
    r % n.align == 0 && r + n.count <= REGISTERS && forall s {:trigger s in used} :: r <= s < r + n.count ==> s !in used
  }

  /** The lowest place from r on, or REGISTERS. */
  function FirstFit(used: set<nat>, n: Need, r: nat): (f: nat)
    requires Sensible(n) && r % n.align == 0
    ensures forall q: nat {:trigger Suits(used, n, q)} :: r <= q < f ==> !Suits(used, n, q)
    ensures f == REGISTERS || (r <= f && Suits(used, n, f))
    decreases REGISTERS - r
  {
    if r + n.count > REGISTERS then REGISTERS
    else if Suits(used, n, r) then r
    else
      var f := FirstFit(used, n, r + n.align);
      assert n.align == 2 ==> !Suits(used, n, r + 1);
      f
  }

  predicate InRun(r: Run, s: nat) {
    r.start <= s < r.start + r.count
  }

  function Taken(r: Run): set<nat> {
    set s: nat | s < r.start + r.count && InRun(r, s)
  }

  function AllTaken(rs: seq<Run>): set<nat> {
    if |rs| == 0 then {} else AllTaken(rs[..|rs| - 1]) + Taken(rs[|rs| - 1])
  }

  /** The runs that the arguments get, in order; arguments that do not fit get none. */
  function Placed(ns: seq<Need>): seq<Run>
    requires forall n :: n in ns ==> Sensible(n)
  {
    if |ns| == 0 then []
    else
      var rs, n := Placed(ns[..|ns| - 1]), ns[|ns| - 1];
      var f := FirstFit(AllTaken(rs), n, 0);
      if f == REGISTERS then rs else rs + [Run(f, n.count)]
  }

  predicate Within(r: Run) {
    0 < r.count && r.start + r.count <= REGISTERS
  }

  predicate Apart(r: Run, q: Run) {
    r.start + r.count <= q.start || q.start + q.count <= r.start
  }

  lemma {:induction false} TakenIs(rs: seq<Run>, x: nat)
    ensures x in AllTaken(rs) <==> exists i :: 0 <= i < |rs| && x in Taken(rs[i])
  {
    if |rs| > 0 {
      TakenIs(rs[..|rs| - 1], x);
    }
  }

  /** The runs are in the sixteen registers, and no two share a register. */
  lemma {:induction false} PlacedApart(ns: seq<Need>)
    requires forall n :: n in ns ==> Sensible(n)
    ensures var rs := Placed(ns);
            && |rs| <= |ns| && (forall i :: 0 <= i < |rs| ==> Within(rs[i]))
            && (forall i, j {:trigger rs[i], rs[j]} :: 0 <= i < j < |rs| ==> Apart(rs[i], rs[j]))
  {
    if |ns| > 0 {
      var rs, n := Placed(ns[..|ns| - 1]), ns[|ns| - 1];
      PlacedApart(ns[..|ns| - 1]);
      var f := FirstFit(AllTaken(rs), n, 0);
      if f != REGISTERS {
        forall i | 0 <= i < |rs|
          ensures Apart(rs[i], Run(f, n.count))
        {
          TakenIs(rs, f);
          TakenIs(rs, rs[i].start);
          assert rs[i].start in Taken(rs[i]);
          if f in Taken(rs[i]) { assert false; }
        }
      }
    }
  }

  ghost predicate NoPlace(used: set<nat>, n: Need)
    requires Sensible(n)
  {
    forall r: nat {:trigger Suits(used, n, r)} :: !Suits(used, n, r)
  }

  ghost predicate Lowest(used: set<nat>, n: Need, r: nat)
    requires Sensible(n)
  {
    Suits(used, n, r) && forall q: nat {:trigger Suits(used, n, q)} :: q < r ==> !Suits(used, n, q)
  }

  /** Every argument gets the lowest place that is free at that moment, also below places taken
      before, or none when there is no place. */
  lemma Backfills(ns: seq<Need>, n: Need)
    requires (forall m :: m in ns ==> Sensible(m)) && Sensible(n)
    ensures forall m :: m in ns + [n] ==> Sensible(m)
    ensures var rs := Placed(ns);
            if NoPlace(AllTaken(rs), n) then Placed(ns + [n]) == rs
            else exists r: nat :: Lowest(AllTaken(rs), n, r) && Placed(ns + [n]) == rs + [Run(r, n.count)]
  {
    assert (ns + [n])[..|ns|] == ns;
    var rs := Placed(ns);
    var f := FirstFit(AllTaken(rs), n, 0);
    assert Placed(ns + [n]) == if f == REGISTERS then rs else rs + [Run(f, n.count)];
    if f == REGISTERS {
      forall r: nat
        ensures !Suits(AllTaken(rs), n, r)
      {
      }
    } else {
      assert Lowest(AllTaken(rs), n, f);
    }
  }

  lemma ApartMeans(rs: seq<Run>, r: Run)
    requires Within(r) && forall i :: 0 <= i < |rs| ==> Within(rs[i]) && Apart(rs[i], r)
    ensures r.start !in AllTaken(rs)
  {
    TakenIs(rs, r.start);
  }

  lemma {:induction false} RunsFit(rs: seq<Run>)
    requires forall i :: 0 <= i < |rs| ==> Within(rs[i])
    requires forall i, j {:trigger rs[i], rs[j]} :: 0 <= i < j < |rs| ==> Apart(rs[i], rs[j])
    ensures |rs| <= |AllTaken(rs)| && forall x :: x in AllTaken(rs) ==> x < REGISTERS
  {
    if |rs| > 0 {
      var front, r := rs[..|rs| - 1], rs[|rs| - 1];
      RunsFit(front);
      ApartMeans(front, r);
      assert r.start in Taken(r);
      assert AllTaken(front) + {r.start} <= AllTaken(rs);
      SubsetSmaller(AllTaken(front) + {r.start}, AllTaken(rs));
    }
  }

  lemma {:induction false} SubsetSmaller(a: set<nat>, b: set<nat>)
    requires a <= b
    ensures |a| <= |b|
  {
    if x :| x in a {
      SubsetSmaller(a - {x}, b - {x});
    }
  }

  lemma {:induction false} BoundedSet(a: set<nat>, n: nat)
    requires forall x :: x in a ==> x < n
    ensures |a| <= n
  {
    if n > 0 {
      BoundedSet(a - {n - 1}, n - 1);
    } else if x :| x in a {
      assert false;
    }
  }

  /** There are never more entries than vfp_args has places for. */
  lemma AtMostSixteen(ns: seq<Need>)
    requires forall n :: n in ns ==> Sensible(n)
    ensures |Placed(ns)| <= REGISTERS
  {
    PlacedApart(ns);
    RunsFit(Placed(ns));
    BoundedSet(AllTaken(Placed(ns)), REGISTERS);
  }

  // ---------- the cif ----------

  /** Register f is the lowest one that is not used. */
  predicate LeastFree(used: set<nat>, f: nat) {
    f <= REGISTERS && f !in used && forall q: nat {:trigger q in used} :: q < f ==> q in used
  }

  function NeedFor(k: Kind, n: nat): Need {
    if k == Float then Need(n, 1) else Need(2 * n, 2)
  }

  /** A candidate needs registers for exactly its bytes, from an even one on if it holds doubles: one
      register has the size of a float, and eight doubles fill all of them. */
  lemma NeedsLayout(v: VType, k: Kind)
    requires Honest(v) && Homogeneous(v, k)
    ensures var n := NeedFor(k, |Kinds(v)|);
            && n.count * KindSize(Float) == Size(Shape(v)) && n.align * KindSize(Float) == Alignment(Shape(v))
            && REGISTERS * KindSize(Float) == 8 * KindSize(Double)
  {
    hide Size, Alignment, Shape, Kinds, Honest;
    HomogeneousSize(v, k);
  }

  /** What the candidates among the arguments need. */
  function Wanted(vs: seq<VType>): seq<Need> {
    if |vs| == 0 then []
    else
      var v := vs[|vs| - 1];
      Wanted(vs[..|vs| - 1]) +
      if Homogeneous(v, Float) then [NeedFor(Float, |Kinds(v)|)] else if Homogeneous(v, Double) then [NeedFor(Double, |Kinds(v)|)] else []
  }

  /** Nothing suits below the lowest free register, nor at it when the alignment is wrong. */
  lemma NoneBelow(used: set<nat>, f: nat, n: Need)
    requires Sensible(n) && LeastFree(used, f)
    ensures forall q: nat {:trigger Suits(used, n, q)} :: q < f || (q == f && f % n.align != 0) ==> !Suits(used, n, q)
  {
    forall q: nat | q < f
      ensures !Suits(used, n, q)
    {
      assert q in used;
    }
  }

  /** What the scan of one place decides; between two places to be scanned there is none. */
  lemma ScanMeans(used: set<nat>, n: Need, r: nat)
    requires Sensible(n) && r % n.align == 0 && r + n.count <= REGISTERS
    ensures Suits(used, n, r) <==> forall s {:trigger s in used} :: r <= s < r + n.count ==> s !in used
    ensures n.align == 2 ==> !Suits(used, n, r + 1)
  {
  }

  lemma NoneFrom(used: set<nat>, n: Need, r: nat)
    requires Sensible(n) && r + n.count > REGISTERS && forall q: nat {:trigger Suits(used, n, q)} :: q < r ==> !Suits(used, n, q)
    ensures NoPlace(used, n)
  {
  }

  /** The fields that libffi adds to a cif on ARM. vfp_used is the set of the bits that are set. */
  class Cif {
    var vfp_used: set<nat>
    var vfp_reg_free: nat
    var vfp_nargs: nat
    var vfp_args: array<int>

    /** The cif is what placing these needs, one after the other, has to give. */
    ghost predicate Holds(ns: seq<Need>)
      reads this, vfp_args
      requires forall n :: n in ns ==> Sensible(n)
    {
      var rs := Placed(ns);
      && vfp_used == AllTaken(rs) && LeastFree(vfp_used, vfp_reg_free)
      && vfp_args.Length == 16 && vfp_nargs == |rs| <= 16
      && (forall i :: 0 <= i < |rs| ==> vfp_args[i] == rs[i].start)
      && (forall i :: |rs| <= i < 16 ==> vfp_args[i] == -1)
    }

    constructor ()
      ensures Holds([]) && fresh(vfp_args)
    {
      vfp_used, vfp_reg_free, vfp_nargs := {}, 0, 0;
      vfp_args := new int[16](_ => -1);
    }

    /** place_vfp_arg, for a type of the given size. */
    method PlaceVfpArg(size: nat, float: bool, ghost ns: seq<Need>)
      requires (forall n :: n in ns ==> Sensible(n)) && Holds(ns) && size >= 4
      modifies this`vfp_used, this`vfp_reg_free, this`vfp_nargs, vfp_args
      ensures vfp_args == old(vfp_args)
      ensures var n := Need(size / 4, if float then 1 else 2); (forall m :: m in ns + [n] ==> Sensible(m)) && Holds(ns + [n])
    {
      hide Placed, AllTaken, Suits;
      var nregs := size / 4;
      var align := if float then 1 else 2;
      ghost var n := Need(nregs, align);
      Backfills(ns, n);
      AtMostSixteen(ns + [n]);
      var found, reg, newUsed := FindPlace(nregs, align);
      if found {
        Settle(reg, nregs, newUsed, ns, n);
      }
    }

    /** The outer loop of place_vfp_arg: the lowest place, if there is any. */
    method FindPlace(nregs: nat, align: nat) returns (found: bool, reg: nat, newUsed: set<nat>)
      requires Sensible(Need(nregs, align)) && LeastFree(vfp_used, vfp_reg_free)
      ensures found ==> Lowest(vfp_used, Need(nregs, align), reg) && reg >= vfp_reg_free && newUsed == Taken(Run(reg, nregs))
      ensures !found ==> NoPlace(vfp_used, Need(nregs, align))
    {
      hide Suits, Taken;
      ghost var n := Need(nregs, align);
      NoneBelow(vfp_used, vfp_reg_free, n);
      reg := vfp_reg_free;
      if reg % 2 == 1 && align == 2 {
        reg := reg + 1;
      }
      while reg + nregs <= 16
        invariant reg % align == 0 && reg >= vfp_reg_free
        invariant forall q: nat {:trigger Suits(vfp_used, n, q)} :: q < reg ==> !Suits(vfp_used, n, q)
      {
        found, newUsed := Scan(reg, nregs);
        ScanMeans(vfp_used, n, reg);
        if found {
          return;
        }
        reg := reg + align;
      }
      found, newUsed := false, {};
      NoneFrom(vfp_used, n, reg);
    }

    /** The loop over the registers of one place. */
    method Scan(reg: nat, nregs: nat) returns (clear: bool, newUsed: set<nat>)
      ensures clear <==> forall s {:trigger s in vfp_used} :: reg <= s < reg + nregs ==> s !in vfp_used
      ensures clear ==> newUsed == Taken(Run(reg, nregs))
    {
      newUsed := {};
      for s := reg to reg + nregs
        invariant newUsed == Taken(Run(reg, s - reg))
        invariant forall q {:trigger q in vfp_used} :: reg <= q < s ==> q !in vfp_used
      {
        newUsed := newUsed + {s};
        if s in vfp_used {
          return false, newUsed;
        }
      }
      clear := true;
    }

    /** Record the place that has been found. */
    method Settle(place: nat, nregs: nat, newUsed: set<nat>, ghost ns: seq<Need>, ghost n: Need)
      requires (forall m :: m in ns + [n] ==> Sensible(m)) && (forall m :: m in ns ==> Sensible(m)) && Sensible(n) && Holds(ns)
      requires n.count == nregs && newUsed == Taken(Run(place, nregs)) && Lowest(vfp_used, n, place)
      requires place >= vfp_reg_free && |Placed(ns + [n])| <= 16
      modifies this`vfp_used, this`vfp_reg_free, this`vfp_nargs, vfp_args
      ensures Holds(ns + [n]) && vfp_args == old(vfp_args)
    {
      hide Placed, FirstFit, Suits, AllTaken, Taken;
      PlacedOne(ns, n, place);
      AllBelow(ns + [n]);
      RunTaken(place, nregs);
      vfp_used := vfp_used + newUsed;
      vfp_args[vfp_nargs] := place;
      vfp_nargs := vfp_nargs + 1;
      if vfp_reg_free in vfp_used {
        var reg := place + nregs;
        while reg in vfp_used
          invariant reg <= 16 && forall q: nat {:trigger q in vfp_used} :: q < reg ==> q in vfp_used
          decreases 16 - reg
        {
          reg := reg + 1;
        }
        vfp_reg_free := reg;
      }
    }
  }

  lemma RunTaken(place: nat, n: nat)
    ensures forall q: nat {:trigger q in Taken(Run(place, n))} :: q in Taken(Run(place, n)) <==> place <= q < place + n
  {
  }

  lemma LowestIsFirst(used: set<nat>, n: Need, place: nat)
    requires Sensible(n) && Lowest(used, n, place)
    ensures FirstFit(used, n, 0) == place && place + n.count <= REGISTERS && place < REGISTERS
  {
    assert Suits(used, n, place);
    var f := FirstFit(used, n, 0);
  }

  lemma PlacedOne(ns: seq<Need>, n: Need, place: nat)
    requires (forall m :: m in ns + [n] ==> Sensible(m)) && (forall m :: m in ns ==> Sensible(m)) && Sensible(n)
    requires Lowest(AllTaken(Placed(ns)), n, place)
    ensures Placed(ns + [n]) == Placed(ns) + [Run(place, n.count)]
    ensures AllTaken(Placed(ns + [n])) == AllTaken(Placed(ns)) + Taken(Run(place, n.count))
    ensures place + n.count <= 16
  {
    var rs := Placed(ns);
    assert (ns + [n])[..|ns|] == ns;
    LowestIsFirst(AllTaken(rs), n, place);
    hide FirstFit, Suits, Taken;
    assert (rs + [Run(place, n.count)])[..|rs|] == rs;
  }

  lemma AllBelow(ns: seq<Need>)
    requires forall n :: n in ns ==> Sensible(n)
    ensures forall x :: x in AllTaken(Placed(ns)) ==> x < REGISTERS
  {
    PlacedApart(ns);
    RunsFit(Placed(ns));
  }

  /** The type code says that floats are in the registers, not doubles. */
  predicate IsFloat(v: VType) {
    match v
    case Leaf(k) => k == Float
    case Group(code, _) => code == AsFloat || code == VfpFloat
  }

  /** After the type has got its code, size and code say what the candidate needs. */
  lemma CandidateNeed(v: VType, v': VType, k: Kind)
    requires Honest(v') && Homogeneous(v, k) && Homogeneous(v', k) && Kinds(v') == Kinds(v) && (v'.Group? ==> v'.code != PlainStruct)
    ensures Size(Shape(v')) >= 4 && Need(Size(Shape(v')) / 4, if IsFloat(v') then 1 else 2) == NeedFor(k, |Kinds(v)|)
    ensures Homogeneous(v, Float) <==> k == Float
    ensures Homogeneous(v, Double) <==> k == Double
  {
    hide Size, Alignment, Kinds, Shape, Homogeneous;
    HomogeneousShape(v', k);
    HomogeneousShape(v, k);
    HomogeneousSize(v', k);
    if v'.Group? {
      var l :| Homogeneous(v', l) && v'.code == CodeOf(l, |Kinds(v')|);
      HomogeneousSame(v', k, l);
    } else {
      LeafCandidate(v'.kind);
    }
    if Homogeneous(v, Float) { HomogeneousSame(v, Float, k); }
    if Homogeneous(v, Double) { HomogeneousSame(v, Double, k); }
  }

  /** layout_vfp_args: the registers of all candidates among the arguments. */
  method LayoutVfpArgs(types: seq<VType>) returns (cif: Cif, types': seq<VType>)
    requires forall v :: v in types ==> Honest(v)
    ensures (forall n :: n in Wanted(types) ==> Sensible(n)) && cif.Holds(Wanted(types))
    ensures |types'| == |types| && forall i :: 0 <= i < |types| ==> Honest(types'[i]) && Shape(types'[i]) == Shape(types[i])
  {
    hide Honest, Shape, Wanted, Placed;
    WantedNone();
    cif := new Cif();
    types' := [];
    for i := 0 to |types|
      invariant |types'| == i && forall k :: 0 <= k < i ==> Honest(types'[k]) && Shape(types'[k]) == Shape(types[k])
      invariant (forall n :: n in Wanted(types[..i]) ==> Sensible(n)) && cif.Holds(Wanted(types[..i])) && fresh(cif) && fresh(cif.vfp_args)
    {
      assert types[..i + 1] == types[..i] + [types[i]];
      assert types[i] in types;
      var t := LayoutOne(cif, types[i], types[..i]);
      types' := types' + [t];
    }
    assert types[..|types|] == types;
  }

  lemma WantedNone()
    ensures Wanted([]) == []
  {
  }

  lemma WantedOne(vs: seq<VType>, v: VType)
    ensures Wanted(vs + [v]) == Wanted(vs) +
      if Homogeneous(v, Float) then [NeedFor(Float, |Kinds(v)|)] else if Homogeneous(v, Double) then [NeedFor(Double, |Kinds(v)|)] else []
  {
    assert (vs + [v])[..|vs|] == vs;
  }

  /** The body of the loop of layout_vfp_args. */
  method LayoutOne(cif: Cif, v: VType, ghost vs: seq<VType>) returns (v': VType)
    requires Honest(v) && (forall n :: n in Wanted(vs) ==> Sensible(n)) && cif.Holds(Wanted(vs))
    modifies cif, cif.vfp_args
    ensures Honest(v') && Shape(v') == Shape(v) && cif.vfp_args == old(cif.vfp_args)
    ensures (forall n :: n in Wanted(vs + [v]) ==> Sensible(n)) && cif.Holds(Wanted(vs + [v]))
  {
    hide Honest, Shape, Wanted, Placed, Homogeneous, Kinds, Size;
    WantedOne(vs, v);
    var ok;
    ok, v' := VfpTypeP(v);
    if ok {
      ghost var k :| Homogeneous(v, k);
      CandidateNeed(v, v', k);
      HomogeneousShape(v, k);
      cif.PlaceVfpArg(Size(Shape(v')), IsFloat(v'), Wanted(vs));
    } else {
      assert !Homogeneous(v, Float) && !Homogeneous(v, Double);
      assert Wanted(vs + [v]) == Wanted(vs);
    }
  }
}
