/** Polynomials over GF(2), as the sets of the exponents that have coefficient 1, and division by
    the generator of the checksum of the cksum utility. */
module Gf2 {

  type Poly = iset<int>

  const ZERO: Poly := iset{}

  /** x^32 */
  const X32: Poly := iset{32}

  /** The generator (IEEE Std 1003.1, Shell and Utilities, cksum). */
  const GEN: Poly := iset{32, 26, 23, 22, 16, 12, 11, 10, 8, 7, 5, 4, 2, 1, 0}

  ghost function Sum(p: Poly, q: Poly): Poly {
    iset i | i in p + q && !(i in p && i in q)
  }

  function Prev(i: int): int { i - 1 }

  /** x * p */
  ghost function TimesX(p: Poly): Poly {
    iset i: int | Prev(i) in p
  }

  /** p times the polynomial with the coefficients q, the highest power first. */
  ghost function Times(q: seq<bool>, p: Poly): Poly {
    if q == [] then ZERO else Sum(TimesX(Times(q[..|q| - 1], p)), if q[|q| - 1] then p else ZERO)
  }

  /** Degree below n. */
  ghost predicate Below(p: Poly, n: int) {
    forall i <- p :: 0 <= i < n
  }

  /** One step of long division: bring down a bit, subtract the generator if it goes in. */
  ghost function Divide(r: Poly, b: bool): Poly {
    var p := Sum(TimesX(r), if b then X32 else ZERO);
    if 32 in p then Sum(p, GEN) else p
  }

  ghost function DivideAll(r: Poly, m: seq<bool>): Poly
    decreases |m|
  {
    if m == [] then r else DivideAll(Divide(r, m[0]), m[1..])
  }

  lemma {:induction false} DivideConcat(r: Poly, a: seq<bool>, b: seq<bool>)
    ensures DivideAll(r, a + b) == DivideAll(DivideAll(r, a), b)
    decreases |a|
  {
    if a == [] {
      assert a + b == b;
    } else {
      assert (a + b)[1..] == a[1..] + b;
      DivideConcat(Divide(r, a[0]), a[1..], b);
    }
  }

  lemma DivideSnoc(r: Poly, m: seq<bool>, b: bool)
    ensures DivideAll(r, m + [b]) == Divide(DivideAll(r, m), b)
  {
    DivideConcat(r, m, [b]);
    assert [b][1..] == [];
  }

  lemma DivideBelow(r: Poly, b: bool)
    requires Below(r, 32)
    ensures Below(Divide(r, b), 32)
  {
  }

  lemma {:induction false} DivideAllBelow(r: Poly, m: seq<bool>)
    requires Below(r, 32)
    ensures Below(DivideAll(r, m), 32)
    decreases |m|
  {
    if m != [] {
      DivideBelow(r, m[0]);
      DivideAllBelow(Divide(r, m[0]), m[1..]);
    }
  }

  // ----- the division computes the remainder -----

  /** m * x^32 == q * GEN + r with r of degree below 32, q given by as many coefficients as m. */
  ghost predicate Division(m: seq<bool>, q: seq<bool>, r: Poly) {
    Below(r, 32) && |q| == |m| && Times(m, X32) == Sum(Times(q, GEN), r)
  }

  ghost predicate IsRemainder(m: seq<bool>, r: Poly) {
    exists q :: Division(m, q, r)
  }

  lemma TimesSnoc(q: seq<bool>, b: bool, p: Poly)
    ensures Times(q + [b], p) == Sum(TimesX(Times(q, p)), if b then p else ZERO)
  {
    assert (q + [b])[..|q|] == q;
  }

  /** Whether the generator goes in. */
  ghost predicate GoesIn(r: Poly, b: bool) {
    32 in Sum(TimesX(r), if b then X32 else ZERO)
  }

  lemma DivisionKept(q: Poly, r: Poly, b: bool)
    ensures Sum(TimesX(Sum(q, r)), if b then X32 else ZERO)
         == Sum(Sum(TimesX(q), if GoesIn(r, b) then GEN else ZERO), Divide(r, b))
  {
    var bit := if b then X32 else ZERO;
    assert Divide(r, b) == Sum(Sum(TimesX(r), bit), if GoesIn(r, b) then GEN else ZERO);
  }

  /** One more message bit: the quotient gets one more coefficient. */
  lemma DivisionStep(m: seq<bool>, q: seq<bool>, r: Poly, b: bool)
    requires Division(m, q, r)
    ensures Division(m + [b], q + [GoesIn(r, b)], Divide(r, b))
  {
    TimesSnoc(m, b, X32);
    TimesSnoc(q, GoesIn(r, b), GEN);
    DivideBelow(r, b);
    DivisionKept(Times(q, GEN), r, b);
  }

  /** Bit by bit division from a clear register leaves the remainder of m * x^32. */
  lemma {:induction false} DivisionRun(m: seq<bool>) returns (q: seq<bool>)
    ensures Division(m, q, DivideAll(ZERO, m))
  {
    if m == [] {
      q := [];
    } else {
      var m', b := m[..|m| - 1], m[|m| - 1];
      assert m == m' + [b];
      q := DivisionRun(m');
      DivideSnoc(ZERO, m', b);
      DivisionStep(m', q, DivideAll(ZERO, m'), b);
      q := q + [GoesIn(DivideAll(ZERO, m'), b)];
    }
  }

  /** The exponent e >= 32 tells the products apart. */
  ghost predicate Tells(e: int, q: seq<bool>, q': seq<bool>) {
    e >= 32 && e in Sum(Times(q, GEN), Times(q', GEN))
  }

  lemma ShiftTells(e: int, p: Poly, q: Poly, b: bool, b': bool)
    ensures e >= 32 && e in Sum(p, q) ==>
              e + 1 in Sum(Sum(TimesX(p), if b then GEN else ZERO), Sum(TimesX(q), if b' then GEN else ZERO))
    ensures p == q && b != b' ==>
              32 in Sum(Sum(TimesX(p), if b then GEN else ZERO), Sum(TimesX(q), if b' then GEN else ZERO))
  {
  }

  lemma TellsSnoc(e: int, q: seq<bool>, q': seq<bool>, b: bool, b': bool)
    ensures Tells(e, q, q') ==> Tells(e + 1, q + [b], q' + [b'])
    ensures q == q' && b != b' ==> Tells(32, q + [b], q' + [b'])
  {
    TimesSnoc(q, b, GEN);
    TimesSnoc(q', b', GEN);
    ShiftTells(e, Times(q, GEN), Times(q', GEN), b, b');
  }

  /** Two quotients that differ make products that differ at x^32 or above. */
  lemma {:induction false} QuotientsShow(q: seq<bool>, q': seq<bool>) returns (e: int)
    requires |q| == |q'|
    ensures q != q' ==> Tells(e, q, q')
  {
    e := 32;
    if q != [] {
      var a, b := q[..|q| - 1], q[|q| - 1];
      var a', b' := q'[..|q| - 1], q'[|q| - 1];
      assert q == a + [b] && q' == a' + [b'];
      var d := QuotientsShow(a, a');
      TellsSnoc(d, a, a', b, b');
      e := if a != a' then d + 1 else 32;
    }
  }

  lemma NothingTells(e: int, q: seq<bool>, q': seq<bool>, r: Poly, r': Poly)
    requires Below(r, 32) && Below(r', 32) && Sum(Times(q, GEN), r) == Sum(Times(q', GEN), r')
    ensures !Tells(e, q, q')
  {
    assert e in Sum(Times(q, GEN), r) <==> e in Sum(Times(q', GEN), r');
  }

  /** There is only one remainder. */
  lemma RemainderUnique(m: seq<bool>, r: Poly, r': Poly)
    requires IsRemainder(m, r) && IsRemainder(m, r')
    ensures r == r'
  {
    var q :| Division(m, q, r);
    var q' :| Division(m, q', r');
    var e := QuotientsShow(q, q');
    NothingTells(e, q, q', r, r');
    forall i ensures i in r <==> i in r' {
      assert i in Sum(Times(q, GEN), r) <==> i in Sum(Times(q', GEN), r');
    }
  }

  /** A polynomial is the remainder of a message exactly when division leaves it. */
  lemma RemainderIsDivision(m: seq<bool>, r: Poly)
    ensures IsRemainder(m, r) <==> r == DivideAll(ZERO, m)
  {
    var q := DivisionRun(m);
    assert IsRemainder(m, DivideAll(ZERO, m));
    if IsRemainder(m, r) {
      RemainderUnique(m, r, DivideAll(ZERO, m));
    }
  }

  // ----- division is linear -----

  function Xor(a: seq<bool>, b: seq<bool>): (c: seq<bool>)
    requires |a| == |b|
    ensures |c| == |a|
  {
    seq(|a|, k requires 0 <= k < |a| => a[k] != b[k])
  }

  lemma DivideLinear(p: Poly, q: Poly, a: bool, b: bool)
    ensures Divide(Sum(p, q), a != b) == Sum(Divide(p, a), Divide(q, b))
  {
  }

  lemma {:induction false} DivideAllLinear(p: Poly, q: Poly, a: seq<bool>, b: seq<bool>)
    requires |a| == |b|
    ensures DivideAll(Sum(p, q), Xor(a, b)) == Sum(DivideAll(p, a), DivideAll(q, b))
    decreases |a|
  {
    if a != [] {
      DivideLinear(p, q, a[0], b[0]);
      assert Xor(a, b)[1..] == Xor(a[1..], b[1..]);
      DivideAllLinear(Divide(p, a[0]), Divide(q, b[0]), a[1..], b[1..]);
    }
  }

  // ----- eight bits at once -----

  /** The top n coefficients of a register, from x^31 down. */
  ghost function Tops(r: Poly, n: nat): (m: seq<bool>)
    ensures |m| == n
  {
    seq(n, k => 31 - k in r)
  }

  function Back(i: int, n: int): int { i - n }

  /** The register shifted, what leaves it at the top dropped. */
  ghost function Shifted(r: Poly, n: nat): Poly {
    iset i: int | n <= i < 32 && Back(i, n) in r
  }

  lemma ShiftedMore(r: Poly, n: nat)
    ensures Shifted(Shifted(r, 1), n) == Shifted(r, n + 1)
  {
    forall i: int ensures i in Shifted(Shifted(r, 1), n) <==> i in Shifted(r, n + 1) {
      assert Back(Back(i, n), 1) == Back(i, n + 1);
    }
  }

  lemma TopsShifted(r: Poly, n: nat)
    requires n < 32
    ensures Tops(r, n + 1) == [31 in r] + Tops(Shifted(r, 1), n)
  {
  }

  lemma PushOne(r: Poly)
    requires Below(r, 32)
    ensures Divide(r, 31 in r) == Shifted(r, 1)
  {
  }

  lemma DivideCons(r: Poly, b: bool, m: seq<bool>)
    ensures DivideAll(r, [b] + m) == DivideAll(Divide(r, b), m)
  {
    assert ([b] + m)[1..] == m;
  }

  /** A message that repeats what is at the top of the register pushes it out. */
  lemma {:induction false} PushOut(r: Poly, n: nat)
    requires Below(r, 32) && n < 32
    ensures DivideAll(r, Tops(r, n)) == Shifted(r, n)
    decreases n
  {
    if n == 0 {
      assert Tops(r, 0) == [] && Shifted(r, 0) == r;
    } else {
      PushOut(Shifted(r, 1), n - 1);
      PushOne(r);
      TopsShifted(r, n - 1);
      DivideCons(r, 31 in r, Tops(Shifted(r, 1), n - 1));
      ShiftedMore(r, n - 1);
    }
  }

  lemma XorTwice(a: seq<bool>, b: seq<bool>)
    requires |a| == |b|
    ensures Xor(a, Xor(a, b)) == b
  {
  }

  /** n bits change a register as they would change a clear one after meeting its top n bits. */
  lemma Ahead(r: Poly, m: seq<bool>)
    requires Below(r, 32) && |m| < 32
    ensures DivideAll(r, m) == Sum(Shifted(r, |m|), DivideAll(ZERO, Xor(Tops(r, |m|), m)))
  {
    var t := Tops(r, |m|);
    PushOut(r, |m|);
    XorTwice(t, m);
    assert Sum(r, ZERO) == r;
    DivideAllLinear(r, ZERO, t, Xor(t, m));
  }

  // ----- a burst of errors -----

  /** Undoing one step: registers that agree in the low places, at least in the lowest, agreed one
      place lower before, and if they agreed wholly before, the bits were the same. */
  lemma UndoBit(p: Poly, q: Poly, a: bool, b: bool, n: int)
    requires Below(p, 32) && Below(q, 32) && 0 < n <= 32
    requires forall i :: 0 <= i < n ==> (i in Divide(p, a) <==> i in Divide(q, b))
    ensures forall i :: 0 <= i < n - 1 ==> (i in p <==> i in q)
    ensures p == q ==> a == b
  {
    assert 0 in Divide(p, a) <==> 0 in Divide(q, b);
    forall i | 0 <= i < n - 1 ensures i in p <==> i in q {
      assert i + 1 in Divide(p, a) <==> i + 1 in Divide(q, b);
    }
  }

  /** If two runs over k <= 32 bits end equal, they started equal but for the top k places. */
  lemma {:induction false} UndoBits(p: Poly, q: Poly, a: seq<bool>, b: seq<bool>)
    requires Below(p, 32) && Below(q, 32)
    requires |a| == |b| <= 32 && DivideAll(p, a) == DivideAll(q, b)
    ensures forall i :: 0 <= i < 32 - |a| ==> (i in p <==> i in q)
    decreases |a|
  {
    if a != [] {
      DivideBelow(p, a[0]);
      DivideBelow(q, b[0]);
      UndoBits(Divide(p, a[0]), Divide(q, b[0]), a[1..], b[1..]);
      UndoBit(p, q, a[0], b[0], 33 - |a|);
    }
  }

  /** No two different blocks of at most 32 bits move a register to the same place. */
  lemma {:induction false} BlockInjective(p: Poly, a: seq<bool>, b: seq<bool>)
    requires Below(p, 32)
    requires |a| == |b| <= 32 && DivideAll(p, a) == DivideAll(p, b)
    ensures a == b
    decreases |a|
  {
    if a != [] {
      DivideBelow(p, a[0]);
      DivideBelow(p, b[0]);
      UndoBits(Divide(p, a[0]), Divide(p, b[0]), a[1..], b[1..]);
      UndoBit(p, p, a[0], b[0], 33 - |a|);
      BlockInjective(Divide(p, a[0]), a[1..], b[1..]);
      assert a == [a[0]] + a[1..] && b == [b[0]] + b[1..];
    }
  }

  lemma DivideInjective(p: Poly, q: Poly, b: bool)
    requires Below(p, 32) && Below(q, 32) && Divide(p, b) == Divide(q, b)
    ensures p == q
  {
    UndoBit(p, q, b, b, 32);
    assert 31 in p <==> 31 in q by {
      assert 0 in Divide(p, b) <==> 0 in Divide(q, b);
    }
    assert forall i :: i in p <==> i in q;
  }

  /** A difference in the register is never lost. */
  lemma {:induction false} TailInjective(p: Poly, q: Poly, m: seq<bool>)
    requires Below(p, 32) && Below(q, 32) && DivideAll(p, m) == DivideAll(q, m)
    ensures p == q
    decreases |m|
  {
    if m != [] {
      DivideBelow(p, m[0]);
      DivideBelow(q, m[0]);
      TailInjective(Divide(p, m[0]), Divide(q, m[0]), m[1..]);
      DivideInjective(p, q, m[0]);
    }
  }

  /** Two bit strings that differ, and only inside the 32 places from i. */
  ghost predicate Burst(a: seq<bool>, b: seq<bool>, i: nat) {
    && |a| == |b| && a != b
    && forall k :: 0 <= k < |a| && a[k] != b[k] ==> i <= k < i + 32
  }

  lemma BurstShows(r: Poly, a: seq<bool>, b: seq<bool>, i: nat)
    requires Below(r, 32) && Burst(a, b, i)
    ensures DivideAll(r, a) != DivideAll(r, b)
  {
    var lo := if i < |a| then i else |a|;
    var hi := if i + 32 < |a| then i + 32 else |a|;
    var r' := DivideAll(r, a[..lo]);
    Cut3(a, lo, hi);
    Cut3(b, lo, hi);
    assert a[..lo] == b[..lo] && a[hi..] == b[hi..];
    DivideConcat(r, a[..lo], a[lo..hi] + a[hi..]);
    DivideConcat(r', a[lo..hi], a[hi..]);
    DivideConcat(r, b[..lo], b[lo..hi] + b[hi..]);
    DivideConcat(r', b[lo..hi], b[hi..]);
    DivideAllBelow(r, a[..lo]);
    DivideAllBelow(r', a[lo..hi]);
    DivideAllBelow(r', b[lo..hi]);
    if DivideAll(r, a) == DivideAll(r, b) {
      TailInjective(DivideAll(r', a[lo..hi]), DivideAll(r', b[lo..hi]), a[hi..]);
      BlockInjective(r', a[lo..hi], b[lo..hi]);
      assert false;
    }
  }

  lemma Cut3<T>(a: seq<T>, lo: nat, hi: nat)
    requires lo <= hi <= |a|
    ensures a == a[..lo] + (a[lo..hi] + a[hi..])
  {
  }
}
