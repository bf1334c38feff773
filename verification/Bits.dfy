/** Bytes, bit fields and positional numerals: the arithmetic under the bit packing of
    compress/zopen.cc. Cat(lo, s, hi) puts hi above the low s bits; every law below is about it. */
module Bits {

  type byte = x: int | 0 <= x < 256

  function Pow2(n: nat): (p: nat)
    ensures p > 0
  {
    if n == 0 then 1 else 2 * Pow2(n - 1)
  }

  lemma {:induction false} Pow2Mono(a: nat, b: nat)
    requires a <= b
    ensures Pow2(a) <= Pow2(b)
  {
    if a < b {
      Pow2Mono(a, b - 1);
    }
  }

  lemma SmallPowers()
    ensures Pow2(0) == 1 && Pow2(8) == 256 && Pow2(9) == 512 && Pow2(10) == 1024 && Pow2(16) == 65536
  {
  }

  lemma PowEight(n: nat)
    ensures Pow2(n + 8) == 256 * Pow2(n)
  {
    assert Pow2(n + 2) == 4 * Pow2(n);
    assert Pow2(n + 4) == 16 * Pow2(n);
    assert Pow2(n + 6) == 64 * Pow2(n);
  }

  // ----- bit fields -----

  /** x << k */
  function Shl(x: nat, k: nat): (y: nat)
    ensures y >= x
  {
    if k == 0 then x else 2 * Shl(x, k - 1)
  }

  /** lo + (hi << s) */
  function Cat(lo: nat, s: nat, hi: nat): nat {
    lo + Shl(hi, s)
  }

  /** x >> k */
  function Shr(x: nat, k: nat): (r: nat)
    ensures r <= x
    decreases k, x
  {
    if k == 0 then x else Shr(x / 2, k - 1)
  }

  /** x & (2^k - 1) */
  function Low(x: nat, k: nat): (l: nat)
    ensures l <= x && l < Pow2(k)
    decreases k, x
  {
    if k == 0 then 0 else x % 2 + 2 * Low(x / 2, k - 1)
  }

  lemma {:induction false} ShlZero(k: nat)
    ensures Shl(0, k) == 0
  {
    if k > 0 {
      ShlZero(k - 1);
    }
  }

  lemma {:induction false} ShlAdd(a: nat, b: nat, k: nat)
    ensures Shl(a + b, k) == Shl(a, k) + Shl(b, k)
  {
    if k > 0 {
      ShlAdd(a, b, k - 1);
    }
  }

  lemma {:induction false} ShlShl(x: nat, s: nat, t: nat)
    ensures Shl(Shl(x, t), s) == Shl(x, s + t)
  {
    if s > 0 {
      ShlShl(x, s - 1, t);
      assert s - 1 + t == s + t - 1;
    }
  }

  lemma CatEight(lo: nat, hi: nat)
    ensures Cat(lo, 8, hi) == lo + 256 * hi
  {
    ShlFour(hi);
    ShlFour(16 * hi);
    ShlShl(hi, 4, 4);
  }

  lemma ShlFour(x: nat)
    ensures Shl(x, 4) == 16 * x
  {
    var one, two, three := 1, 2, 3;
    assert Shl(x, one) == 2 * Shl(x, one - 1);
    assert Shl(x, two) == 2 * Shl(x, one);
    assert Shl(x, three) == 2 * Shl(x, two);
    assert Shl(x, three + 1) == 2 * Shl(x, three);
  }

  lemma CatAssoc(a: nat, s: nat, b: nat, t: nat, c: nat)
    ensures Cat(a, s, Cat(b, t, c)) == Cat(Cat(a, s, b), s + t, c)
  {
    ShlAdd(b, Shl(c, t), s);
    ShlShl(c, s, t);
  }

  lemma {:induction false} CatBound(lo: nat, s: nat, hi: nat, t: nat)
    requires lo < Pow2(s) && hi < Pow2(t)
    ensures Cat(lo, s, hi) < Pow2(s + t)
    decreases s
  {
    if s > 0 {
      CatBound(lo / 2, s - 1, hi, t);
      assert s - 1 + t == s + t - 1;
    }
  }

  lemma {:induction false} CatSplit(x: nat, k: nat)
    ensures x == Cat(Low(x, k), k, Shr(x, k))
    decreases k
  {
    if k > 0 {
      CatSplit(x / 2, k - 1);
    }
  }

  /** The two halves of a Cat come back. */
  lemma {:induction false} CatFields(lo: nat, s: nat, hi: nat)
    requires lo < Pow2(s)
    ensures Low(Cat(lo, s, hi), s) == lo && Shr(Cat(lo, s, hi), s) == hi
    decreases s
  {
    if s > 0 {
      CatFields(lo / 2, s - 1, hi);
    }
  }

  lemma {:induction false} ShrShr(x: nat, a: nat, b: nat)
    ensures Shr(x, a + b) == Shr(Shr(x, a), b)
    decreases a
  {
    if a > 0 {
      ShrShr(x / 2, a - 1, b);
    }
  }

  /** Truncating above the seam truncates the high part only. */
  lemma {:induction false} LowCat(lo: nat, s: nat, hi: nat, t: nat)
    requires lo < Pow2(s)
    ensures Low(Cat(lo, s, hi), s + t) == Cat(lo, s, Low(hi, t))
    decreases s
  {
    if s > 0 {
      LowCat(lo / 2, s - 1, hi, t);
      var z := Cat(lo / 2, s - 1, hi);
      assert Cat(lo, s, hi) == lo % 2 + 2 * z;
      assert (lo % 2 + 2 * z) / 2 == z && (lo % 2 + 2 * z) % 2 == lo % 2;
      assert s - 1 + t == s + t - 1;
    }
  }

  /** Cutting at k bits inside the low part does not see the high part. */
  lemma CatCut(x: nat, k: nat, t: nat, hi: nat)
    ensures Low(Cat(x, k + t, hi), k) == Low(x, k)
    ensures Shr(Cat(x, k + t, hi), k) == Cat(Shr(x, k), t, hi)
  {
    CatSplit(x, k);
    CatAssoc(Low(x, k), k, Shr(x, k), t, hi);
    CatFields(Low(x, k), k, Cat(Shr(x, k), t, hi));
  }

  lemma {:induction false} ShrBelow(x: nat, a: nat, b: nat)
    requires x < Pow2(a + b)
    ensures Shr(x, a) < Pow2(b)
    decreases a
  {
    if a > 0 {
      ShrBelow(x / 2, a - 1, b);
    }
  }

  lemma LowFits(x: nat, k: nat)
    requires x < Pow2(k)
    ensures Low(x, k) == x
  {
    CatFields(x, k, 0);
    ShlZero(k);
  }

  // ----- numerals -----

  /** The number whose base-256 digits, least significant first, are s. */
  function LE(s: seq<byte>): nat {
    if s == [] then 0 else s[0] as int + 256 * LE(s[1..])
  }

  /** The number whose base-2^n digits, least significant first, are codes. */
  function Val(codes: seq<nat>, n: nat): nat {
    if codes == [] then 0 else Cat(codes[0], n, Val(codes[1..], n))
  }

  ghost predicate CodesFit(codes: seq<nat>, n: nat) {
    forall i :: 0 <= i < |codes| ==> codes[i] < Pow2(n)
  }

  /** n * k, as iterated addition: the bit offset of the k-th n-bit code. */
  function Offset(n: nat, k: nat): (o: nat)
    ensures o == n * k
  {
    if k == 0 then 0 else n + Offset(n, k - 1)
  }

  lemma LECons(b: byte, s: seq<byte>)
    ensures LE([b] + s) == b as int + 256 * LE(s)
  {
    assert ([b] + s)[1..] == s;
  }

  lemma LESplitStep(b: nat, x: nat, k: nat, y: nat)
    ensures b + 256 * Cat(x, 8 * k, y) == Cat(b + 256 * x, 8 * (k + 1), y)
  {
    CatEight(b, Cat(x, 8 * k, y));
    CatEight(b, x);
    CatAssoc(b, 8, x, 8 * k, y);
  }

  lemma {:induction false} LESplit(s: seq<byte>, k: nat)
    requires k <= |s|
    ensures LE(s) == Cat(LE(s[..k]), 8 * k, LE(s[k..]))
  {
    if k == 0 {
      assert s[..0] == [] && s[0..] == s;
    } else {
      LESplit(s[1..], k - 1);
      assert s[1..][..k - 1] == s[..k][1..];
      assert s[1..][k - 1..] == s[k..];
      LESplitStep(s[0], LE(s[1..k]), k - 1, LE(s[k..]));
    }
  }

  lemma {:induction false} LEBound(s: seq<byte>)
    ensures LE(s) < Pow2(8 * |s|)
  {
    if s != [] {
      LEBound(s[1..]);
      PowEight(8 * (|s| - 1));
    }
  }

  lemma {:induction false} ValBound(codes: seq<nat>, n: nat)
    requires CodesFit(codes, n)
    ensures Val(codes, n) < Pow2(Offset(n, |codes|))
  {
    if codes != [] {
      ValBound(codes[1..], n);
      CatBound(codes[0], n, Val(codes[1..], n), Offset(n, |codes| - 1));
    }
  }

  lemma {:induction false} ValSnoc(codes: seq<nat>, n: nat, c: nat)
    ensures Val(codes + [c], n) == Cat(Val(codes, n), Offset(n, |codes|), c)
  {
    if codes == [] {
      assert [] + [c] == [c] && [c][1..] == [];
      ShlZero(n);
    } else {
      ValSnoc(codes[1..], n, c);
      assert (codes + [c])[1..] == codes[1..] + [c];
      CatAssoc(codes[0], n, Val(codes[1..], n), Offset(n, |codes| - 1), c);
    }
  }

  /** Reading back: the i-th n-bit field of any number whose low fields spell codes is codes[i]. */
  lemma {:induction false} FieldAt(codes: seq<nat>, n: nat, junk: nat, i: nat)
    requires CodesFit(codes, n) && i < |codes|
    ensures Low(Shr(Cat(Val(codes, n), Offset(n, |codes|), junk), Offset(n, i)), n) == codes[i]
  {
    var tail := Cat(Val(codes[1..], n), Offset(n, |codes| - 1), junk);
    CatAssoc(codes[0], n, Val(codes[1..], n), Offset(n, |codes| - 1), junk);
    CatFields(codes[0], n, tail);
    if i > 0 {
      FieldAt(codes[1..], n, junk, i - 1);
      ShrShr(Cat(codes[0], n, tail), n, Offset(n, i - 1));
    }
  }
}
