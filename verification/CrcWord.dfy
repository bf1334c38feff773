/** Machine words as polynomials: what shifting and xor-ing a uint32_t does to the polynomial whose
    coefficients are its bits. */
module CrcWord {
  import opened Gf2
  import opened CrcTable

  function Mask(i: nat): bv32
    requires i < 32
  {
    1 << i
  }

  predicate Bit(w: bv32, i: nat)
    requires i < 32
  {
    w & Mask(i) != 0
  }

  /** The polynomial in a register. */
  ghost function Reg(w: bv32): (p: Poly)
    ensures Below(p, 32)
  {
    iset i: nat | i < 32 && Bit(w, i)
  }

  lemma OneBit(i: nat)
    requires i < 32
    ensures Mask(i) & (Mask(i) - 1) == 0
  {
  }

  lemma XorMask(a: bv32, b: bv32, m: bv32)
    requires m & (m - 1) == 0
    ensures (a ^ b) & m != 0 <==> (a & m != 0) != (b & m != 0)
  {
  }

  lemma ShlMask(w: bv32, e: bv6)
    requires e < 31
    ensures (w << 1) & (1 << (e + 1)) != 0 <==> w & (1 << e) != 0
  {
  }

  lemma NextPlace(i: nat)
    requires i < 31
    ensures (i + 1) as bv6 == i as bv6 + 1
  {
  }

  lemma ShlLow(w: bv32)
    ensures (w << 1) & 1 == 0
  {
  }

  lemma BitXor(a: bv32, b: bv32, i: nat)
    requires i < 32
    ensures Bit(a ^ b, i) <==> Bit(a, i) != Bit(b, i)
  {
    OneBit(i);
    XorMask(a, b, Mask(i));
  }

  lemma BitShlUp(w: bv32, i: nat)
    requires i < 31
    ensures Bit(w << 1, i + 1) <==> Bit(w, i)
  {
    var e := i as bv6;
    NextPlace(i);
    ShlMask(w, e);
    assert Mask(i) == 1 << e;
    assert Mask(i + 1) == 1 << (e + 1);
  }

  lemma BitShl(w: bv32, i: nat)
    requires i < 32
    ensures Bit(w << 1, i) <==> i > 0 && Bit(w, i - 1)
  {
    if i == 0 {
      ShlLow(w);
    } else {
      BitShlUp(w, i - 1);
    }
  }

  lemma RegXor(a: bv32, b: bv32)
    ensures Reg(a ^ b) == Sum(Reg(a), Reg(b))
  {
    forall i: nat | i < 32 ensures i in Reg(a ^ b) <==> i in Sum(Reg(a), Reg(b)) {
      BitXor(a, b, i);
    }
  }

  lemma RegShl(w: bv32)
    ensures Reg(w << 1) == Shifted(Reg(w), 1)
  {
    forall i: nat | i < 32 ensures i in Reg(w << 1) <==> i in Shifted(Reg(w), 1) {
      BitShl(w, i);
    }
  }

  lemma RegPoly()
    ensures Reg(POLY) == GEN - X32
  {
  }

  lemma StepCases(s: bv32)
    ensures Bit(s, 31) ==> Step(s) == (s << 1) ^ POLY
    ensures !Bit(s, 31) ==> Step(s) == s << 1
  {
  }

  /** A step of the shift register is a step of the division. */
  lemma RegStep(s: bv32)
    ensures Reg(Step(s)) == Divide(Reg(s), false)
  {
    StepCases(s);
    RegShl(s);
    RegXor(s << 1, POLY);
    RegPoly();
    StepPoly(Reg(s));
  }

  lemma StepPoly(p: Poly)
    requires Below(p, 32)
    ensures Divide(p, false) == if 31 in p then Sum(Shifted(p, 1), GEN - X32) else Shifted(p, 1)
  {
  }

  lemma HalfEven(w: bv32)
    requires w & 1 == 0 && w != 0
    ensures (w >> 1) << 1 == w && w >> 1 != 0 && w >> 1 < w && (w >> 1) & 0x80000000 == 0
  {
  }

  lemma BitBelowTop(h: bv32, i: nat)
    requires h & 0x80000000 == 0 && i < 32 && Bit(h, i)
    ensures i < 31
  {
  }

  lemma BitOfHalf(w: bv32, i: nat)
    requires w & 1 == 0 && w != 0 && i < 32 && Bit(w >> 1, i)
    ensures i < 31 && Bit(w, i + 1)
  {
    HalfEven(w);
    BitBelowTop(w >> 1, i);
    BitShlUp(w >> 1, i);
  }

  lemma HalfLess(w: bv32)
    requires w & 1 == 0 && w != 0
    ensures w >> 1 != 0 && w >> 1 < w
  {
  }

  /** A word other than 0 has a bit. */
  lemma {:induction false} SomeBit(w: bv32) returns (i: nat)
    requires w != 0
    ensures i < 32 && Bit(w, i)
    decreases w
  {
    if w & 1 != 0 {
      i := 0;
    } else {
      HalfLess(w);
      var j := SomeBit(w >> 1);
      BitOfHalf(w, j);
      i := j + 1;
    }
  }

  lemma XorSame(s: bv32, t: bv32)
    ensures s != t ==> s ^ t != 0
  {
  }

  lemma RegDiffers(s: bv32, t: bv32) returns (i: nat)
    requires s != t
    ensures i in Reg(s) <==> i !in Reg(t)
  {
    XorSame(s, t);
    i := SomeBit(s ^ t);
    BitXor(s, t, i);
  }

  /** A register is its polynomial. */
  lemma RegInjective(s: bv32, t: bv32)
    requires Reg(s) == Reg(t)
    ensures s == t
  {
    if s != t {
      var i := RegDiffers(s, t);
    }
  }
}
