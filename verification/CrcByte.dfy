/** One table step of cksum/cksum.cc takes the eight bits of a byte. */
module CrcByte {
  import opened Gf2
  import opened CrcTable
  import opened CrcWord

  /** The bits of a byte, the most significant first. */
  function ByteBits(c: bv8): (m: seq<bool>)
    ensures |m| == 8
  {
    LowBits(c as bv32)
  }

  function LowBits(w: bv32): (m: seq<bool>)
    ensures |m| == 8
  {
    seq(8, k requires 0 <= k < 8 => Bit(w, 7 - k))
  }

  /** A char as an unsigned int: sign-extended where char is signed (cksum/cksum.cc:53). */
  function Widen(c: bv8): bv32 {
    if c & 0x80 != 0 then 0xffffff00 | (c as bv32) else c as bv32
  }

  /** The table index (cksum/cksum.cc:54). */
  function Index(s: bv32, c: bv32): (i: bv32)
    ensures i < 256
  {
    ((s >> 24) ^ c) & 0xff
  }

  /** Neither the sign nor anything else above the low eight bits of c matters. */
  lemma IndexBits(s: bv32, c: bv8, e: bv6)
    requires e < 8
    ensures (Index(s, Widen(c)) << 24) & (1 << (e + 24)) != 0
       <==> (s & (1 << (e + 24)) != 0) != ((c as bv32) & (1 << e) != 0)
  {
  }

  lemma HighPlace(i: nat)
    requires i < 8
    ensures (i + 24) as bv6 == i as bv6 + 24
  {
  }

  lemma IndexBit(s: bv32, c: bv8, i: nat)
    requires i < 8
    ensures Bit(Index(s, Widen(c)) << 24, i + 24) <==> Bit(s, i + 24) != Bit(c as bv32, i)
  {
    var e := i as bv6;
    HighPlace(i);
    IndexBits(s, c, e);
    assert Mask(i) == 1 << e;
    assert Mask(i + 24) == 1 << (e + 24);
  }

  /** The index spells what meets the message: the top of the register xor the byte. */
  lemma IndexMeets(s: bv32, c: bv8)
    ensures Tops(Reg(Index(s, Widen(c)) << 24), 8) == Xor(Tops(Reg(s), 8), ByteBits(c))
  {
    forall k | 0 <= k < 8
      ensures Tops(Reg(Index(s, Widen(c)) << 24), 8)[k] == Xor(Tops(Reg(s), 8), ByteBits(c))[k]
    {
      IndexBit(s, c, 7 - k);
    }
  }

  lemma ShlEight(w: bv32, e: bv6)
    requires e < 24
    ensures (w << 8) & (1 << (e + 8)) != 0 <==> w & (1 << e) != 0
  {
  }

  lemma ShlEightLow(w: bv32, e: bv6)
    requires e < 8
    ensures (w << 8) & (1 << e) == 0
  {
  }

  lemma EightUp(i: nat)
    requires i < 24
    ensures (i + 8) as bv6 == i as bv6 + 8
  {
  }

  lemma BitShl8(w: bv32, i: nat)
    requires i < 32
    ensures Bit(w << 8, i) <==> i >= 8 && Bit(w, i - 8)
  {
    if i < 8 {
      ShlEightLow(w, i as bv6);
    } else {
      BitShl8Up(w, i - 8);
    }
  }

  lemma BitShl8Up(w: bv32, i: nat)
    requires i < 24
    ensures Bit(w << 8, i + 8) <==> Bit(w, i)
  {
    var e := i as bv6;
    EightUp(i);
    ShlEight(w, e);
    assert Mask(i) == 1 << e;
    assert Mask(i + 8) == 1 << (e + 8);
  }

  lemma RegShl8(w: bv32)
    ensures Reg(w << 8) == Shifted(Reg(w), 8)
  {
    forall i: nat | i < 32 ensures i in Reg(w << 8) <==> i in Shifted(Reg(w), 8) {
      BitShl8(w, i);
    }
  }

  ghost function Zeros(n: nat): (m: seq<bool>)
    ensures |m| == n
  {
    seq(n, k => false)
  }

  lemma RegEightSteps(s: bv32)
    ensures Reg(EightSteps(s)) == DivideAll(Reg(s), Zeros(8))
  {
    var s1 := Step(s);
    var s2 := Step(s1);
    var s3 := Step(s2);
    var s4 := Step(s3);
    var s5 := Step(s4);
    var s6 := Step(s5);
    var s7 := Step(s6);
    RegStep(s);
    RegStep(s1);
    RegStep(s2);
    RegStep(s3);
    RegStep(s4);
    RegStep(s5);
    RegStep(s6);
    RegStep(s7);
    EightZeros(Reg(s));
  }

  lemma ZerosCons(p: Poly, n: nat)
    requires n > 0
    ensures DivideAll(p, Zeros(n)) == DivideAll(Divide(p, false), Zeros(n - 1))
  {
    assert Zeros(n)[1..] == Zeros(n - 1);
  }

  lemma EightZeros(p: Poly)
    ensures DivideAll(p, Zeros(8))
         == Divide(Divide(Divide(Divide(Divide(Divide(Divide(Divide(p,
              false), false), false), false), false), false), false), false)
  {
    FourZeros(p, 4);
    FourZeros(Divide(Divide(Divide(Divide(p, false), false), false), false), 0);
  }

  lemma FourZeros(p: Poly, n: nat)
    ensures DivideAll(p, Zeros(n + 4))
         == DivideAll(Divide(Divide(Divide(Divide(p, false), false), false), false), Zeros(n))
  {
    ZerosCons(p, n + 4);
    ZerosCons(Divide(p, false), n + 3);
    ZerosCons(Divide(Divide(p, false), false), n + 2);
    ZerosCons(Divide(Divide(Divide(p, false), false), false), n + 1);
  }

  lemma TopByteOnly(i: bv32)
    requires i < 256
    ensures i << 24 << 8 == 0
  {
  }

  lemma RegZero()
    ensures Reg(0) == ZERO
  {
  }

  lemma XorZeros(m: seq<bool>)
    ensures Xor(m, Zeros(|m|)) == m
  {
  }

  lemma SumZero(p: Poly)
    ensures Sum(ZERO, p) == p
  {
  }

  /** What eight zeros make of a register with nothing below the top byte. */
  lemma ZerosAfterTop(p: Poly)
    requires Below(p, 32) && Shifted(p, 8) == ZERO
    ensures DivideAll(p, Zeros(8)) == DivideAll(ZERO, Tops(p, 8))
  {
    Ahead(p, Zeros(8));
    XorZeros(Tops(p, 8));
    SumZero(DivideAll(ZERO, Tops(p, 8)));
  }

  /** The entry for an index is what the index, as a message, makes of a clear register. */
  lemma EntryDivides(i: bv32)
    requires i < 256
    ensures Reg(CrcTab(i)) == DivideAll(ZERO, Tops(Reg(i << 24), 8))
  {
    TableIsEightSteps(i);
    RegEightSteps(i << 24);
    RegShl8(i << 24);
    TopByteOnly(i);
    RegZero();
    ZerosAfterTop(Reg(i << 24));
  }

  /** The shift and the xor of a table step, with the entry looked up. */
  function ShiftIn(s: bv32, e: bv32): bv32 {
    (s << 8) ^ e
  }

  /** One table step (cksum/cksum.cc:53-54). */
  function TakeByte(s: bv32, c: bv8): bv32 {
    ShiftIn(s, CrcTab(Index(s, Widen(c))))
  }

  lemma Meet(s: bv32, e: bv32, m: seq<bool>)
    requires |m| == 8 && Reg(e) == DivideAll(ZERO, Xor(Tops(Reg(s), 8), m))
    ensures Reg(ShiftIn(s, e)) == DivideAll(Reg(s), m)
  {
    RegShl8(s);
    RegXor(s << 8, e);
    Ahead(Reg(s), m);
  }

  /** The table entry for what meets the byte. */
  lemma EntryMeets(s: bv32, c: bv8)
    ensures Reg(CrcTab(Index(s, Widen(c)))) == DivideAll(ZERO, Xor(Tops(Reg(s), 8), ByteBits(c)))
  {
    IndexMeets(s, c);
    EntryDivides(Index(s, Widen(c)));
  }

  /** A table step divides by eight more bits. */
  lemma TableStep(s: bv32, c: bv8)
    ensures Reg(TakeByte(s, c)) == DivideAll(Reg(s), ByteBits(c))
  {
    EntryMeets(s, c);
    Meet(s, CrcTab(Index(s, Widen(c))), ByteBits(c));
  }
}
