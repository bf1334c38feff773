/** The checksum of ZIP members is the remainder of a polynomial division, with the generator that
    cksum uses: the low bit of each byte comes first, the register begins with all ones, and the
    complement is kept (the frame check sequence of ISO/IEC 3309). So it finds short bursts too. */
module ZipCrc {
  import opened Bits
  import opened Gf2
  import opened CrcWord
  import Cksum
  import CrcByte
  import Pax

  // ----- numbers as polynomials, the low bit at x^31 -----

  predicate BitOf(n: nat, k: nat)
    decreases k, n
  {
    if k == 0 then n % 2 == 1 else BitOf(n / 2, k - 1)
  }

  function Mirror(i: int): int { 31 - i }

  ghost function Low32(n: nat): (p: Poly)
    ensures Below(p, 32)
  {
    iset i: int | 0 <= i < 32 && BitOf(n, Mirror(i))
  }

  lemma {:induction false} BitXor(a: nat, b: nat, k: nat)
    ensures BitOf(Pax.Xor(a, b), k) <==> BitOf(a, k) != BitOf(b, k)
    decreases k
  {
    var x := Pax.Xor(a, b);
    assert x / 2 == Pax.Xor(a / 2, b / 2) && (x % 2 == 1 <==> a % 2 != b % 2);
    if k > 0 {
      BitXor(a / 2, b / 2, k - 1);
    }
  }

  lemma {:induction false} XorBelow(a: nat, b: nat, k: nat)
    requires a < Pow2(k) && b < Pow2(k)
    ensures Pax.Xor(a, b) < Pow2(k)
    decreases k
  {
    if k > 0 {
      XorBelow(a / 2, b / 2, k - 1);
    }
  }

  lemma {:induction false} NoBitAbove(n: nat, k: nat)
    requires n < Pow2(k)
    ensures !BitOf(n, k)
    decreases k
  {
    if k > 0 {
      NoBitAbove(n / 2, k - 1);
    }
  }

  lemma Pow32()
    ensures Pow2(32) == 0x1_0000_0000
  {
    PowEight(8);
    PowEight(16);
    PowEight(24);
    SmallPowers();
  }

  lemma XorIsSum(a: nat, b: nat)
    ensures Low32(Pax.Xor(a, b)) == Sum(Low32(a), Low32(b))
  {
    forall i: int | 0 <= i < 32 ensures i in Low32(Pax.Xor(a, b)) <==> i in Sum(Low32(a), Low32(b)) {
      BitXor(a, b, Mirror(i));
    }
  }

  lemma NextByte(n: nat, k: nat)
    ensures BitOf(n, k + 8) == BitOf(n / 256, k)
  {
    assert BitOf(n, k + 8) == BitOf(n / 2, k + 7) == BitOf(n / 4, k + 6) == BitOf(n / 8, k + 5);
    assert BitOf(n / 8, k + 5) == BitOf(n / 16, k + 4) == BitOf(n / 32, k + 3) == BitOf(n / 64, k + 2);
    assert BitOf(n / 64, k + 2) == BitOf(n / 128, k + 1) == BitOf(n / 256, k);
  }

  lemma {:induction false} LowBits(n: nat, w: nat, k: nat)
    requires k < w
    ensures BitOf(Low(n, w), k) == BitOf(n, k)
    decreases k
  {
    assert Low(n, w) % 2 == n % 2 && Low(n, w) / 2 == Low(n / 2, w - 1);
    if k > 0 {
      LowBits(n / 2, w - 1, k - 1);
    }
  }

  lemma PolyBytes()
    ensures !BitOf(0x20, 0) && !BitOf(0x20, 1) && !BitOf(0x20, 2) && !BitOf(0x20, 3)
    ensures !BitOf(0x20, 4) && BitOf(0x20, 5) && !BitOf(0x20, 6) && !BitOf(0x20, 7)
    ensures BitOf(0x83, 0) && BitOf(0x83, 1) && !BitOf(0x83, 2) && !BitOf(0x83, 3)
    ensures !BitOf(0x83, 4) && !BitOf(0x83, 5) && !BitOf(0x83, 6) && BitOf(0x83, 7)
    ensures !BitOf(0xb8, 0) && !BitOf(0xb8, 1) && !BitOf(0xb8, 2) && BitOf(0xb8, 3)
    ensures BitOf(0xb8, 4) && BitOf(0xb8, 5) && !BitOf(0xb8, 6) && BitOf(0xb8, 7)
    ensures BitOf(0xed, 0) && !BitOf(0xed, 1) && BitOf(0xed, 2) && BitOf(0xed, 3)
    ensures !BitOf(0xed, 4) && BitOf(0xed, 5) && BitOf(0xed, 6) && BitOf(0xed, 7)
  {
  }

  /** Below its eighth bit a number is its last byte. */
  lemma LastByte(hi: nat, lo: nat, k: nat)
    requires lo < 256 && k < 8
    ensures BitOf(256 * hi + lo, k) == BitOf(lo, k)
  {
    SmallPowers();
    CatEight(lo, hi);
    CatFields(lo, 8, hi);
    LowBits(256 * hi + lo, 8, k);
    LowFits(lo, 8);
    LowBits(lo, 8, k);
  }

  /** 0xedb88320 is the generator without x^32. */
  lemma PolyBits(i: int)
    requires 0 <= i < 32
    ensures BitOf(0xedb88320, Mirror(i)) <==> i in GEN
  {
    var k := Mirror(i);
    PolyBytes();
    if k >= 8 {
      NextByte(0xedb88320, k - 8);
    }
    if k >= 16 {
      NextByte(0xedb883, k - 16);
    }
    if k >= 24 {
      NextByte(0xedb8, k - 24);
    }
    if k < 8 {
      LastByte(0xedb883, 0x20, k);
    } else if k < 16 {
      LastByte(0xedb8, 0x83, k - 8);
    } else if k < 24 {
      LastByte(0xed, 0xb8, k - 16);
    }
  }

  /** Halving moves every coefficient up. */
  lemma HalfIsShift(c: nat)
    requires c < 0x1_0000_0000
    ensures Low32(c / 2) == Shifted(Low32(c), 1)
    ensures 31 in Low32(c) <==> c % 2 == 1
  {
    Pow32();
    NoBitAbove(c, 32);
    forall i: int | 0 <= i < 32 ensures i in Low32(c / 2) <==> i in Shifted(Low32(c), 1) {
      assert BitOf(c / 2, Mirror(i)) == BitOf(c, Mirror(i) + 1);
      assert i > 0 ==> Mirror(Back(i, 1)) == Mirror(i) + 1;
    }
    assert BitOf(c, Mirror(31)) <==> c % 2 == 1;
  }

  // ----- a step, a byte, a run -----

  /** One turn of the bit loop multiplies by x. */
  lemma StepDivides(c: nat, d: nat)
    requires c < 0x1_0000_0000 && d == if c % 2 == 1 then Pax.Xor(c / 2, 0xedb88320) else c / 2
    ensures d < 0x1_0000_0000 && Low32(d) == Divide(Low32(c), false)
  {
    Pow32();
    XorBelow(c / 2, 0xedb88320, 32);
    HalfIsShift(c);
    XorIsSum(c / 2, 0xedb88320);
    forall i: int | 0 <= i < 32 ensures i in Low32(0xedb88320) <==> i in GEN - X32 {
      PolyBits(i);
    }
    StepPoly(Low32(c));
    assert Low32(0xedb88320) == GEN - X32;
  }

  lemma {:induction false} StepsDivide(c: nat, k: nat)
    requires c < 0x1_0000_0000
    ensures Pax.CrcBits(c, k) < 0x1_0000_0000
    ensures Low32(Pax.CrcBits(c, k)) == DivideAll(Low32(c), CrcByte.Zeros(k))
    decreases k
  {
    if k == 0 {
      assert CrcByte.Zeros(0) == [];
    } else {
      var d := if c % 2 == 1 then Pax.Xor(c / 2, 0xedb88320) else c / 2;
      StepDivides(c, d);
      StepsDivide(d, k - 1);
      CrcByte.ZerosCons(Low32(c), k);
    }
  }

  /** The bits of a byte, the least significant first. */
  function ByteBits(b: byte): (m: seq<bool>)
    ensures |m| == 8
  {
    seq(8, k requires 0 <= k < 8 => BitOf(b, k))
  }

  function MsgBits(s: seq<byte>): (m: seq<bool>)
    ensures |m| == 8 * |s|
  {
    if s == [] then [] else ByteBits(s[0]) + MsgBits(s[1..])
  }

  lemma XorIntoZeros(m: seq<bool>)
    ensures Xor(CrcByte.Zeros(|m|), m) == m
  {
  }

  lemma SumNothing(p: Poly)
    ensures Sum(p, ZERO) == p
  {
  }

  /** Eight zero bits after a byte has met the register are the byte's bits. */
  lemma MeetByte(r: Poly, p: Poly, m: seq<bool>, z: seq<bool>)
    requires Below(p, 32) && |m| == 8 && z == CrcByte.Zeros(8)
    requires Tops(p, 8) == m && Shifted(p, 8) == ZERO
    ensures DivideAll(Sum(r, p), z) == DivideAll(r, m)
  {
    var d, e := DivideAll(r, z), DivideAll(ZERO, m);
    assert DivideAll(p, z) == e by {
      CrcByte.ZerosAfterTop(p);
    }
    assert DivideAll(Sum(r, p), z) == Sum(d, e) by {
      XorIntoZeros(z);
      DivideAllLinear(r, p, z, z);
    }
    assert DivideAll(r, m) == Sum(d, e) by {
      XorIntoZeros(m);
      SumNothing(r);
      DivideAllLinear(r, ZERO, z, m);
    }
  }

  lemma ByteAtTop(b: byte)
    ensures Tops(Low32(b), 8) == ByteBits(b) && Shifted(Low32(b), 8) == ZERO
  {
    forall k | 0 <= k < 8 ensures Tops(Low32(b), 8)[k] == ByteBits(b)[k] {
      assert Mirror(31 - k) == k;
    }
    forall i: int | 8 <= i < 32 ensures i !in Shifted(Low32(b), 8) {
      ByteIsSmall(b, Mirror(Back(i, 8)));
    }
  }

  lemma ByteIsSmall(b: byte, k: nat)
    requires k >= 8
    ensures !BitOf(b, k)
  {
    SmallPowers();
    Pow2Mono(8, k);
    NoBitAbove(b, k);
  }

  /** The complement of a checksum, and the register while a byte is taken. */
  function Flip(c: nat): nat { Pax.Xor(c, 0xffffffff) }

  lemma FlipBelow(c: nat)
    requires c < 0x1_0000_0000
    ensures Flip(c) < 0x1_0000_0000
  {
    Pow32();
    XorBelow(c, 0xffffffff, 32);
  }

  lemma FlipTwice(c: nat)
    ensures Low32(Flip(Flip(c))) == Low32(c)
  {
    XorIsSum(c, 0xffffffff);
    XorIsSum(Flip(c), 0xffffffff);
    SumTwice(Low32(c), Low32(0xffffffff));
  }

  lemma SumTwice(p: Poly, q: Poly)
    ensures Sum(Sum(p, q), q) == p
  {
  }

  /** A byte step of zlib's crc32 divides by the eight bits of the byte. */
  lemma ByteDivides(c: nat, b: byte)
    requires c < 0x1_0000_0000
    ensures Pax.CrcByte(c, b) < 0x1_0000_0000
    ensures Low32(Flip(Pax.CrcByte(c, b))) == DivideAll(Low32(Flip(c)), ByteBits(b))
  {
    var u := Pax.Xor(Flip(c), b);
    FlipBelow(c);
    Pow32();
    XorBelow(Flip(c), b, 32);
    StepsDivide(u, 8);
    FlipBelow(Pax.CrcBits(u, 8));
    FlipTwice(Pax.CrcBits(u, 8));
    XorIsSum(Flip(c), b);
    ByteAtTop(b);
    MeetByte(Low32(Flip(c)), Low32(b), ByteBits(b), CrcByte.Zeros(8));
  }

  lemma {:induction false} RunDivides(c: nat, s: seq<byte>)
    requires c < 0x1_0000_0000
    ensures Pax.Crc32(c, s) < 0x1_0000_0000
    ensures Low32(Flip(Pax.Crc32(c, s))) == DivideAll(Low32(Flip(c)), MsgBits(s))
    decreases |s|
  {
    if s != [] {
      var d := Pax.CrcByte(c, s[0]);
      ByteDivides(c, s[0]);
      RunDivides(d, s[1..]);
      DivideConcat(Low32(Flip(c)), ByteBits(s[0]), MsgBits(s[1..]));
    }
  }

  /** x^31 + ... + 1 */
  const ONES: Poly := iset i: int | 0 <= i < 32

  lemma {:induction false} AllOnes(k: nat, w: nat)
    requires k < w
    ensures BitOf(Pow2(w) - 1, k)
    decreases k
  {
    assert (Pow2(w) - 1) / 2 == Pow2(w - 1) - 1;
    if k > 0 {
      AllOnes(k - 1, w - 1);
    }
  }

  lemma ZeroBit(k: nat)
    ensures !BitOf(0, k)
  {
  }

  lemma FlipZero()
    ensures Low32(Flip(0)) == ONES
  {
    Pow32();
    forall i: int | 0 <= i < 32 ensures i in Low32(Flip(0)) {
      BitXor(0, 0xffffffff, Mirror(i));
      AllOnes(Mirror(i), 32);
      ZeroBit(Mirror(i));
    }
  }

  /** The checksum of a member's data: from a register of ones, division by the generator leaves its
      complement. */
  lemma CrcIsRemainder(s: seq<byte>)
    ensures Pax.Crc32(0, s) < 0x1_0000_0000
    ensures forall i :: 0 <= i < 32 ==> (BitOf(Pax.Crc32(0, s), Mirror(i)) <==> i !in DivideAll(ONES, MsgBits(s)))
  {
    RunDivides(0, s);
    FlipZero();
    var c := Pax.Crc32(0, s);
    forall i | 0 <= i < 32
      ensures BitOf(c, Mirror(i)) <==> i !in Low32(Flip(c))
    {
      Pow32();
      BitXor(c, 0xffffffff, Mirror(i));
      AllOnes(Mirror(i), 32);
    }
  }

  // ----- errors it finds -----

  lemma {:induction false} MsgBitsConcat(a: seq<byte>, b: seq<byte>)
    ensures MsgBits(a + b) == MsgBits(a) + MsgBits(b)
  {
    if a == [] {
      assert a + b == b;
    } else {
      assert (a + b)[1..] == a[1..] + b;
      MsgBitsConcat(a[1..], b);
    }
  }

  lemma {:induction false} SameBits(a: nat, b: nat, w: nat)
    requires a < Pow2(w) && b < Pow2(w) && forall k :: 0 <= k < w ==> (BitOf(a, k) <==> BitOf(b, k))
    ensures a == b
    decreases w
  {
    if w > 0 {
      assert BitOf(a, 0) <==> BitOf(b, 0);
      forall k: nat | k < w - 1 ensures BitOf(a / 2, k) <==> BitOf(b / 2, k) {
        assert BitOf(a, k + 1) <==> BitOf(b, k + 1);
      }
      SameBits(a / 2, b / 2, w - 1);
    }
  }

  lemma SameByte(a: byte, b: byte)
    requires ByteBits(a) == ByteBits(b)
    ensures a == b
  {
    SmallPowers();
    forall k: nat | k < 8 ensures BitOf(a, k) <==> BitOf(b, k) {
      assert ByteBits(a)[k] == ByteBits(b)[k];
    }
    SameBits(a, b, 8);
  }

  lemma {:induction false} SameMessage(a: seq<byte>, b: seq<byte>)
    requires |a| == |b| && MsgBits(a) == MsgBits(b)
    ensures a == b
  {
    if a != [] {
      assert MsgBits(a)[..8] == ByteBits(a[0]) && MsgBits(a)[8..] == MsgBits(a[1..]);
      assert MsgBits(b)[..8] == ByteBits(b[0]) && MsgBits(b)[8..] == MsgBits(b[1..]);
      SameByte(a[0], b[0]);
      SameMessage(a[1..], b[1..]);
      assert a == [a[0]] + a[1..] && b == [b[0]] + b[1..];
    }
  }

  /** Data that differ only within 32 consecutive bits have different checksums, */
  lemma BurstFound(a: seq<byte>, b: seq<byte>, i: nat)
    requires Burst(MsgBits(a), MsgBits(b), i)
    ensures Pax.Crc32(0, a) != Pax.Crc32(0, b)
  {
    RunDivides(0, a);
    RunDivides(0, b);
    FlipZero();
    BurstShows(ONES, MsgBits(a), MsgBits(b), i);
  }

  /** so any change inside four consecutive bytes is found. */
  lemma FourBytesFound(head: seq<byte>, u: seq<byte>, v: seq<byte>, tail: seq<byte>)
    requires |u| == |v| <= 4 && u != v
    ensures Pax.Crc32(0, head + u + tail) != Pax.Crc32(0, head + v + tail)
  {
    MsgBitsConcat(head + u, tail);
    MsgBitsConcat(head, u);
    MsgBitsConcat(head + v, tail);
    MsgBitsConcat(head, v);
    if MsgBits(u) == MsgBits(v) {
      SameMessage(u, v);
    }
    Cksum.BurstInside(MsgBits(head), MsgBits(u), MsgBits(v), MsgBits(tail));
    BurstFound(head + u + tail, head + v + tail, 8 * |head|);
  }
}
