/** Shifts, masks and ors of machine words, as the arithmetic the models are written in. */
module Shifts {
  import opened Bits
  import opened ZPack

  // ----- compress: one line for each amount of a shift, with its entries of rmask and lmask
  //       (compress/zopen.cc:365-368) -----

  /** rmask keeps the low bits of a byte, a shift drops them. */
  lemma ByteParts(b: bv8)
    ensures (b & 0x1) as nat == (b as nat) % 2 && (b >> 1) as nat == (b as nat) / 2
    ensures (b & 0x3) as nat == (b as nat) % 4 && (b >> 2) as nat == (b as nat) / 4
  {
  }

  lemma ByteParts3(b: bv8)
    ensures (b & 0x7) as nat == (b as nat) % 8 && (b >> 3) as nat == (b as nat) / 8
    ensures (b & 0xf) as nat == (b as nat) % 16 && (b >> 4) as nat == (b as nat) / 16
  {
  }

  lemma ByteParts5(b: bv8)
    ensures (b & 0x1f) as nat == (b as nat) % 32 && (b >> 5) as nat == (b as nat) / 32
    ensures (b & 0x3f) as nat == (b as nat) % 64 && (b >> 6) as nat == (b as nat) / 64
    ensures (b & 0x7f) as nat == (b as nat) % 128 && (b >> 7) as nat == (b as nat) / 128
  {
  }

  /** The first store of output (compress/zopen.cc:388), low being the low byte of the code: the old low
      bits of the byte and the low bits of the code above them. */
  lemma StoredWord(b: bv8, code: bv16, low: bv8)
    requires code & 0xff == low as bv16
    ensures (((b as bv16) & 0x0) | ((code << 0) & 0xff)) as nat == (b & 0x0) as nat + 1 * ((low & 0xff) as nat)
    ensures (((b as bv16) & 0x1) | ((code << 1) & 0xfe)) as nat == (b & 0x1) as nat + 2 * ((low & 0x7f) as nat)
    ensures (((b as bv16) & 0x3) | ((code << 2) & 0xfc)) as nat == (b & 0x3) as nat + 4 * ((low & 0x3f) as nat)
    ensures (((b as bv16) & 0x7) | ((code << 3) & 0xf8)) as nat == (b & 0x7) as nat + 8 * ((low & 0x1f) as nat)
    ensures (((b as bv16) & 0xf) | ((code << 4) & 0xf0)) as nat == (b & 0xf) as nat + 16 * ((low & 0xf) as nat)
    ensures (((b as bv16) & 0x1f) | ((code << 5) & 0xe0)) as nat == (b & 0x1f) as nat + 32 * ((low & 0x7) as nat)
    ensures (((b as bv16) & 0x3f) | ((code << 6) & 0xc0)) as nat == (b & 0x3f) as nat + 64 * ((low & 0x3) as nat)
    ensures (((b as bv16) & 0x7f) | ((code << 7) & 0x80)) as nat == (b & 0x7f) as nat + 128 * ((low & 0x1) as nat)
  {
  }

  /** The low byte of a word, and what a shift by eight leaves. */
  lemma LowByte(code: bv16)
    ensures (code & 0xff) as nat == (code as nat) % 256 && (code >> 8) as nat == (code as nat) / 256
  {
    WordOfBytes(code);
    Divided(code as nat, 256, (code >> 8) as nat, (code & 0xff) as nat);
  }

  lemma WordOfBytes(code: bv16)
    ensures code as nat == 256 * ((code >> 8) as nat) + (code & 0xff) as nat && (code & 0xff) as nat < 256
  {
    TwoBytes(code >> 8, code);
    Halves(code);
  }

  lemma Halves(code: bv16)
    ensures code >> 8 == (code >> 8) & 0xff && code == (((code >> 8) & 0xff) << 8) | (code & 0xff)
  {
  }

  lemma TwoBytes(h: bv16, l: bv16)
    ensures (((h & 0xff) << 8) | (l & 0xff)) as nat == 256 * ((h & 0xff) as nat) + (l & 0xff) as nat
    ensures (l & 0xff) as nat < 256
  {
  }

  /** The loads of getcode (compress/zopen.cc:606-617): a byte or-ed above sh bits that are there. */
  lemma LoadedWord(g: bv32, b: bv32)
    ensures ((g & 0x1) | ((b & 0xff) << 1)) as nat == (g & 0x1) as nat + 2 * ((b & 0xff) as nat)
    ensures ((g & 0x3) | ((b & 0xff) << 2)) as nat == (g & 0x3) as nat + 4 * ((b & 0xff) as nat)
    ensures ((g & 0x7) | ((b & 0xff) << 3)) as nat == (g & 0x7) as nat + 8 * ((b & 0xff) as nat)
    ensures ((g & 0xf) | ((b & 0xff) << 4)) as nat == (g & 0xf) as nat + 16 * ((b & 0xff) as nat)
  {
  }

  lemma LoadedFrom5(g: bv32, b: bv32)
    ensures ((g & 0x1f) | ((b & 0xff) << 5)) as nat == (g & 0x1f) as nat + 32 * ((b & 0xff) as nat)
    ensures ((g & 0x3f) | ((b & 0xff) << 6)) as nat == (g & 0x3f) as nat + 64 * ((b & 0xff) as nat)
    ensures ((g & 0x7f) | ((b & 0xff) << 7)) as nat == (g & 0x7f) as nat + 128 * ((b & 0xff) as nat)
    ensures ((g & 0xff) | ((b & 0xff) << 8)) as nat == (g & 0xff) as nat + 256 * ((b & 0xff) as nat)
  {
  }

  lemma LoadedFrom9(g: bv32, b: bv32)
    ensures ((g & 0x1ff) | ((b & 0xff) << 9)) as nat == (g & 0x1ff) as nat + 512 * ((b & 0xff) as nat)
    ensures ((g & 0x3ff) | ((b & 0xff) << 10)) as nat == (g & 0x3ff) as nat + 1024 * ((b & 0xff) as nat)
    ensures ((g & 0x7ff) | ((b & 0xff) << 11)) as nat == (g & 0x7ff) as nat + 2048 * ((b & 0xff) as nat)
    ensures ((g & 0xfff) | ((b & 0xff) << 12)) as nat == (g & 0xfff) as nat + 4096 * ((b & 0xff) as nat)
  {
  }

  lemma LoadedFrom13(g: bv32, b: bv32)
    ensures ((g & 0x1fff) | ((b & 0xff) << 13)) as nat == (g & 0x1fff) as nat + 8192 * ((b & 0xff) as nat)
    ensures ((g & 0x3fff) | ((b & 0xff) << 14)) as nat == (g & 0x3fff) as nat + 16384 * ((b & 0xff) as nat)
    ensures ((g & 0x7fff) | ((b & 0xff) << 15)) as nat == (g & 0x7fff) as nat + 32768 * ((b & 0xff) as nat)
    ensures ((g & 0xffff) | ((b & 0xff) << 16)) as nat == (g & 0xffff) as nat + 65536 * ((b & 0xff) as nat)
  {
  }

  // ----- and the functions of Bits -----

  lemma {:induction false} ShlTimes(x: nat, k: nat)
    ensures Shl(x, k) == Pow2(k) * x
  {
    if k > 0 {
      ShlTimes(x, k - 1);
      assert Pow2(k) * x == 2 * (Pow2(k - 1) * x);
    }
  }

  lemma FarFromZero(d: nat, z: int)
    ensures z != 0 ==> d * z >= d || d * z + d <= 0
  {
    if z > 0 {
      assert d * z >= d * 1;
    } else if z < 0 {
      assert d * z <= d * -1;
    }
  }

  lemma Divided(x: nat, d: nat, q: nat, r: nat)
    requires x == d * q + r && r < d
    ensures q == x / d && r == x % d
  {
    var z: int := q as int - (x / d) as int;
    assert d * z == d * q - d * (x / d) == x % d - r;
    FarFromZero(d, z);
  }

  /** A mask and a shift are a remainder and a quotient. */
  lemma LowIsMod(x: nat, k: nat)
    ensures Low(x, k) == x % Pow2(k) && Shr(x, k) == x / Pow2(k)
  {
    CatSplit(x, k);
    ShlTimes(Shr(x, k), k);
    Divided(x, Pow2(k), Shr(x, k), Low(x, k));
  }

  lemma CatIsSum(lo: nat, s: nat, hi: nat)
    ensures Cat(lo, s, hi) == lo + Pow2(s) * hi
  {
    ShlTimes(hi, s);
  }

  lemma PowRest(r: nat)
    requires r < 8
    ensures Pow2(r) * Pow2(8 - r) == 256
  {
    SmallPowers();
    assert r in {0, 1, 2, 3, 4, 5, 6, 7};
  }

  lemma Spread(p: nat, q: nat, c: nat, l: nat, s: nat)
    requires p * q == 256 && c == q * s + l
    ensures p * c == p * l + 256 * s
  {
    assert p * c == p * (q * s) + p * l;
    assert p * (q * s) == p * q * s;
  }

  /** The byte that ZPack stores is the one of StoredWord. */
  lemma HunkIs(r: nat, code: nat)
    requires r < 8
    ensures FirstHunk(r, code) == Pow2(r) * (code % Pow2(8 - r))
  {
    LowIsMod(code, 8 - r);
    CatSplit(code, 8 - r);
    CatIsSum(Low(code, 8 - r), 8 - r, Shr(code, 8 - r));
    PowRest(r);
    Spread(Pow2(r), Pow2(8 - r), code, Low(code, 8 - r), Shr(code, 8 - r));
    CatIsSum(0, r, code);
    FirstByte(0, r, code);
  }

  lemma ByteOf(code: bv16, low: bv8)
    requires code & 0xff == low as bv16
    ensures low as nat == (code as nat) % 256
  {
    LowByte(code);
  }

  /** What the source stores is what ZPack has, where the first bit has one of the places 0 to 3 in its byte, */
  lemma StoreAtLow(b: bv8, code: bv16, low: bv8)
    requires code & 0xff == low as bv16
    ensures (((b as bv16) & 0x0) | ((code << 0) & 0xff)) as nat == Low(b as nat, 0) + FirstHunk(0, code as nat)
    ensures (((b as bv16) & 0x1) | ((code << 1) & 0xfe)) as nat == Low(b as nat, 1) + FirstHunk(1, code as nat)
    ensures (((b as bv16) & 0x3) | ((code << 2) & 0xfc)) as nat == Low(b as nat, 2) + FirstHunk(2, code as nat)
    ensures (((b as bv16) & 0x7) | ((code << 3) & 0xf8)) as nat == Low(b as nat, 3) + FirstHunk(3, code as nat)
  {
    StoredWord(b, code, low);
    ByteParts(b);
    ByteParts3(b);
    ByteParts5(low);
    ByteOf(code, low);
    StoreNum(b as nat, code as nat);
  }

  /** and one of the places 4 to 7. */
  lemma StoreAtHigh(b: bv8, code: bv16, low: bv8)
    requires code & 0xff == low as bv16
    ensures (((b as bv16) & 0xf) | ((code << 4) & 0xf0)) as nat == Low(b as nat, 4) + FirstHunk(4, code as nat)
    ensures (((b as bv16) & 0x1f) | ((code << 5) & 0xe0)) as nat == Low(b as nat, 5) + FirstHunk(5, code as nat)
    ensures (((b as bv16) & 0x3f) | ((code << 6) & 0xc0)) as nat == Low(b as nat, 6) + FirstHunk(6, code as nat)
    ensures (((b as bv16) & 0x7f) | ((code << 7) & 0x80)) as nat == Low(b as nat, 7) + FirstHunk(7, code as nat)
  {
    StoredWord(b, code, low);
    ByteParts3(b);
    ByteParts5(b);
    ByteParts(low);
    ByteParts3(low);
    ByteOf(code, low);
    StoreNum(b as nat, code as nat);
  }

  lemma StoreNum(b: nat, code: nat)
    ensures Low(b, 0) + FirstHunk(0, code) == b % 1 + 1 * (code % 256 % 256)
    ensures Low(b, 1) + FirstHunk(1, code) == b % 2 + 2 * (code % 256 % 128)
    ensures Low(b, 2) + FirstHunk(2, code) == b % 4 + 4 * (code % 256 % 64)
    ensures Low(b, 3) + FirstHunk(3, code) == b % 8 + 8 * (code % 256 % 32)
    ensures Low(b, 4) + FirstHunk(4, code) == b % 16 + 16 * (code % 256 % 16)
    ensures Low(b, 5) + FirstHunk(5, code) == b % 32 + 32 * (code % 256 % 8)
    ensures Low(b, 6) + FirstHunk(6, code) == b % 64 + 64 * (code % 256 % 4)
    ensures Low(b, 7) + FirstHunk(7, code) == b % 128 + 128 * (code % 256 % 2)
  {
    SmallPowers();
    StoreNumAt(b, code, 0, 1, 256);
    StoreNumAt(b, code, 1, 2, 128);
    StoreNumAt(b, code, 2, 4, 64);
    StoreNumAt(b, code, 3, 8, 32);
    StoreNumAt(b, code, 4, 16, 16);
    StoreNumAt(b, code, 5, 32, 8);
    StoreNumAt(b, code, 6, 64, 4);
    StoreNumAt(b, code, 7, 128, 2);
  }

  lemma StoreNumAt(b: nat, code: nat, r: nat, p: nat, q: nat)
    requires r < 8 && p == Pow2(r) && q == Pow2(8 - r)
    ensures Low(b, r) + FirstHunk(r, code) == b % p + p * (code % 256 % q)
  {
    LowIsMod(b, r);
    HunkIs(r, code);
    PowRest(r);
    ModMod(code, p, q);
  }

  lemma ModMod(x: nat, p: nat, q: nat)
    requires p * q == 256 && q > 0
    ensures x % 256 % q == x % q
  {
    var y, z := x % 256, x / 256;
    assert 256 * z == q * (p * z);
    var k, r := y / q, y % q;
    assert x == q * (p * z + k) + r by { assert q * (p * z + k) == q * (p * z) + q * k; }
    Divided(x, q, p * z + k, r);
  }

  // ----- uuencode -----

  lemma DisjointOr(x: bv8, y: bv8)
    requires (x & 0xf == 0 && y <= 0xf) || (x & 3 == 0 && y <= 3)
    ensures (x | y) as nat == x as nat + y as nat
  {
  }

  lemma TopSix(a: bv8)
    ensures ((a >> 2) & 0x3f) as nat == (a as nat) / 4 % 64 && (a >> 2) as nat == (a as nat) / 4
  {
  }

  lemma UpFour(a: bv8)
    ensures ((a << 4) & 0x3f) as nat == (a as nat) * 16 % 64 && ((a << 4) & 0x3f) & 0xf == 0
    ensures (a & 3) << 4 == (a << 4) & 0x3f
  {
  }

  lemma UpTwo(a: bv8)
    ensures ((a << 2) & 0x3f) as nat == (a as nat) * 4 % 64 && ((a << 2) & 0x3f) & 3 == 0
    ensures (a & 0xf) << 2 == (a << 2) & 0x3f
  {
  }

  lemma DownFour(a: bv8)
    ensures ((a >> 4) & 0xf) as nat == (a as nat) / 16 % 16 && (a >> 4) & 0xf <= 0xf && a >> 4 == (a >> 4) & 0xf
  {
  }

  lemma DownSix(a: bv8)
    ensures ((a >> 6) & 3) as nat == (a as nat) / 64 % 4 && (a >> 6) & 3 <= 3
  {
  }

  lemma LowSix(a: bv8)
    ensures (a & 0x3f) as nat == (a as nat) % 64
  {
  }

  /** The four chunks of encode_chunk (uuencode/uuencode.cc:138-146). */
  lemma ChunksAre(a: bv8, b: bv8, c: bv8)
    ensures ((a >> 2) & 0x3f) as nat == (a as nat) / 4 % 64
    ensures (((a << 4) & 0x3f) | ((b >> 4) & 0xf)) as nat == (a as nat) * 16 % 64 + (b as nat) / 16 % 16
    ensures (((b << 2) & 0x3f) | ((c >> 6) & 3)) as nat == (b as nat) * 4 % 64 + (c as nat) / 64 % 4
    ensures (c & 0x3f) as nat == (c as nat) % 64
  {
    TopSix(a);
    UpFour(a);
    DownFour(b);
    DisjointOr((a << 4) & 0x3f, (b >> 4) & 0xf);
    UpTwo(b);
    DownSix(c);
    DisjointOr((b << 2) & 0x3f, (c >> 6) & 3);
    LowSix(c);
  }

  /** Those of finalize_base64 (uuencode/uuencode.cc:163-172). */
  lemma LastChunksAre(a: bv8, b: bv8)
    ensures (a >> 2) as nat == (a as nat) / 4
    ensures ((a & 3) << 4) as nat == (a as nat) * 16 % 64
    ensures (((a & 3) << 4) | (b >> 4)) as nat == (a as nat) * 16 % 64 + (b as nat) / 16 % 16
    ensures ((b & 0xf) << 2) as nat == (b as nat) * 4 % 64
  {
    TopSix(a);
    UpFour(a);
    DownFour(b);
    DisjointOr((a << 4) & 0x3f, (b >> 4) & 0xf);
    UpTwo(b);
  }
}
