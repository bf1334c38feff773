/** Variable-width codes in a byte buffer: what `output` stores and `getcode` loads
    (compress/zopen.cc:371-411 and :597-620), and the proof that loading undoes storing. */
module ZPack {
  import opened Bits

  const BITS: nat := 16

  /** Number of bytes that hold the first r bits. */
  function BytesFor(r: nat): nat { (r + 7) / 8 }

  // ----- storing -----

  /** The byte (code << ro) & lmask[ro]. */
  function FirstHunk(ro: nat, code: nat): nat
    requires ro < 8
  {
    Cat(0, ro, code) % 256
  }

  /** A code shifted left by ro, cut at the first byte boundary. */
  lemma CutAtByte(l: nat, ro: nat, code: nat)
    requires ro < 8
    ensures Cat(l, ro, code) == Cat(l, ro, Low(code, 8 - ro)) + 256 * Shr(code, 8 - ro)
  {
    var m, d := Low(code, 8 - ro), Shr(code, 8 - ro);
    CatSplit(code, 8 - ro);
    CatAssoc(l, ro, m, 8 - ro, d);
    CatEight(Cat(l, ro, m), d);
  }

  lemma CutByte(l: nat, ro: nat, code: nat)
    requires ro < 8 && l < Pow2(ro)
    ensures l + Cat(0, ro, Low(code, 8 - ro)) == Cat(l, ro, Low(code, 8 - ro)) < 256
  {
    SmallPowers();
    CatBound(l, ro, Low(code, 8 - ro), 8 - ro);
  }

  /** Or-ing the kept bits into the first hunk loses nothing. */
  lemma FirstByte(l: nat, ro: nat, code: nat)
    requires ro < 8 && l < Pow2(ro)
    ensures l + FirstHunk(ro, code) < 256
    ensures Cat(l, ro, code) == l + FirstHunk(ro, code) + 256 * Shr(code, 8 - ro)
  {
    CutAtByte(l, ro, code);
    CutAtByte(0, ro, code);
    CutByte(l, ro, code);
  }

  /** The bytes that receive an n-bit code put at bit ro of a byte that now holds b: the first
      keeps its low bits, the last loses its high bits. */
  function Hunks(b: byte, ro: nat, n: nat, code: nat): (h: seq<byte>)
    requires ro < 8 && 9 <= n <= BITS
    ensures |h| == BytesFor(ro + n)
  {
    var bits, rest := n - (8 - ro), Shr(code, 8 - ro);
    FirstByte(Low(b, ro), ro, code);
    [Low(b, ro) + FirstHunk(ro, code), rest % 256]
    + if bits > 8 then [rest / 256 % 256] else []
  }

  /** The buffer after the bits of code are put at bit offset r. */
  function PutBits(buf: seq<byte>, r: nat, n: nat, code: nat): (b: seq<byte>)
    requires |buf| == BITS && 9 <= n <= BITS && r + n <= 8 * BITS
    ensures |b| == BITS
  {
    var h := Hunks(buf[r / 8], r % 8, n, code);
    buf[..r / 8] + h + buf[r / 8 + |h|..]
  }

  /** As assignments to the two or three bytes. */
  lemma PutBytes(buf: seq<byte>, r: nat, n: nat, code: nat)
    requires |buf| == BITS && 9 <= n <= BITS && r + n <= 8 * BITS
    ensures var q, h := r / 8, Hunks(buf[r / 8], r % 8, n, code);
            PutBits(buf, r, n, code) ==
            if r % 8 + n > 16 then buf[q := h[0]][q + 1 := h[1]][q + 2 := h[2]] else buf[q := h[0]][q + 1 := h[1]]
  {
  }

  lemma RestBytes(ro: nat, n: nat, code: nat)
    requires ro < 8 && 9 <= n <= BITS && code < Pow2(n)
    ensures Shr(code, 8 - ro) < if n + ro > 16 then 65536 else 256
  {
    assert (8 - ro) + (n + ro - 8) == n;
    ShrBelow(code, 8 - ro, n + ro - 8);
    SmallPowers();
    Pow2Mono(n + ro - 8, if n + ro > 16 then 16 else 8);
  }

  lemma LERest(b: byte, rest: nat)
    requires rest < 65536
    ensures LE([b, rest % 256, rest / 256 % 256]) == b as int + 256 * rest
    ensures rest < 256 ==> LE([b, rest % 256]) == b as int + 256 * rest
  {
    var b1: byte, b2: byte := rest % 256, rest / 256 % 256;
    LECons(b2, []);
    LECons(b1, [b2]);
    LECons(b1, []);
    LECons(b, [b1] + [b2]);
    LECons(b, [b1]);
    assert [b, b1, b2] == [b] + ([b1] + [b2]) && [b, b1] == [b] + [b1];
    assert [b1] == [b1] + [] && [b2] == [b2] + [];
  }

  /** The bytes that PutBits changes, read as one number. */
  lemma HunksVal(b: byte, ro: nat, n: nat, code: nat)
    requires ro < 8 && 9 <= n <= BITS && code < Pow2(n)
    ensures LE(Hunks(b, ro, n, code)) == Cat(Low(b, ro), ro, code)
  {
    var rest := Shr(code, 8 - ro);
    FirstByte(Low(b, ro), ro, code);
    var b0: byte := Low(b, ro) + FirstHunk(ro, code);
    RestBytes(ro, n, code);
    LERest(b0, rest);
    assert Hunks(b, ro, n, code) == if n + ro > 16 then [b0, rest % 256, rest / 256 % 256] else [b0, rest % 256];
  }

  /** The bits below offset r that share a byte with it. */
  lemma PrefixLow(buf: seq<byte>, q: nat, ro: nat)
    requires q < |buf| && ro < 8
    requires LE(buf[..BytesFor(8 * q + ro)]) < Pow2(8 * q + ro)
    ensures LE(buf[..BytesFor(8 * q + ro)]) == Cat(LE(buf[..q]), 8 * q, Low(buf[q], ro))
  {
    if ro == 0 {
      assert BytesFor(8 * q) == q;
      ShlZero(8 * q);
    } else {
      assert BytesFor(8 * q + ro) == q + 1;
      LEPrefix(buf, q);
      LEBound(buf[..q]);
      CatTop(LE(buf[..q]), 8 * q, buf[q], ro);
    }
  }

  lemma LEPrefix(buf: seq<byte>, q: nat)
    requires q < |buf|
    ensures LE(buf[..q + 1]) == Cat(LE(buf[..q]), 8 * q, buf[q])
  {
    var s := buf[..q + 1];
    LESplit(s, q);
    assert s[..q] == buf[..q];
    assert s[q..] == [buf[q]] + [];
    LECons(buf[q], []);
  }

  lemma CatTop(lo: nat, s: nat, hi: nat, t: nat)
    requires lo < Pow2(s) && Cat(lo, s, hi) < Pow2(s + t)
    ensures Low(hi, t) == hi
  {
    CatFields(lo, s, hi);
    ShrBelow(Cat(lo, s, hi), s, t);
    LowFits(hi, t);
  }

  /** The low r bits of the buffer, and the new code on top of them. */
  lemma PutBitsVal(buf: seq<byte>, r: nat, n: nat, code: nat)
    requires |buf| == BITS && 9 <= n <= BITS && r + n <= 8 * BITS && code < Pow2(n)
    requires LE(buf[..BytesFor(r)]) < Pow2(r)
    ensures LE(PutBits(buf, r, n, code)[..BytesFor(r + n)]) == Cat(LE(buf[..BytesFor(r)]), r, code)
  {
    var q, ro := r / 8, r % 8;
    var h := Hunks(buf[q], ro, n, code);
    var s := PutBits(buf, r, n, code)[..BytesFor(r + n)];
    assert s == buf[..q] + h;
    LESplit(s, q);
    assert s[..q] == buf[..q] && s[q..] == h;
    PrefixLow(buf, q, ro);
    HunksVal(buf[q], ro, n, code);
    CatAssoc(LE(buf[..q]), 8 * q, Low(buf[q], ro), ro, code);
  }

  // ----- loading -----

  /** The part of a code above its first byte: a whole byte and part of the next, or part of one. */
  function HighField(b1: byte, b2: byte, bits: nat): nat
    requires bits <= 16
  {
    if bits >= 8 then Cat(b1, 8, Low(b2, bits - 8)) else Low(b1, bits)
  }

  /** The n bits at bit offset r of the buffer: (b0 >> ro), then the next bytes above it. */
  function GetBits(buf: seq<byte>, r: nat, n: nat): nat
    requires 9 <= n <= BITS && r + n <= 8 * |buf|
  {
    var q, ro := r / 8, r % 8;
    Cat(Shr(buf[q], ro), 8 - ro, HighField(buf[q + 1], if n + ro > 16 then buf[q + 2] else 0, n + ro - 8))
  }

  /** A byte is below 2^8, so a field inside it does not see the bytes above. */
  lemma ByteCut(b: byte, v: nat, k: nat)
    requires k <= 8
    ensures Low(Cat(b, 8, v), k) == Low(b, k)
    ensures Shr(Cat(b, 8, v), k) == Cat(Shr(b, k), 8 - k, v)
    ensures Shr(b, k) < Pow2(8 - k)
  {
    CatCut(b, k, 8 - k, v);
    assert k + (8 - k) == 8;
    SmallPowers();
    ShrBelow(b, k, 8 - k);
  }

  lemma HighPart(b1: byte, b2: byte, v: nat, bits: nat)
    requires bits <= 16
    ensures Low(Cat(b1, 8, Cat(b2, 8, v)), bits) == HighField(b1, b2, bits)
  {
    SmallPowers();
    if bits >= 8 {
      LowCat(b1, 8, Cat(b2, 8, v), bits - 8);
      ByteCut(b2, v, bits - 8);
    } else {
      ByteCut(b1, Cat(b2, 8, v), bits);
    }
  }

  /** An n-bit field that starts at bit ro of b0. */
  lemma FieldInBytes(b0: byte, b1: byte, b2: byte, v: nat, ro: nat, n: nat)
    requires ro < 8 && 9 <= n <= BITS
    ensures Low(Shr(Cat(b0, 8, Cat(b1, 8, Cat(b2, 8, v))), ro), n)
         == Cat(Shr(b0, ro), 8 - ro, HighField(b1, b2, n + ro - 8))
  {
    var y := Cat(b1, 8, Cat(b2, 8, v));
    ByteCut(b0, y, ro);
    LowCat(Shr(b0, ro), 8 - ro, y, n + ro - 8);
    assert (8 - ro) + (n + ro - 8) == n;
    HighPart(b1, b2, v, n + ro - 8);
  }

  lemma DropBytes(buf: seq<byte>, q: nat, ro: nat)
    requires q <= |buf|
    ensures Shr(LE(buf), 8 * q + ro) == Shr(LE(buf[q..]), ro)
  {
    LESplit(buf, q);
    LEBound(buf[..q]);
    CatFields(LE(buf[..q]), 8 * q, LE(buf[q..]));
    ShrShr(LE(buf), 8 * q, ro);
  }

  lemma LEUnfold(buf: seq<byte>, q: nat)
    requires q < |buf|
    ensures LE(buf[q..]) == Cat(buf[q], 8, LE(buf[q + 1..]))
  {
    assert buf[q..][1..] == buf[q + 1..];
    CatEight(buf[q], LE(buf[q + 1..]));
  }

  /** The first bytes of a buffer, a missing third one read as zero. */
  lemma ThreeBytes(buf: seq<byte>, q: nat, b2: byte) returns (v: nat)
    requires q + 1 < |buf|
    requires b2 == if q + 2 < |buf| then buf[q + 2] else 0
    ensures LE(buf[q..]) == Cat(buf[q], 8, Cat(buf[q + 1], 8, Cat(b2, 8, v)))
  {
    LEUnfold(buf, q);
    LEUnfold(buf, q + 1);
    if q + 2 < |buf| {
      LEUnfold(buf, q + 2);
      v := LE(buf[q + 3..]);
    } else {
      assert buf[q + 2..] == [];
      v := 0;
      CatEight(0, 0);
    }
  }

  /** GetBits is the n-bit field of the whole buffer, as a number, at bit offset r. */
  lemma GetBitsVal(buf: seq<byte>, r: nat, n: nat)
    requires 9 <= n <= BITS && r + n <= 8 * |buf|
    ensures GetBits(buf, r, n) == Low(Shr(LE(buf), r), n)
  {
    var q, ro := r / 8, r % 8;
    var b2: byte := if q + 2 < |buf| then buf[q + 2] else 0;
    var v := ThreeBytes(buf, q, b2);
    FieldInBytes(buf[q], buf[q + 1], b2, v, ro, n);
    HighFieldShort(buf[q + 1], b2, n + ro - 8);
    DropBytes(buf, q, ro);
  }

  /** A field that ends within the second byte does not see the third. */
  lemma HighFieldShort(b1: byte, b2: byte, bits: nat)
    requires bits <= 16
    ensures bits <= 8 ==> HighField(b1, b2, bits) == HighField(b1, 0, bits)
  {
  }
}
