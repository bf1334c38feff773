/** What the writer of compress/zopen.cc keeps, sends and counts, said in numbers: the block check,
    the entries made, the widths, and the bytes of small files. */
module ZCheck {
  import opened Bits
  import opened ZPack
  import opened ZSpec
  import opened ZDecode

  lemma TimesMono(x: nat, y: nat, n: nat)
    requires x <= y
    ensures x * n <= y * n
  {
  }

  /** Dividing and comparing is multiplying and comparing. */
  lemma Quotient(a: nat, n: nat, r: nat, q: nat)
    requires n > 0 && q == a / n
    ensures q > r <==> a >= (r + 1) * n
    ensures q * n <= a < (q + 1) * n
  {
    Division(a, n, q);
    if q > r {
      TimesMono(r + 1, q, n);
    } else {
      TimesMono(q + 1, r + 1, n);
    }
  }

  lemma Division(a: nat, n: nat, q: nat)
    requires n > 0 && q == a / n
    ensures q * n <= a < (q + 1) * n
  {
    var r := a % n;
    assert a == n * q + r && r < n;
  }

  lemma RatioShort(a: nat, n: nat, r: nat, rat: int)
    requires n > 0 && a <= 0x7fffff && rat == Ratio(a, n)
    ensures rat > r <==> 256 * a >= (r + 1) * n
    ensures rat >= 0 && rat * n <= 256 * a < (rat + 1) * n
  {
    Quotient(a * 256, n, r, a * 256 / n);
  }

  lemma RatioLong(a: nat, n: nat, m: nat, r: nat)
    requires n > 0 && a > 0x7fffff && m == n / 256
    ensures m == 0 ==> Ratio(a, n) == 0x7fffffff
    ensures m > 0 ==> (Ratio(a, n) > r <==> a >= (r + 1) * m)
    ensures m > 0 ==> Ratio(a, n) >= 0 && Ratio(a, n) * m <= a < (Ratio(a, n) + 1) * m
  {
    if m > 0 {
      Quotient(a, m, r, a / m);
    }
  }

  /** A check keeps the table and the new ratio, or sends CLEAR and starts over. */
  lemma CheckShape(e: Enc, c: byte, p: Packer, rat: int, e': Enc)
    requires EncOk(e) && e.freeEnt >= Pow2(e.maxBits) && e.checkpoint <= e.inCount
    requires p == Output(e.maxBits, e.p, e.freeEnt, false, e.ent) && e' == EncMiss(e, c)
    requires rat == Ratio(e.inCount, p.bytesOut)
    ensures e'.checkpoint == e.inCount + 10000 && e'.inCount == e.inCount && e'.ent == c
    ensures rat <= e.ratio ==>
              && e'.ratio == 0 && e'.dict == map[] && e'.freeEnt == 257
              && e'.p == Output(e.maxBits, p, 257, true, 256)
    ensures rat > e.ratio ==> e'.ratio == rat && e'.dict == e.dict && e'.freeEnt == e.freeEnt && e'.p == p
  {
  }

  /** The block check of compress/zopen.cc:623-649: up to 0x7fffff bytes the ratio is kept to eight
      fractional bits. p is the output once the current code is in, n the bytes out by then. */
  lemma BlockCheck(e: Enc, c: byte, p: Packer, n: nat, e': Enc)
    requires EncOk(e) && e.freeEnt >= Pow2(e.maxBits) && e.checkpoint <= e.inCount <= 0x7fffff
    requires p == Output(e.maxBits, e.p, e.freeEnt, false, e.ent) && n == p.bytesOut && e' == EncMiss(e, c)
    ensures e'.checkpoint == e.inCount + 10000 && e'.inCount == e.inCount && e'.ent == c
    ensures 256 * e.inCount < (e.ratio + 1) * n ==>
              && e'.ratio == 0 && e'.dict == map[] && e'.freeEnt == 257
              && e'.p == Output(e.maxBits, p, 257, true, 256)
    ensures 256 * e.inCount >= (e.ratio + 1) * n ==>
              && e'.ratio > e.ratio && e'.ratio * n <= 256 * e.inCount < (e'.ratio + 1) * n
              && e'.dict == e.dict && e'.freeEnt == e.freeEnt && e'.p == p
  {
    var rat := Ratio(e.inCount, n);
    var limit := (e.ratio + 1) * n;
    assert (rat > e.ratio <==> 256 * e.inCount >= limit) && rat * n <= 256 * e.inCount < (rat + 1) * n by {
      RatioShort(e.inCount, n, e.ratio, rat);
    }
    CheckShape(e, c, p, rat, e');
  }

  /** Beyond that the bytes out lose eight bits instead, and fewer than 256 of them make the ratio
      the largest int. */
  lemma BlockCheckLong(e: Enc, c: byte, p: Packer, m: nat, e': Enc)
    requires EncOk(e) && e.freeEnt >= Pow2(e.maxBits) && e.checkpoint <= e.inCount && 0x7fffff < e.inCount
    requires p == Output(e.maxBits, e.p, e.freeEnt, false, e.ent) && m == p.bytesOut / 256 && e' == EncMiss(e, c)
    ensures e'.checkpoint == e.inCount + 10000 && e'.inCount == e.inCount && e'.ent == c
    ensures (if m == 0 then 0x7fffffff <= e.ratio else e.inCount < (e.ratio + 1) * m) ==>
              && e'.ratio == 0 && e'.dict == map[] && e'.freeEnt == 257
              && e'.p == Output(e.maxBits, p, 257, true, 256)
    ensures (if m == 0 then 0x7fffffff > e.ratio else e.inCount >= (e.ratio + 1) * m) ==>
              && e'.ratio > e.ratio
              && (if m == 0 then e'.ratio == 0x7fffffff else e'.ratio * m <= e.inCount < (e'.ratio + 1) * m)
              && e'.dict == e.dict && e'.freeEnt == e.freeEnt && e'.p == p
  {
    var rat := Ratio(e.inCount, p.bytesOut);
    CheckShape(e, c, p, rat, e');
    RatioLong(e.inCount, p.bytesOut, m, e.ratio);
  }

  /** A full table is left alone until the checkpoint; a table with room takes the string that was
      not found, under the next number. */
  lemma NoCheck(e: Enc, c: byte, e': Enc)
    requires EncOk(e) && (e.freeEnt < Pow2(e.maxBits) || e.inCount < e.checkpoint) && e' == EncMiss(e, c)
    ensures e'.p == Output(e.maxBits, e.p, e.freeEnt, false, e.ent) && e'.ent == c
    ensures e'.checkpoint == e.checkpoint && e'.ratio == e.ratio && e'.inCount == e.inCount
    ensures e.freeEnt < Pow2(e.maxBits) ==>
              e'.freeEnt == e.freeEnt + 1 && e'.dict == e.dict[(e.ent, c) := e.freeEnt]
    ensures e.freeEnt >= Pow2(e.maxBits) ==> e'.freeEnt == e.freeEnt && e'.dict == e.dict
  {
  }

  // ----- counting and starting -----

  /** What a stream that has just begun knows. */
  lemma Begun(maxBits: nat, c: byte, e: Enc)
    requires 1 <= maxBits <= 16 && Write(Start(maxBits), [c]) == Middle(e)
    ensures e.inCount == 1 && e.checkpoint == 10000 && e.ratio == 0 && e.freeEnt == 257 && e.dict == map[]
    ensures e.ent == c && e.maxBits == maxBits
    ensures e.p.w == Width(9, 511) && e.p.offset == 0 && e.p.file == [0x1F, 0x9D, 0x80 + maxBits] && e.p.bytesOut == 3
  {
    assert EncAll(EncStart(maxBits, c), [c][1..]) == EncStart(maxBits, c);
  }

  lemma CountKept(e: Enc, c: byte)
    requires EncOk(e)
    ensures EncByte(e, c).inCount == e.inCount + 1
  {
  }

  lemma {:induction false} InputCounted(e: Enc, s: seq<byte>)
    requires EncOk(e)
    ensures EncAll(e, s).inCount == e.inCount + |s|
    decreases |s|
  {
    if s != [] {
      CountKept(e, s[0]);
      InputCounted(EncByte(e, s[0]), s[1..]);
    }
  }

  /** in_count is the length of the input, however it was cut into calls (compress/zopen.cc:288). */
  lemma InputLength(maxBits: nat, s: seq<byte>, e: Enc)
    requires 1 <= maxBits <= 16 && s != [] && Write(Start(maxBits), s) == Middle(e)
    ensures EncOk(e) && e.inCount == |s|
  {
    InputCounted(EncStart(maxBits, s[0]), s[1..]);
  }

  // ----- widths -----

  /** The width goes up when the next number would not fit, and only the last width takes one more. */
  lemma WidthAfter(maxBits: nat, p: Packer, freeEnt: nat, code: nat, w: Width)
    requires PackerOk(maxBits, p) && freeEnt <= CodeLimit(maxBits) && p.w == w
    ensures freeEnt <= w.maxCode ==> Output(maxBits, p, freeEnt, false, code).w == w
    ensures freeEnt > w.maxCode && w.bits + 1 != maxBits ==>
              Output(maxBits, p, freeEnt, false, code).w == Width(w.bits + 1, Pow2(w.bits + 1) - 1)
    ensures freeEnt > w.maxCode && w.bits + 1 == maxBits ==>
              Output(maxBits, p, freeEnt, false, code).w == Width(w.bits + 1, Pow2(w.bits + 1))
    ensures freeEnt <= w.maxCode ==> Output(maxBits, p, freeEnt, true, code).w == Width(9, 511)
  {
  }

  // ----- small files, byte for byte -----

  lemma CutAtNine(c: byte)
    ensures FirstHunk(0, c) == c && Shr(c, 8) == 0
    ensures FirstHunk(1, 257) == 2 && Shr(257, 7) == 2
  {
    SmallPowers();
    assert 0 + 8 == 8;
    ShrBelow(c, 8, 0);
    assert Shl(257, 1) == 2 * Shl(257, 0);
  }

  /** The first code, and a second one that is 257. */
  lemma PutFirst(z: seq<byte>, c: byte)
    requires |z| == 16 && z[0] == z[1] == z[2] == 0
    ensures PutBits(z, 0, 9, c)[..3] == [c, 0, 0]
    ensures PutBits(PutBits(z, 0, 9, c), 9, 9, 257)[..3] == [c, 2, 2]
  {
    CutAtNine(c);
    var y := PutBits(z, 0, 9, c);
    PutBytes(z, 0, 9, c);
    assert Hunks(0, 0, 9, c) == [c, 0];
    assert y == z[0 := c][1 := 0];
    PutBytes(y, 9, 9, 257);
    assert Low(0, 1) == 0;
    assert Hunks(0, 1, 9, 257) == [2, 2];
  }

  lemma FirstOutput(maxBits: nat, c: byte, p: Packer, q: Packer)
    requires 1 <= maxBits <= 16 && p == EncStart(maxBits, c).p
    requires q == Output(maxBits, p, 257, false, c)
    ensures q.w == p.w == Width(9, 511) && q.offset == 9 && q.buf == PutBits(p.buf, 0, 9, c) && q.buf[..3] == [c, 0, 0]
    ensures q.file == p.file == [0x1F, 0x9D, 0x80 + maxBits] && q.bytesOut == 3
  {
    PutFirst(p.buf, c);
  }

  /** The smallest file: a header of three bytes and one code of nine bits. */
  lemma OneByteFile(maxBits: nat, c: byte)
    requires 1 <= maxBits <= 16
    ensures Close(Write(Start(maxBits), [c]), 'w') == [0x1F, 0x9D, 0x80 + maxBits, c, 0]
  {
    var e := EncStart(maxBits, c);
    assert EncAll(e, [c][1..]) == e;
    var q := Output(maxBits, e.p, 257, false, c);
    FirstOutput(maxBits, c, e.p, q);
    assert BytesFor(9) == 2 && q.buf[..2] == q.buf[..3][..2];
  }

  /** Three times the same byte: the second and third are the first entry made, number 257. */
  lemma ThreeByteFile(maxBits: nat, c: byte)
    requires 9 <= maxBits <= 16
    ensures Close(Write(Start(maxBits), [c, c, c]), 'w') == [0x1F, 0x9D, 0x80 + maxBits, c, 2, 2]
  {
    SmallPowers();
    Pow2Mono(9, maxBits);
    var e := EncStart(maxBits, c);
    FirstOutput(maxBits, c, e.p, Output(maxBits, e.p, 257, false, c));
    var e1 := EncByte(e, c);
    var e2 := EncByte(e1, c);
    assert e1.dict == map[(c as nat, c) := 257] && e1.freeEnt == 258 && e1.ent == c;
    assert e2.ent == 257 && e2.p == e1.p && e2.freeEnt == 258;
    assert [c, c, c][1..] == [c, c] && [c, c][1..] == [c] && [c][1..] == [];
    assert EncAll(e, [c, c]) == EncAll(e1, [c]) == EncAll(e2, []) == e2;
    PutFirst(e.p.buf, c);
    var q := Output(maxBits, e2.p, 258, false, 257);
    assert q.offset == 18 && q.buf[..3] == [c, 2, 2] && BytesFor(18) == 3;
  }

  /** What the reader refuses with EINVAL: a missing or wrong magic, or more than 16 bits. */
  lemma Refused(file: seq<byte>)
    ensures BadHeader(file) <==> !([0x1F, 0x9D] <= file && |file| >= 3 && file[2] % 32 <= 16)
    ensures ReadBack(file).None? <==> BadHeader(file) || file[2] < 128 || file[2] % 32 == 0
  {
  }
}
