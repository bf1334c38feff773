/** cksum/cksum.cc: the checksum of a stream, read in pieces of any size. */
module Cksum {
  import opened Bits
  import opened Gf2
  import opened CrcWord
  import opened CrcByte

  /** The bits of a message, the most significant bit of each byte first. */
  function MsgBits(m: seq<bv8>): (bits: seq<bool>)
    ensures |bits| == 8 * |m|
  {
    if m == [] then [] else ByteBits(m[0]) + MsgBits(m[1..])
  }

  /** A length as octets, the least significant first, no more of them than needed. */
  function Octets(n: nat): seq<byte> {
    if n == 0 then [] else [n % 256] + Octets(n / 256)
  }

  function Chars(octets: seq<byte>): seq<bv8> {
    if octets == [] then [] else [octets[0] as bv8] + Chars(octets[1..])
  }

  const SIZE_RANGE: nat := 0x1_0000_0000_0000_0000

  /** What is divided: the message and its length, a 64-bit count, behind it. */
  function Extended(m: seq<bv8>): seq<bv8> {
    m + Chars(Octets(|m| % SIZE_RANGE))
  }

  /** crc is the checksum of m: its complement is the remainder of the message and its length,
      times x^32, modulo the generator. */
  ghost predicate IsCksum(m: seq<bv8>, crc: bv32) {
    IsRemainder(MsgBits(Extended(m)), Reg(!crc))
  }

  lemma {:induction false} MsgBitsConcat(a: seq<bv8>, b: seq<bv8>)
    ensures MsgBits(a + b) == MsgBits(a) + MsgBits(b)
  {
    if a == [] {
      assert a + b == b;
    } else {
      assert (a + b)[1..] == a[1..] + b;
      MsgBitsConcat(a[1..], b);
    }
  }

  // ----- the loops -----

  /** The register s divides by the bits of m. */
  ghost function Divided(s: Poly, m: seq<bv8>): Poly {
    DivideAll(s, MsgBits(m))
  }

  lemma DividedConcat(s: Poly, a: seq<bv8>, b: seq<bv8>)
    ensures Divided(s, a + b) == Divided(Divided(s, a), b)
  {
    MsgBitsConcat(a, b);
    DivideConcat(s, MsgBits(a), MsgBits(b));
  }

  lemma DividedOne(s: bv32, m: seq<bv8>)
    requires m != []
    ensures Divided(Reg(s), m) == Divided(Reg(TakeByte(s, m[0])), m[1..])
  {
    TableStep(s, m[0]);
    DivideConcat(Reg(s), ByteBits(m[0]), MsgBits(m[1..]));
  }

  /** updcrc (cksum/cksum.cc:47-58) */
  method Updcrc(crcIn: bv32, buf: seq<bv8>) returns (s: bv32)
    ensures Reg(s) == Divided(Reg(crcIn), buf)
  {
    s := crcIn;
    var i, p := |buf|, 0;
    assert buf[0..] == buf;
    while i > 0
      invariant 0 <= i && p + i == |buf| && Divided(Reg(s), buf[p..]) == Divided(Reg(crcIn), buf)
    {
      DividedOne(s, buf[p..]);
      assert buf[p..][1..] == buf[p + 1..];
      s := TakeByte(s, buf[p]);
      p, i := p + 1, i - 1;
    }
    assert buf[p..] == [];
  }

  lemma NotNot(w: bv32)
    ensures !!w == w
  {
  }

  /** fincrc (cksum/cksum.cc:60-72) */
  method Fincrc(crcIn: bv32, size: nat) returns (s: bv32)
    ensures Reg(!s) == Divided(Reg(crcIn), Chars(Octets(size)))
  {
    s := crcIn;
    var n := size;
    while n != 0
      invariant Divided(Reg(s), Chars(Octets(n))) == Divided(Reg(crcIn), Chars(Octets(size)))
    {
      var c := n % 256;
      assert Octets(n)[1..] == Octets(n / 256) && Chars(Octets(n))[1..] == Chars(Octets(n / 256));
      DividedOne(s, Chars(Octets(n)));
      n := n / 256;
      s := TakeByte(s, c as bv8);
    }
    NotNot(s);
    s := !s;
  }

  /** What a call of read gives: an error, or some bytes; no bytes means the end. */
  datatype Read = Failed | Got(bytes: seq<bv8>)

  /** The bytes before the end, or a failure met before it. */
  datatype Stream = Broken | Whole(bytes: seq<bv8>)

  function StreamOf(calls: seq<Read>): Stream {
    if calls == [] || calls[0] == Got([]) then Whole([])
    else if calls[0].Failed? then Broken
    else match StreamOf(calls[1..])
      case Broken => Broken
      case Whole(rest) => Whole(calls[0].bytes + rest)
  }

  lemma SizeAdds(done: seq<bv8>, more: seq<bv8>, bytes: nat)
    requires bytes == |done| % SIZE_RANGE
    ensures (bytes + |more|) % SIZE_RANGE == |done + more| % SIZE_RANGE
  {
  }

  /** What was read, with the rest of the stream behind it. */
  function Prepend(done: seq<bv8>, s: Stream): Stream {
    match s
    case Broken => Broken
    case Whole(rest) => Whole(done + rest)
  }

  /** After k calls the bytes read so far are done. */
  ghost predicate ReadSoFar(calls: seq<Read>, k: nat, done: seq<bv8>) {
    k <= |calls| && Prepend(done, StreamOf(calls[k..])) == StreamOf(calls)
  }

  lemma ReadMore(calls: seq<Read>, k: nat, done: seq<bv8>)
    requires ReadSoFar(calls, k, done) && k < |calls| && calls[k].Got? && calls[k].bytes != []
    ensures ReadSoFar(calls, k + 1, done + calls[k].bytes)
  {
    assert calls[k..][1..] == calls[k + 1..];
    match StreamOf(calls[k + 1..])
    case Broken =>
    case Whole(rest) => assert done + (calls[k].bytes + rest) == done + calls[k].bytes + rest;
  }

  lemma ReadStart(calls: seq<Read>)
    ensures ReadSoFar(calls, 0, [])
  {
    assert calls[0..] == calls;
    match StreamOf(calls)
    case Broken =>
    case Whole(rest) => assert [] + rest == rest;
  }

  lemma ReadEnd(calls: seq<Read>, k: nat, done: seq<bv8>)
    requires ReadSoFar(calls, k, done)
    ensures k < |calls| && calls[k].Failed? ==> StreamOf(calls) == Broken
    ensures k == |calls| || calls[k] == Got([]) ==> StreamOf(calls) == Whole(done)
  {
    assert done + [] == done;
  }

  lemma CksumIs(m: seq<bv8>, crc: bv32)
    ensures IsCksum(m, crc) <==> Reg(!crc) == Divided(Divided(ZERO, m), Chars(Octets(|m| % SIZE_RANGE)))
  {
    RemainderIsDivision(MsgBits(Extended(m)), Reg(!crc));
    DividedConcat(ZERO, m, Chars(Octets(|m| % SIZE_RANGE)));
  }

  /** The body of the loop (cksum/cksum.cc:90-91). */
  method TakeRead(crcIn: bv32, bytesIn: nat, buf: seq<bv8>, ghost done: seq<bv8>) returns (crc: bv32, bytes: nat)
    requires Reg(crcIn) == Divided(ZERO, done) && bytesIn == |done| % SIZE_RANGE
    ensures Reg(crc) == Divided(ZERO, done + buf) && bytes == |done + buf| % SIZE_RANGE
  {
    DividedConcat(ZERO, done, buf);
    SizeAdds(done, buf, bytesIn);
    crc := Updcrc(crcIn, buf);
    bytes := (bytesIn + |buf|) % SIZE_RANGE;
  }

  /** The read loop of cksum_fd (cksum/cksum.cc:74-94): however the stream is cut, the result is
      the checksum of the whole and its length. */
  method CksumFd(calls: seq<Read>) returns (failed: bool, crc: bv32, bytes: nat)
    ensures failed <==> StreamOf(calls) == Broken
    ensures !failed ==> IsCksum(StreamOf(calls).bytes, crc) && bytes == |StreamOf(calls).bytes| % SIZE_RANGE
  {
    failed, crc, bytes := false, 0, 0;
    var k := 0;
    ghost var done: seq<bv8> := [];
    ReadStart(calls);
    RegZero();
    while k < |calls| && calls[k] != Got([])
      invariant !failed && ReadSoFar(calls, k, done)
      invariant Reg(crc) == Divided(ZERO, done) && bytes == |done| % SIZE_RANGE
    {
      ReadEnd(calls, k, done);
      if calls[k].Failed? {
        failed := true;
        return;
      }
      ReadMore(calls, k, done);
      crc, bytes := TakeRead(crc, bytes, calls[k].bytes, done);
      done := done + calls[k].bytes;
      k := k + 1;
    }
    ReadEnd(calls, k, done);
    crc := Fincrc(crc, bytes);
    CksumIs(done, crc);
  }

  // ----- what the number is -----

  /** A message has one checksum. */
  lemma CksumUnique(m: seq<bv8>, crc: bv32, crc': bv32)
    requires IsCksum(m, crc) && IsCksum(m, crc')
    ensures crc == crc'
  {
    RemainderUnique(MsgBits(Extended(m)), Reg(!crc), Reg(!crc'));
    RegInjective(!crc, !crc');
    NotNot(crc);
    NotNot(crc');
  }

  /** The octets spell the length, and without a leading zero: no other length ends the same way. */
  lemma {:induction false} OctetsSpell(n: nat)
    ensures LE(Octets(n)) == n
    ensures Octets(n) != [] ==> Octets(n)[|Octets(n)| - 1] != 0
  {
    if n != 0 {
      OctetsSpell(n / 256);
      assert Octets(n)[1..] == Octets(n / 256);
      if n / 256 == 0 {
        assert Octets(n) == [n % 256];
      }
    }
  }

  lemma SmallSize(n: nat)
    requires n < 0x1_0000_0000_0000_0000
    ensures n % SIZE_RANGE == n
  {
  }

  /** Octet i of the length goes in as it is. */
  lemma {:induction false} CharsAre(octets: seq<byte>, i: nat)
    requires i < |octets|
    ensures i < |Chars(octets)| && Chars(octets)[i] == octets[i] as bv8
  {
    if i > 0 {
      CharsAre(octets[1..], i - 1);
    }
  }

  /** What stands behind the message is its length, up to 2^64 - 1 bytes. */
  lemma LengthBehind(m: seq<bv8>, t: seq<bv8>)
    requires |m| < 0x1_0000_0000_0000_0000 && t == Chars(Octets(|m|))
    ensures Extended(m) == m + t
  {
    SmallSize(|m|);
  }

  lemma NothingDivides(m: seq<bv8>)
    requires m == []
    ensures IsRemainder(MsgBits(Extended(m)), ZERO)
  {
    assert MsgBits(Extended(m)) == [];
    RemainderIsDivision([], ZERO);
  }

  lemma AllOnes(crc: bv32)
    requires crc == 0xffff_ffff
    ensures !crc == 0
  {
  }

  /** The checksum of nothing. */
  lemma EmptyCksum(crc: bv32)
    requires crc == 0xffff_ffff
    ensures IsCksum([], crc)
  {
    AllOnes(crc);
    RegZero();
    NothingDivides([]);
  }

  // ----- errors it finds -----

  /** Two messages of one length whose bits differ, and only within 32 consecutive places, have
      different checksums. */
  lemma BurstFound(a: seq<bv8>, b: seq<bv8>, i: nat, crc: bv32, crc': bv32)
    requires |a| == |b| && Burst(MsgBits(a), MsgBits(b), i)
    requires IsCksum(a, crc) && IsCksum(b, crc')
    ensures crc != crc'
  {
    var n := Chars(Octets(|a| % SIZE_RANGE));
    MsgBitsConcat(a, n);
    MsgBitsConcat(b, n);
    BurstLonger(MsgBits(a), MsgBits(b), MsgBits(n), i);
    BurstShows(ZERO, MsgBits(a + n), MsgBits(b + n), i);
    RemainderIsDivision(MsgBits(a + n), Reg(!crc));
    RemainderIsDivision(MsgBits(b + n), Reg(!crc'));
  }

  lemma BurstLonger(a: seq<bool>, b: seq<bool>, t: seq<bool>, i: nat)
    requires Burst(a, b, i)
    ensures Burst(a + t, b + t, i)
  {
    assert (a + t)[..|a|] == a && (b + t)[..|b|] == b;
  }

  lemma EightMasks()
    ensures Mask(7) == 0x80 && Mask(6) == 0x40 && Mask(5) == 0x20 && Mask(4) == 0x10
    ensures Mask(3) == 8 && Mask(2) == 4 && Mask(1) == 2 && Mask(0) == 1
  {
  }

  lemma SameWord(c: bv8, d: bv8)
    requires ((c as bv32) & 0x80 != 0) == ((d as bv32) & 0x80 != 0)
    requires ((c as bv32) & 0x40 != 0) == ((d as bv32) & 0x40 != 0)
    requires ((c as bv32) & 0x20 != 0) == ((d as bv32) & 0x20 != 0)
    requires ((c as bv32) & 0x10 != 0) == ((d as bv32) & 0x10 != 0)
    requires ((c as bv32) & 8 != 0) == ((d as bv32) & 8 != 0)
    requires ((c as bv32) & 4 != 0) == ((d as bv32) & 4 != 0)
    requires ((c as bv32) & 2 != 0) == ((d as bv32) & 2 != 0)
    requires ((c as bv32) & 1 != 0) == ((d as bv32) & 1 != 0)
    ensures c == d
  {
  }

  lemma ByteBitIs(c: bv8, k: nat)
    requires k < 8
    ensures ByteBits(c)[k] <==> (c as bv32) & Mask(7 - k) != 0
  {
  }

  lemma ByteBitsInjective(c: bv8, d: bv8)
    requires ByteBits(c) == ByteBits(d)
    ensures c == d
  {
    EightMasks();
    ByteBitIs(c, 0); ByteBitIs(c, 1); ByteBitIs(c, 2); ByteBitIs(c, 3);
    ByteBitIs(c, 4); ByteBitIs(c, 5); ByteBitIs(c, 6); ByteBitIs(c, 7);
    ByteBitIs(d, 0); ByteBitIs(d, 1); ByteBitIs(d, 2); ByteBitIs(d, 3);
    ByteBitIs(d, 4); ByteBitIs(d, 5); ByteBitIs(d, 6); ByteBitIs(d, 7);
    SameWord(c, d);
  }

  lemma {:induction false} MsgBitsInjective(a: seq<bv8>, b: seq<bv8>)
    requires |a| == |b| && MsgBits(a) == MsgBits(b)
    ensures a == b
  {
    if a != [] {
      assert MsgBits(a)[..8] == ByteBits(a[0]) && MsgBits(a)[8..] == MsgBits(a[1..]);
      assert MsgBits(b)[..8] == ByteBits(b[0]) && MsgBits(b)[8..] == MsgBits(b[1..]);
      ByteBitsInjective(a[0], b[0]);
      MsgBitsInjective(a[1..], b[1..]);
      assert a == [a[0]] + a[1..] && b == [b[0]] + b[1..];
    }
  }

  /** Two messages that differ only inside four consecutive bytes have different checksums. */
  lemma FourBytesFound(head: seq<bv8>, u: seq<bv8>, v: seq<bv8>, tail: seq<bv8>, crc: bv32, crc': bv32)
    requires |u| == |v| <= 4 && u != v
    requires IsCksum(head + u + tail, crc) && IsCksum(head + v + tail, crc')
    ensures crc != crc'
  {
    MsgBitsConcat(head + u, tail);
    MsgBitsConcat(head, u);
    MsgBitsConcat(head + v, tail);
    MsgBitsConcat(head, v);
    if MsgBits(u) == MsgBits(v) {
      MsgBitsInjective(u, v);
    }
    BurstInside(MsgBits(head), MsgBits(u), MsgBits(v), MsgBits(tail));
    BurstFound(head + u + tail, head + v + tail, 8 * |head|, crc, crc');
  }

  lemma BurstInside(h: seq<bool>, u: seq<bool>, v: seq<bool>, t: seq<bool>)
    requires |u| == |v| <= 32 && u != v
    ensures Burst(h + u + t, h + v + t, |h|)
  {
    assert (h + u + t)[|h|..|h| + |u|] == u && (h + v + t)[|h|..|h| + |u|] == v;
  }
}
