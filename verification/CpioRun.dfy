/** Runs of the cpio machine: they do not see how the archive is cut into buffers, and blocks of
    bytes may be consumed at once. */
module CpioRun {
  import opened Bits
  import opened Pax
  import opened CpioSpec
  import opened Seqs

  lemma {:induction false} FeedConcat(oct: Octal, z: Cpio, a: seq<byte>, b: seq<byte>)
    requires CpioOk(z)
    ensures Feed(oct, Feed(oct, z, a), b) == Feed(oct, z, a + b)
    decreases |a|
  {
    if a == [] {
      assert a + b == b;
    } else if !Stopped(z) {
      assert (a + b)[1..] == a[1..] + b;
      FeedConcat(oct, Feed1(oct, z, a[0]), a[1..], b);
    }
  }

  function FeedEach(oct: Octal, z: Cpio, bufs: seq<seq<byte>>): Cpio
    requires CpioOk(z)
    decreases |bufs|
  {
    if bufs == [] then z else FeedEach(oct, Feed(oct, z, bufs[0]), bufs[1..])
  }

  lemma {:induction false} FeedWhole(oct: Octal, z: Cpio, bufs: seq<seq<byte>>)
    requires CpioOk(z)
    ensures FeedEach(oct, z, bufs) == Feed(oct, z, Concat(bufs))
    decreases |bufs|
  {
    if bufs != [] {
      FeedWhole(oct, Feed(oct, z, bufs[0]), bufs[1..]);
      FeedConcat(oct, z, bufs[0], Concat(bufs[1..]));
    }
  }

  /** Any two ways of cutting an archive into buffers give the same trace, the same final state, and
      an error, if any, at the same byte. */
  lemma CutsDoNotMatter(oct: Octal, z: Cpio, bufs: seq<seq<byte>>, bufs': seq<seq<byte>>)
    requires CpioOk(z) && Concat(bufs) == Concat(bufs')
    ensures FeedEach(oct, z, bufs) == FeedEach(oct, z, bufs')
  {
    FeedWhole(oct, z, bufs);
    FeedWhole(oct, z, bufs');
  }

  /** A turn that consumes nothing may be taken early, if there is a next byte. */
  lemma FeedMove(oct: Octal, z: Cpio, s: seq<byte>)
    requires CpioOk(z) && Silent(z) && s != []
    ensures CpioOk(Move(z)) && Feed(oct, Move(z), s) == Feed(oct, z, s)
  {
    MoveRank(z);
    assert Settle(z) == Settle(Move(z));
    if Stopped(Move(z)) {
      assert Settle(Move(z)) == Move(z);
    }
  }

  lemma HdrTwice(z: Cpio, a: seq<byte>, s: seq<byte>)
    requires z.hdrPos + |a| + |s| <= |z.hdr|
    ensures HdrCopied(HdrCopied(z, a), s) == HdrCopied(z, a + s)
  {
    SpliceTwice(z.hdr, z.hdrPos, a, s);
    assert |a + s| == |a| + |s|;
  }

  lemma FeedHdrOne(oct: Octal, z: Cpio, b: byte)
    requires CpioOk(z) && z.st == CS_HDR && z.rc == PXE_NONE && z.hdrPos + 1 < HDR_LEN
    ensures Feed1(oct, z, b) == HdrCopied(z, [b]) && CpioOk(HdrCopied(z, [b])) && !Stopped(HdrCopied(z, [b]))
  {
  }

  lemma {:induction false} FeedHdr(oct: Octal, z: Cpio, s: seq<byte>)
    requires CpioOk(z) && z.st == CS_HDR && z.rc == PXE_NONE && s != [] && z.hdrPos + |s| <= HDR_LEN
    ensures Feed(oct, z, s) == TakeHdr(oct, z, s)
    decreases |s|
  {
    assert s == [s[0]] + s[1..];
    if |s| == 1 {
      assert s == [s[0]];
    } else {
      FeedHdrOne(oct, z, s[0]);
      FeedHdr(oct, HdrCopied(z, [s[0]]), s[1..]);
      HdrTwice(z, [s[0]], s[1..]);
    }
  }

  lemma NameTwice(z: Cpio, a: seq<byte>, s: seq<byte>)
    requires z.namePos + |a| + |s| <= |z.fi.pathname|
    ensures NameCopied(NameCopied(z, a), s) == NameCopied(z, a + s)
  {
    SpliceTwice(z.fi.pathname, z.namePos, a, s);
  }

  lemma FeedNameOne(oct: Octal, z: Cpio, b: byte)
    requires CpioOk(z) && z.st == CS_NAME && z.rc == PXE_NONE && z.namePos + 1 < z.nameLen
    ensures Feed1(oct, z, b) == NameCopied(z, [b]) && CpioOk(NameCopied(z, [b])) && !Stopped(NameCopied(z, [b]))
  {
  }

  lemma {:induction false} FeedName(oct: Octal, z: Cpio, s: seq<byte>)
    requires CpioOk(z) && z.st == CS_NAME && z.rc == PXE_NONE && s != [] && z.namePos + |s| <= z.nameLen
    ensures Feed(oct, z, s) == TakeName(z, s)
    decreases |s|
  {
    assert s == [s[0]] + s[1..];
    if |s| == 1 {
      assert s == [s[0]];
    } else {
      FeedNameOne(oct, z, s[0]);
      FeedName(oct, NameCopied(z, [s[0]]), s[1..]);
      NameTwice(z, [s[0]], s[1..]);
    }
  }

  lemma DataTwice(z: Cpio, a: seq<byte>, s: seq<byte>)
    requires |a| + |s| <= z.fileBytes
    ensures DataTaken(DataTaken(z, a), s) == DataTaken(z, a + s)
  {
    EmitJoins(z.trace, a, s);
  }

  lemma FeedDataOne(oct: Octal, z: Cpio, b: byte)
    requires CpioOk(z) && z.st == CS_DATA && z.rc == PXE_NONE && 1 < z.fileBytes
    ensures Feed1(oct, z, b) == DataTaken(z, [b]) && CpioOk(DataTaken(z, [b])) && !Stopped(DataTaken(z, [b]))
  {
  }

  lemma {:induction false} FeedData(oct: Octal, z: Cpio, s: seq<byte>)
    requires CpioOk(z) && z.st == CS_DATA && z.rc == PXE_NONE && s != [] && |s| <= z.fileBytes
    ensures Feed(oct, z, s) == TakeData(z, s)
    decreases |s|
  {
    assert s == [s[0]] + s[1..];
    if |s| == 1 {
      assert s == [s[0]];
    } else {
      FeedDataOne(oct, z, s[0]);
      FeedData(oct, DataTaken(z, [s[0]]), s[1..]);
      DataTwice(z, [s[0]], s[1..]);
    }
  }
}
