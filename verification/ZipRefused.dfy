/** What the reader of pax/zip.cc refuses: where it stops after a good archive, with which error,
    and which calls it has made by then. */
module ZipRefused {
  import opened Bits
  import opened Pax
  import opened ZipSpec
  import opened ZipRun
  import opened ZipRecords
  import opened ZipRoundTrip
  import opened ZipLayout
  import opened ZipCrc

  lemma {:induction false} RunSettled(z: Zip, s: seq<byte>)
    requires ZipOk(z)
    ensures Run(z, s) == Run(Settle(z), s)
    decreases z.rc == PXE_NONE, Rank(z)
  {
    if Silent(z) {
      MoveRank(z);
      RunMove(z, s);
      RunSettled(Move(z), s);
    }
  }

  /** A run that has stopped takes nothing more. */
  lemma RunStopped(z: Zip, s: seq<byte>)
    requires ZipOk(z) && z.rc != PXE_NONE
    ensures Run(z, s) == z
  {
  }

  /** Where a good archive leaves the reader. */
  lemma AfterArchive(ps: seq<Part>, s: seq<byte>) returns (w: Zip)
    requires PartsOk(ps)
    ensures AtRecord(w) && w.trace == ArchiveCalls(ps) && w.total == |Archive(ps)|
    ensures Run(START, Archive(ps) + s) == Run(w, s)
  {
    WrittenIsRead(ps);
    w := Run(START, Archive(ps));
    RunSettled(Feed(START, Archive(ps)), s);
    FeedConcat(START, Archive(ps), s);
    NoErrorAllRead(START, Archive(ps));
  }

  /** A copy, and the turn that looks at what was copied. */
  lemma CopyThenMove(z: Zip, a: seq<byte>, s: seq<byte>)
    requires ZipOk(z) && Copies(z.st) && z.rc == PXE_NONE && z.pos == 0 && |a| == Need(z)
    requires Silent(Copy(z, a))
    ensures ZipOk(Copy(z, a)) && ZipOk(Move(Copy(z, a))) && Run(z, a + s) == Run(Move(Copy(z, a)), s)
  {
    RunCopy(z, a, s);
    RunMove(Copy(z, a), s);
  }

  /** Four bytes that are no signature. */
  lemma BadSignature(ps: seq<Part>, sig: seq<byte>, s: seq<byte>)
    requires PartsOk(ps) && |sig| == 4
    requires sig != [0x50, 0x4b, 3, 4] && sig != [0x50, 0x4b, 1, 2] && sig != [0x50, 0x4b, 5, 6]
    ensures var z := Run(START, Archive(ps) + (sig + s));
            z.rc == PXE_GARBAGE && z.trace == ArchiveCalls(ps) && z.total == |Archive(ps)| + 4
  {
    var w := AfterArchive(ps, sig + s);
    SigBytes(sig);
    WholeFill(w.bufs.sig, sig);
    CopyThenMove(w, sig, s);
    RunStopped(Move(Copy(w, sig)), s);
  }

  /** The header that follows a local signature. */
  lemma HdrTaken(z: Zip, h: LocalHdr, hdr: seq<byte>)
    requires Onward(z, z, ZS_FILE_HDR) && hdr == LocalBytes(h) && |hdr| == 26
    ensures Silent(Copy(z, hdr)) && ZipOk(Copy(z, hdr))
    ensures var w := Move(Copy(z, hdr));
            && ZipOk(w) && w.trace == z.trace && w.total == z.total + 26 && w.bufs.hdr == hdr
            && (h.comp != 0 && h.comp != 8 ==> w.rc == PXE_MISC_ERR)
            && (h.comp == 0 || h.comp == 8 ==> Onward(w, w, ZS_FILE_NAME) && Prepared(w))
            && (h.comp == 8 ==> w.dataBytes == h.sizeC)
  {
    LocalRead(h);
    WholeFill(z.bufs.hdr, hdr);
  }

  lemma AfterSig(ps: seq<Part>, s: seq<byte>) returns (w: Zip)
    requires PartsOk(ps)
    ensures Onward(w, w, ZS_FILE_HDR) && w.trace == ArchiveCalls(ps) && w.total == |Archive(ps)| + 4
    ensures Run(START, Archive(ps) + ([0x50, 0x4b, 3, 4] + s)) == Run(w, s)
  {
    var sig: seq<byte> := [0x50, 0x4b, 3, 4];
    var z := AfterArchive(ps, sig + s);
    SigBytes(sig);
    WholeFill(z.bufs.sig, sig);
    CopyThenMove(z, sig, s);
    w := Move(Copy(z, sig));
  }

  /** The signature and a local header. */
  lemma AfterHdr(ps: seq<Part>, h: LocalHdr, s: seq<byte>) returns (w: Zip)
    requires PartsOk(ps)
    ensures ZipOk(w) && w.trace == ArchiveCalls(ps) && w.total == |Archive(ps)| + 30 && w.bufs.hdr == LocalBytes(h)
    ensures h.comp != 0 && h.comp != 8 ==> w.rc == PXE_MISC_ERR
    ensures h.comp == 0 || h.comp == 8 ==> Onward(w, w, ZS_FILE_NAME) && Prepared(w)
    ensures h.comp == 8 ==> w.dataBytes == h.sizeC
    ensures Run(START, Archive(ps) + ([0x50, 0x4b, 3, 4] + (LocalBytes(h) + s))) == Run(w, s)
  {
    var hdr := LocalBytes(h);
    LocalRead(h);
    var z := AfterSig(ps, hdr + s);
    HdrTaken(z, h, hdr);
    CopyThenMove(z, hdr, s);
    w := Move(Copy(z, hdr));
  }

  /** A compression method other than 0 and 8: the file is not announced. */
  lemma BadMethod(ps: seq<Part>, h: LocalHdr, s: seq<byte>)
    requires PartsOk(ps) && h.comp != 0 && h.comp != 8
    ensures var z := Run(START, Archive(ps) + ([0x50, 0x4b, 3, 4] + (LocalBytes(h) + s)));
            z.rc == PXE_MISC_ERR && z.trace == ArchiveCalls(ps) && z.total == |Archive(ps)| + 30
  {
    var w := AfterHdr(ps, h, s);
    RunStopped(w, s);
  }

  /** The name and the extra field after a header of method 0 or 8. */
  lemma AfterExtra(z: Zip, h: LocalHdr, name: seq<byte>, extra: seq<byte>, s: seq<byte>) returns (w: Zip)
    requires Onward(z, z, ZS_FILE_NAME) && Prepared(z) && z.bufs.hdr == LocalBytes(h)
    requires |name| == h.nameLen && |extra| == h.extraLen
    ensures Onward(z, w, ZS_FLUSH_HDR) && Prepared(w) && w.bufs.hdr == z.bufs.hdr && w.bufs.name == name
    ensures Extra(w.bufs) == extra && w.total == z.total + |name| + |extra| && w.dataBytes == z.dataBytes
    ensures Run(z, name + (extra + s)) == Run(w, s)
  {
    LocalRead(h);
    RunCopy(z, name, extra + s);
    WholeFill(z.bufs.name, name);
    var w1 := Copy(z, name);
    RunCopy(w1, extra, s);
    CopyExtra(w1, extra);
    w := Copy(w1, extra);
  }

  /** A local header up to its data. */
  function HeadBytes(h: LocalHdr, name: seq<byte>, extra: seq<byte>, s: seq<byte>): seq<byte> {
    [0x50, 0x4b, 3, 4] + (LocalBytes(h) + (name + (extra + s)))
  }

  lemma NotFlushed(c: Zip, extra: seq<byte>)
    requires Onward(c, c, ZS_FLUSH_HDR) && Prepared(c) && Extra(c.bufs) == extra && ExtraLen(c.bufs.hdr) == |extra|
    requires forall xs, pad :: EntriesOk(xs) && |pad| < 4 ==> extra != EntriesBytes(xs) + pad
    ensures ZipOk(Move(c)) && Move(c).rc == PXE_GARBAGE && Move(c).trace == c.trace
  {
    if Extras(c.fi, extra).0 {
      var xs, pad := ExtrasWritten(c.fi, extra);
      assert false;
    }
  }

  /** An extra field that is no list of entries: again the file is not announced. */
  lemma BadExtra(ps: seq<Part>, h: LocalHdr, name: seq<byte>, extra: seq<byte>, s: seq<byte>)
    requires PartsOk(ps) && (h.comp == 0 || h.comp == 8) && |name| == h.nameLen && |extra| == h.extraLen
    requires forall xs, pad :: EntriesOk(xs) && |pad| < 4 ==> extra != EntriesBytes(xs) + pad
    ensures var z := Run(START, Archive(ps) + HeadBytes(h, name, extra, s));
            z.rc == PXE_GARBAGE && z.trace == ArchiveCalls(ps)
  {
    var w := AfterHdr(ps, h, name + (extra + s));
    w := AfterExtra(w, h, name, extra, s);
    LocalRead(h);
    NotFlushed(w, extra);
    RunMove(w, s);
    RunStopped(Move(w), s);
  }

  lemma Flushed(c: Zip, h: LocalHdr, name: seq<byte>, xs: seq<Entry>, pad: seq<byte>)
    requires Onward(c, c, ZS_FLUSH_HDR) && Prepared(c) && c.bufs.hdr == LocalBytes(h) && c.bufs.name == name
    requires (h.comp == 0 || h.comp == 8) && EntriesOk(xs) && |pad| < 4 && Extra(c.bufs) == EntriesBytes(xs) + pad
    ensures var w := Move(c);
            && ZipOk(w) && w.rc == PXE_NONE && w.st == ZS_DATA && w.pos == 0 && w.bufs == c.bufs
            && w.trace == c.trace + [FileStart(Described(h, name, xs))]
            && w.dataBytes == c.dataBytes && (h.comp == 0 ==> w.dataBytes == h.sizeU) && w.crc == 0
  {
    LocalRead(h);
    ExtrasRead(c.fi, xs, pad);
  }

  /** A good one: the file is announced. */
  lemma AfterHead(ps: seq<Part>, h: LocalHdr, name: seq<byte>, xs: seq<Entry>, pad: seq<byte>, s: seq<byte>)
    returns (w: Zip)
    requires PartsOk(ps) && (h.comp == 0 || h.comp == 8) && |name| == h.nameLen
    requires EntriesOk(xs) && |pad| < 4 && |EntriesBytes(xs)| + |pad| == h.extraLen
    ensures ZipOk(w) && w.rc == PXE_NONE && w.st == ZS_DATA && w.pos == 0 && w.bufs.hdr == LocalBytes(h)
    ensures w.trace == ArchiveCalls(ps) + [FileStart(Described(h, name, xs))]
    ensures w.dataBytes == (if h.comp == 0 then h.sizeU else h.sizeC) && w.crc == 0
    ensures Run(START, Archive(ps) + HeadBytes(h, name, EntriesBytes(xs) + pad, s)) == Run(w, s)
  {
    var extra := EntriesBytes(xs) + pad;
    var c := AfterHdr(ps, h, name + (extra + s));
    c := AfterExtra(c, h, name, extra, s);
    Flushed(c, h, name, xs, pad);
    RunMove(c, s);
    w := Move(c);
  }

  /** Method 8 is announced, and what its header says is its compressed size is left to zlib. */
  lemma Compressed(ps: seq<Part>, h: LocalHdr, name: seq<byte>, xs: seq<Entry>, pad: seq<byte>, s: seq<byte>)
    requires PartsOk(ps) && h.comp == 8 && |name| == h.nameLen
    requires EntriesOk(xs) && |pad| < 4 && |EntriesBytes(xs)| + |pad| == h.extraLen
    ensures var z := Run(START, Archive(ps) + HeadBytes(h, name, EntriesBytes(xs) + pad, s));
            && z.rc == INFLATE && z.dataBytes == h.sizeC && z.crc == 0
            && z.trace == ArchiveCalls(ps) + [FileStart(Described(h, name, xs))]
  {
    var w := AfterHead(ps, h, name, xs, pad, s);
    LocalRead(h);
    RunMove(w, s);
    RunStopped(Move(w), s);
  }

  /** Stored data with another checksum: it has been delivered, but the file does not end. */
  lemma BadChecksum(ps: seq<Part>, h: LocalHdr, name: seq<byte>, xs: seq<Entry>, pad: seq<byte>, data: seq<byte>,
                    s: seq<byte>)
    requires PartsOk(ps) && h.comp == 0 && |name| == h.nameLen && |data| == h.sizeU && Crc32(0, data) != h.crc
    requires EntriesOk(xs) && |pad| < 4 && |EntriesBytes(xs)| + |pad| == h.extraLen
    ensures var z := Run(START, Archive(ps) + HeadBytes(h, name, EntriesBytes(xs) + pad, data + s));
            && z.rc == PXE_GARBAGE
            && z.trace == ArchiveCalls(ps) + [FileStart(Described(h, name, xs)), FileData(data)]
  {
    var start := FileStart(Described(h, name, xs));
    var w := AfterHead(ps, h, name, xs, pad, data + s);
    LocalRead(h);
    RunStore(w, data, s);
    EmitMore(w.trace, ArchiveCalls(ps), start, [], data);
    assert [] + data == data;
    RunStopped(Store(w, data), s);
  }

  /** A member whose data were damaged inside four consecutive bytes is delivered as it is, but the
      reader stops with PXE_GARBAGE before its end is called. */
  lemma DamageFound(ps: seq<Part>, m: Part, u: seq<byte>, a: seq<byte>, b: seq<byte>, v: seq<byte>, s: seq<byte>)
    requires PartsOk(ps) && PartOk(m) && m.Member? && m.data == a + u + b && |u| == |v| <= 4 && u != v
    ensures var z := Run(START, Archive(ps) + HeadBytes(m.hdr, m.name, EntriesBytes(m.extra) + m.pad, a + v + b + s));
            && z.rc == PXE_GARBAGE
            && z.trace == ArchiveCalls(ps) + [FileStart(Described(m.hdr, m.name, m.extra)), FileData(a + v + b)]
  {
    FourBytesFound(a, u, v, b);
    BadChecksum(ps, m.hdr, m.name, m.extra, m.pad, a + v + b, s);
  }

  /** Were bytes of a member left behind its data, the whole rest of the archive would be skipped: what
      is skipped is not taken off their number (pax/zip.cc:634-643). */
  lemma {:induction false} SkipsTheRest(z: Zip, s: seq<byte>)
    requires ZipOk(z) && z.rc == PXE_NONE && z.st == ZS_DATA_SKIP && z.dataBytes > 0
    ensures Run(z, s) == z.(total := z.total + |s|)
    decreases |s|
  {
    if s != [] {
      SkipsTheRest(z.(total := z.total + 1), s[1..]);
    }
  }
}
