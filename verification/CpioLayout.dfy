/** cpio archives written field by field from struct hdr_cpio (pax/cpio.cc:43-55), and that the
    reader accepts exactly those. */
module CpioLayout {
  import opened Bits
  import opened Layout
  import opened Pax
  import opened Seqs
  import opened CpioSpec
  import opened CpioRun
  import opened CpioRecords
  import opened CpioRoundTrip

  /** The fields behind the magic number. */
  datatype Raw = Raw(dev: seq<byte>, ino: seq<byte>, mode: seq<byte>, uid: seq<byte>, gid: seq<byte>,
                     nlink: seq<byte>, rdev: seq<byte>, mtime: seq<byte>, namesize: seq<byte>, filesize: seq<byte>)

  predicate Widths(h: Raw) {
    && |h.dev| == 6 && |h.ino| == 6 && |h.mode| == 6 && |h.uid| == 6 && |h.gid| == 6 && |h.nlink| == 6
    && |h.rdev| == 6 && |h.mtime| == 11 && |h.namesize| == 6 && |h.filesize| == 11
  }

  /** "070707" comes first. */
  function Fields(h: Raw): seq<seq<byte>> {
    [[48, 55, 48, 55, 48, 55], h.dev, h.ino, h.mode, h.uid, h.gid, h.nlink, h.rdev, h.mtime, h.namesize, h.filesize]
  }

  function Bytes(h: Raw): seq<byte> { Concat(Fields(h)) }

  lemma Begin(h: Raw)
    requires Widths(h)
    ensures var fs := Fields(h);
            && Begins(fs, 0) == 0 && Begins(fs, 1) == 6 && Begins(fs, 2) == 12 && Begins(fs, 3) == 18
            && Begins(fs, 4) == 24 && Begins(fs, 5) == 30 && Begins(fs, 6) == 36 && Begins(fs, 7) == 42
            && Begins(fs, 8) == 48 && Begins(fs, 9) == 59 && Begins(fs, 10) == 65 && Begins(fs, 11) == 76
  {
    var fs := Fields(h);
    BeginsNext(fs, 0, 0);
    BeginsNext(fs, 1, 6);
    BeginsNext(fs, 2, 12);
    BeginsNext(fs, 3, 18);
    BeginsNext(fs, 4, 24);
    BeginsNext(fs, 5, 30);
    BeginsNext(fs, 6, 36);
    BeginsNext(fs, 7, 42);
    BeginsNext(fs, 8, 48);
    BeginsNext(fs, 9, 59);
    BeginsNext(fs, 10, 65);
  }

  /** The fields lie in the header where the reader looks for them. */
  lemma FieldsLie(h: Raw)
    requires Widths(h)
    ensures var hdr := Bytes(h);
            && |hdr| == 76 && Field(hdr, 0, 6) == [48, 55, 48, 55, 48, 55]
            && Field(hdr, 6, 6) == h.dev && Field(hdr, 12, 6) == h.ino && Field(hdr, 18, 6) == h.mode
            && Field(hdr, 24, 6) == h.uid && Field(hdr, 30, 6) == h.gid && Field(hdr, 36, 6) == h.nlink
            && Field(hdr, 42, 6) == h.rdev && Field(hdr, 48, 11) == h.mtime && Field(hdr, 59, 6) == h.namesize
            && Field(hdr, 65, 11) == h.filesize
  {
    var fs := Fields(h);
    LengthIs(fs);
    Begin(h);
    FieldIs(fs, 0, 0, 6);
    FieldIs(fs, 1, 6, 6);
    FieldIs(fs, 2, 12, 6);
    FieldIs(fs, 3, 18, 6);
    FieldIs(fs, 4, 24, 6);
    FieldIs(fs, 5, 30, 6);
    FieldIs(fs, 6, 36, 6);
    FieldIs(fs, 7, 42, 6);
    FieldIs(fs, 8, 48, 11);
    FieldIs(fs, 9, 59, 6);
    FieldIs(fs, 10, 65, 11);
  }

  /** The fields of a header. */
  function RawOf(hdr: seq<byte>): (h: Raw)
    requires |hdr| == 76
    ensures Widths(h)
  {
    Raw(hdr[6..12], hdr[12..18], hdr[18..24], hdr[24..30], hdr[30..36], hdr[36..42], hdr[42..48], hdr[48..59],
        hdr[59..65], hdr[65..76])
  }

  /** Any 76 bytes that begin with the magic number are such a header. */
  lemma Joined(hdr: seq<byte>)
    requires |hdr| == 76 && hdr[..6] == [48, 55, 48, 55, 48, 55]
    ensures Bytes(RawOf(hdr)) == hdr
  {
    Begin(RawOf(hdr));
    WholeIs(Fields(RawOf(hdr)), hdr);
  }

  /** The numbers that end in a signed variable are not negative, and the name is not too long. */
  predicate Good(oct: Octal, h: Raw) {
    Widths(h) && oct(h.mtime) >= 0 && 0 <= oct(h.namesize) <= 4096
  }

  function SizeOf(oct: Octal, h: Raw): nat { oct(h.filesize) % 0x1_0000_0000_0000_0000 }

  function Described(oct: Octal, h: Raw, name: seq<byte>): FileInfo {
    FileInfo(name, [], [], [], 0, 0, oct(h.dev) % 0x1_0000_0000_0000_0000, oct(h.ino) % 0x1_0000_0000_0000_0000,
             oct(h.mode) % 0x1_0000_0000, oct(h.nlink) % 0x1_0000_0000_0000_0000, oct(h.uid) % 0x1_0000_0000,
             oct(h.gid) % 0x1_0000_0000, oct(h.rdev) % 0x1_0000_0000_0000_0000, SizeOf(oct, h),
             UnixTime(oct(h.mtime)), 0, false)
  }

  /** What the reader takes from the fields. */
  lemma Read(oct: Octal, h: Raw, hdr: seq<byte>, name: seq<byte>)
    requires Widths(h) && hdr == Bytes(h)
    ensures |hdr| == 76 && (HdrOk(oct, hdr) <==> Good(oct, h))
    ensures NameSize(oct, hdr) == oct(h.namesize) && Size(oct, hdr) == SizeOf(oct, h)
    ensures FileOf(oct, hdr, name) == Described(oct, h, name)
  {
    FieldsLie(h);
  }

  // ----- archives -----

  datatype Part = Part(hdr: Raw, name: seq<byte>, data: seq<byte>)

  /** A name other than TRAILER!!!, and data as long as the header says. */
  predicate PartOk(oct: Octal, p: Part) {
    && Good(oct, p.hdr) && |p.name| == oct(p.hdr.namesize) && |p.data| == SizeOf(oct, p.hdr)
    && p.name != [84, 82, 65, 73, 76, 69, 82, 33, 33, 33]
  }

  predicate PartsOk(oct: Octal, ps: seq<Part>) {
    forall p <- ps :: PartOk(oct, p)
  }

  function PartCalls(oct: Octal, p: Part): seq<Event> {
    [FileStart(Described(oct, p.hdr, p.name))] + (if p.data == [] then [] else [FileData(p.data)]) + [FileEnd]
  }

  function PartBytes(p: Part): seq<byte> { Bytes(p.hdr) + p.name + p.data }

  function Archive(ps: seq<Part>): seq<byte> {
    if ps == [] then [] else Archive(ps[..|ps| - 1]) + PartBytes(ps[|ps| - 1])
  }

  function ArchiveCalls(oct: Octal, ps: seq<Part>): seq<Event> {
    if ps == [] then [] else ArchiveCalls(oct, ps[..|ps| - 1]) + PartCalls(oct, ps[|ps| - 1])
  }

  lemma PartIsMember(oct: Octal, p: Part)
    requires PartOk(oct, p)
    ensures var m := Member(Bytes(p.hdr), p.name, p.data);
            Sound(oct, m) && Encode(m) == PartBytes(p) && Calls(oct, m) == PartCalls(oct, p)
  {
    Read(oct, p.hdr, Bytes(p.hdr), p.name);
  }

  lemma MemberIsPart(oct: Octal, m: Member) returns (p: Part)
    requires Sound(oct, m)
    ensures PartOk(oct, p) && PartBytes(p) == Encode(m)
  {
    p := Part(RawOf(m.hdr), m.name, m.data);
    Joined(m.hdr);
    Read(oct, p.hdr, m.hdr, m.name);
  }

  lemma {:induction false} PartsAreMembers(oct: Octal, ps: seq<Part>) returns (ms: seq<Member>)
    requires PartsOk(oct, ps)
    ensures AllSound(oct, ms) && EncodeAll(ms) == Archive(ps) && CallsAll(oct, ms) == ArchiveCalls(oct, ps)
  {
    ms := [];
    if ps != [] {
      var p := ps[|ps| - 1];
      ms := PartsAreMembers(oct, ps[..|ps| - 1]);
      PartIsMember(oct, p);
      OneMore(oct, ms, Member(Bytes(p.hdr), p.name, p.data));
      ms := ms + [Member(Bytes(p.hdr), p.name, p.data)];
    }
  }

  lemma PartMore(oct: Octal, ps: seq<Part>, p: Part)
    ensures Archive(ps + [p]) == Archive(ps) + PartBytes(p)
    ensures PartsOk(oct, ps) && PartOk(oct, p) ==> PartsOk(oct, ps + [p])
  {
    assert (ps + [p])[..|ps|] == ps;
  }

  lemma {:induction false} MembersAreParts(oct: Octal, ms: seq<Member>) returns (ps: seq<Part>)
    requires AllSound(oct, ms)
    ensures PartsOk(oct, ps) && Archive(ps) == EncodeAll(ms)
  {
    ps := [];
    if ms != [] {
      ps := MembersAreParts(oct, ms[..|ms| - 1]);
      var p := MemberIsPart(oct, ms[|ms| - 1]);
      PartMore(oct, ps, p);
      ps := ps + [p];
    }
  }

  /** Every archive written from its fields is read to its end, with its members' calls. */
  lemma WrittenIsRead(oct: Octal, ps: seq<Part>)
    requires PartsOk(oct, ps)
    ensures var z := Run(oct, START, Archive(ps));
            z.rc == PXE_NONE && z.st == CS_HDR && z.hdrPos == 0 && z.trace == ArchiveCalls(oct, ps)
  {
    var ms := PartsAreMembers(oct, ps);
    ReadBack(oct, ms);
  }

  /** Bytes are read to the end of a member without an error exactly when they can be so written. */
  lemma ReadIsWritten(oct: Octal, input: seq<byte>)
    ensures var z := Run(oct, START, input);
            z.rc == PXE_NONE && z.st == CS_HDR && z.hdrPos == 0 <==>
            exists ps :: PartsOk(oct, ps) && Archive(ps) == input
  {
    var z := Run(oct, START, input);
    if z.rc == PXE_NONE && z.st == CS_HDR && z.hdrPos == 0 {
      Accepted(oct, input);
      var ms :| AllSound(oct, ms) && EncodeAll(ms) == input;
      var ps := MembersAreParts(oct, ms);
    }
    if ps :| PartsOk(oct, ps) && Archive(ps) == input {
      WrittenIsRead(oct, ps);
    }
  }

  /** A good header with the name TRAILER!!! ends the archive, whatever its size field says; what
      follows is not looked at. */
  lemma Trailer(oct: Octal, ps: seq<Part>, h: Raw, s: seq<byte>)
    requires PartsOk(oct, ps) && Good(oct, h) && oct(h.namesize) == 10
    ensures var z := Run(oct, START, Archive(ps) + Bytes(h) + [84, 82, 65, 73, 76, 69, 82, 33, 33, 33] + s);
            z.rc == PXE_NONE && z.st == CS_EOA && z.trace == ArchiveCalls(oct, ps)
  {
    var ms := PartsAreMembers(oct, ps);
    Read(oct, h, Bytes(h), []);
    TrailerStops(oct, ms, Bytes(h), s);
  }

  /** 76 bytes behind an archive that are no good header stop the run; behind a right magic number the
      fields before the name's length have been taken. */
  lemma BadHeader(oct: Octal, ps: seq<Part>, hdr: seq<byte>, s: seq<byte>)
    requires PartsOk(oct, ps) && |hdr| == 76
    requires hdr[..6] != [48, 55, 48, 55, 48, 55] || !Good(oct, RawOf(hdr))
    ensures var z := Run(oct, START, Archive(ps) + (hdr + s));
            && z.rc == PXE_GARBAGE && z.trace == ArchiveCalls(oct, ps)
            && (hdr[..6] == [48, 55, 48, 55, 48, 55] ==> z.fi == Described(oct, RawOf(hdr), []).(size := 0))
  {
    var ms := PartsAreMembers(oct, ps);
    var w := RunMembers(oct, ms, hdr + s);
    if hdr[..6] == [48, 55, 48, 55, 48, 55] {
      Joined(hdr);
      Read(oct, RawOf(hdr), hdr, []);
    }
    RunBadHdr(oct, w, hdr, s);
  }

  lemma RunBadHdr(oct: Octal, z: Cpio, hdr: seq<byte>, s: seq<byte>)
    requires AtMember(z) && |hdr| == HDR_LEN && !HdrOk(oct, hdr)
    ensures Run(oct, z, hdr + s).rc == PXE_GARBAGE && Run(oct, z, hdr + s).trace == z.trace
    ensures Field(hdr, 0, 6) == MAGIC ==> Run(oct, z, hdr + s).fi == EarlyInfo(oct, hdr)
  {
    FeedHdr(oct, z, hdr);
    assert Splice(z.hdr, 0, hdr) == hdr;
    RunBlock(oct, z, hdr, TakeHdr(oct, z, hdr), s);
  }
}
