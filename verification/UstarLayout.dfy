/** Header records written field by field from struct hdr_ustar (pax/ustar.cc:46-63), and what the
    reader takes from them. */
module UstarLayout {
  import opened Bits
  import opened Layout
  import opened Pax
  import opened Seqs
  import opened UstarSpec
  import opened UstarRun
  import opened UstarRecords

  // ----- the sum, and strings -----

  lemma {:induction false} SumConcat(a: seq<byte>, b: seq<byte>)
    ensures SumBytes(a + b) == SumBytes(a) + SumBytes(b)
  {
    if a == [] {
      assert a + b == b;
    } else {
      assert (a + b)[1..] == a[1..] + b;
      SumConcat(a[1..], b);
    }
  }

  /** The sum is that of the bytes, one by one. */
  lemma SumOne(b: byte)
    ensures SumBytes([]) == 0 && SumBytes([b]) == b
  {
    assert [b][1..] == [];
  }

  /** A string ends before its first NUL, or with its field. */
  lemma {:induction false} StrIs(s: seq<byte>)
    ensures Str(s) <= s && 0 !in Str(s) && (Str(s) == s || s[|Str(s)|] == 0)
  {
    if s != [] && s[0] != 0 {
      StrIs(s[1..]);
    }
  }

  /** An int is what is left of a long. */
  lemma SignedIs(x: int)
    ensures -0x8000_0000 <= Signed32(x) < 0x8000_0000 && (x - Signed32(x)) % 0x1_0000_0000 == 0
  {
  }

  /** The blanked header sums to the rest of it and eight blanks. */
  lemma BlankedSum(rec: seq<byte>)
    requires |rec| == 512
    ensures SumBytes(Blanked(rec)) == SumBytes(rec[..148]) + 256 + SumBytes(rec[156..])
  {
    var blanks := seq(8, k => 32);
    assert blanks == [32, 32, 32, 32] + [32, 32, 32, 32];
    SumConcat([32, 32, 32, 32], [32, 32, 32, 32]);
    SumFour(32);
    SumConcat(rec[..148], blanks);
    SumConcat(rec[..148] + blanks, rec[156..]);
    assert Blanked(rec) == rec[..148] + blanks + rec[156..];
  }

  lemma SumFour(b: byte)
    ensures SumBytes([b, b, b, b]) == 4 * b
  {
    SumOne(b);
    SumConcat([b], [b]);
    SumConcat([b, b], [b, b]);
    assert [b] + [b] == [b, b] && [b, b] + [b, b] == [b, b, b, b];
  }

  /** Which records are accepted as headers, byte by byte. */
  lemma Accepts(oct: Octal, rec: seq<byte>)
    requires |rec| == 512
    ensures HdrOk(oct, rec) <==>
              && oct(rec[148..156]) == SumBytes(rec[..148]) + 256 + SumBytes(rec[156..])
              && oct(rec[136..148]) >= 0
              && 48 <= rec[156] <= 55
              && (rec[257..263] == [117, 115, 116, 97, 114, 0] ==>
                    Signed32(oct(rec[329..337])) >= 0 && Signed32(oct(rec[337..345])) >= 0)
  {
    BlankedSum(rec);
  }

  // ----- the fields -----

  datatype Raw = Raw(name: seq<byte>, mode: seq<byte>, uid: seq<byte>, gid: seq<byte>, size: seq<byte>,
                     mtime: seq<byte>, chksum: seq<byte>, typeflag: byte, linkname: seq<byte>, magic: seq<byte>,
                     version: seq<byte>, uname: seq<byte>, gname: seq<byte>, devmajor: seq<byte>,
                     devminor: seq<byte>, prefix: seq<byte>, rest: seq<byte>)

  /** Every field has its width; the last 12 bytes of the record belong to none. */
  predicate Widths(h: Raw) {
    && |h.name| == 100 && |h.mode| == 8 && |h.uid| == 8 && |h.gid| == 8 && |h.size| == 12 && |h.mtime| == 12
    && |h.chksum| == 8 && |h.linkname| == 100 && |h.magic| == 6 && |h.version| == 2 && |h.uname| == 32
    && |h.gname| == 32 && |h.devmajor| == 8 && |h.devminor| == 8 && |h.prefix| == 155 && |h.rest| == 12
  }

  function Front9(h: Raw): seq<seq<byte>> {
    [h.name, h.mode, h.uid, h.gid, h.size, h.mtime, h.chksum, [h.typeflag], h.linkname]
  }

  function Back8(h: Raw): seq<seq<byte>> {
    [h.magic, h.version, h.uname, h.gname, h.devmajor, h.devminor, h.prefix, h.rest]
  }

  function Bytes(h: Raw): seq<byte> { Concat(Front9(h)) + Concat(Back8(h)) }

  lemma FrontFields(h: Raw)
    requires Widths(h)
    ensures var s := Concat(Front9(h));
            && |s| == 257
            && s[0..100] == h.name && s[100..108] == h.mode && s[108..116] == h.uid && s[116..124] == h.gid
            && s[124..136] == h.size && s[136..148] == h.mtime && s[148..156] == h.chksum
            && s[156..157] == [h.typeflag] && s[157..257] == h.linkname
  {
    var fs := Front9(h);
    LengthIs(fs);
    BeginsNext(fs, 0, 0);
    BeginsNext(fs, 1, 100);
    BeginsNext(fs, 2, 108);
    BeginsNext(fs, 3, 116);
    BeginsNext(fs, 4, 124);
    BeginsNext(fs, 5, 136);
    BeginsNext(fs, 6, 148);
    BeginsNext(fs, 7, 156);
    BeginsNext(fs, 8, 157);
    FieldIs(fs, 0, 0, 100);
    FieldIs(fs, 1, 100, 8);
    FieldIs(fs, 2, 108, 8);
    FieldIs(fs, 3, 116, 8);
    FieldIs(fs, 4, 124, 12);
    FieldIs(fs, 5, 136, 12);
    FieldIs(fs, 6, 148, 8);
    FieldIs(fs, 7, 156, 1);
    FieldIs(fs, 8, 157, 100);
  }

  lemma BackFields(h: Raw)
    requires Widths(h)
    ensures var s := Concat(Back8(h));
            && |s| == 255
            && s[0..6] == h.magic && s[6..8] == h.version && s[8..40] == h.uname && s[40..72] == h.gname
            && s[72..80] == h.devmajor && s[80..88] == h.devminor && s[88..243] == h.prefix && s[243..255] == h.rest
  {
    var fs := Back8(h);
    LengthIs(fs);
    BeginsNext(fs, 0, 0);
    BeginsNext(fs, 1, 6);
    BeginsNext(fs, 2, 8);
    BeginsNext(fs, 3, 40);
    BeginsNext(fs, 4, 72);
    BeginsNext(fs, 5, 80);
    BeginsNext(fs, 6, 88);
    BeginsNext(fs, 7, 243);
    FieldIs(fs, 0, 0, 6);
    FieldIs(fs, 1, 6, 2);
    FieldIs(fs, 2, 8, 32);
    FieldIs(fs, 3, 40, 32);
    FieldIs(fs, 4, 72, 8);
    FieldIs(fs, 5, 80, 8);
    FieldIs(fs, 6, 88, 155);
    FieldIs(fs, 7, 243, 12);
  }

  lemma InFront(a: seq<byte>, b: seq<byte>, i: nat, j: nat)
    requires i <= j <= |a|
    ensures (a + b)[i..j] == a[i..j]
  {
  }

  lemma InBack(a: seq<byte>, b: seq<byte>, i: nat, j: nat)
    requires |a| <= i <= j <= |a| + |b|
    ensures (a + b)[i..j] == b[i - |a|..j - |a|]
  {
  }

  /** The fields of a record. */
  function RawOf(rec: seq<byte>): (h: Raw)
    requires |rec| == 512
    ensures Widths(h)
  {
    Raw(rec[0..100], rec[100..108], rec[108..116], rec[116..124], rec[124..136], rec[136..148], rec[148..156],
        rec[156], rec[157..257], rec[257..263], rec[263..265], rec[265..297], rec[297..329], rec[329..337],
        rec[337..345], rec[345..500], rec[500..512])
  }

  /** The fields come back from a record written from them. */
  lemma FieldsRead(h: Raw)
    requires Widths(h)
    ensures |Bytes(h)| == 512 && RawOf(Bytes(h)) == h
  {
    var a, b := Concat(Front9(h)), Concat(Back8(h));
    FrontFields(h);
    BackFields(h);
    FrontRead(h, a, b);
    BackRead(h, a, b);
  }

  lemma FrontRead(h: Raw, a: seq<byte>, b: seq<byte>)
    requires Widths(h) && a == Concat(Front9(h)) && |a| == 257 && |b| == 255
    ensures var r := RawOf(a + b);
            && r.name == h.name && r.mode == h.mode && r.uid == h.uid && r.gid == h.gid && r.size == h.size
            && r.mtime == h.mtime && r.chksum == h.chksum && r.typeflag == h.typeflag && r.linkname == h.linkname
  {
    FrontFields(h);
    InFront(a, b, 0, 100);
    InFront(a, b, 100, 108);
    InFront(a, b, 108, 116);
    InFront(a, b, 116, 124);
    InFront(a, b, 124, 136);
    InFront(a, b, 136, 148);
    InFront(a, b, 148, 156);
    InFront(a, b, 157, 257);
    assert (a + b)[156] == a[156..157][0];
  }

  lemma BackRead(h: Raw, a: seq<byte>, b: seq<byte>)
    requires Widths(h) && b == Concat(Back8(h)) && |a| == 257 && |b| == 255
    ensures var r := RawOf(a + b);
            && r.magic == h.magic && r.version == h.version && r.uname == h.uname && r.gname == h.gname
            && r.devmajor == h.devmajor && r.devminor == h.devminor && r.prefix == h.prefix && r.rest == h.rest
  {
    BackFields(h);
    InBack(a, b, 257, 263);
    InBack(a, b, 263, 265);
    InBack(a, b, 265, 297);
    InBack(a, b, 297, 329);
    InBack(a, b, 329, 337);
    InBack(a, b, 337, 345);
    InBack(a, b, 345, 500);
    InBack(a, b, 500, 512);
  }

  lemma FrontJoined(rec: seq<byte>, h: Raw)
    requires |rec| == 512 && h == RawOf(rec)
    ensures Concat(Front9(h)) == rec[..257]
  {
    var s := rec[..257];
    var fs := Front9(h);
    BeginsNext(fs, 0, 0);
    BeginsNext(fs, 1, 100);
    BeginsNext(fs, 2, 108);
    BeginsNext(fs, 3, 116);
    BeginsNext(fs, 4, 124);
    BeginsNext(fs, 5, 136);
    BeginsNext(fs, 6, 148);
    BeginsNext(fs, 7, 156);
    BeginsNext(fs, 8, 157);
    assert s[156..157] == [rec[156]];
    WholeIs(fs, s);
  }

  lemma BackJoined(rec: seq<byte>, h: Raw)
    requires |rec| == 512 && h == RawOf(rec)
    ensures Concat(Back8(h)) == rec[257..]
  {
    var s := rec[257..];
    var fs := Back8(h);
    BeginsNext(fs, 0, 0);
    BeginsNext(fs, 1, 6);
    BeginsNext(fs, 2, 8);
    BeginsNext(fs, 3, 40);
    BeginsNext(fs, 4, 72);
    BeginsNext(fs, 5, 80);
    BeginsNext(fs, 6, 88);
    BeginsNext(fs, 7, 243);
    WholeIs(fs, s);
  }

  /** Any 512 bytes are such a record. */
  lemma Joined(rec: seq<byte>)
    requires |rec| == 512
    ensures Bytes(RawOf(rec)) == rec
  {
    FrontJoined(rec, RawOf(rec));
    BackJoined(rec, RawOf(rec));
    CutAt(rec, 257);
  }

  // ----- what a header says -----

  const BLANKS: seq<byte> := [32, 32, 32, 32, 32, 32, 32, 32]

  /** The types '0' to '7' as the S_IFMT digit of a mode: regular, regular, symbolic link, character
      device, block device, directory, FIFO, regular; */
  const KINDS: seq<nat> := [8, 8, 10, 2, 6, 4, 1, 8]

  /** and what a slash behind an old-format name makes of them. */
  const SLASHED: seq<nat> := [4, 4, 6, 6, 6, 4, 5, 4]

  predicate NewFormat(h: Raw) { h.magic == [117, 115, 116, 97, 114, 0] }

  predicate Slash(h: Raw) {
    !NewFormat(h) && Str(h.name) != [] && Str(h.name)[|Str(h.name)| - 1] == 47
  }

  /** The checksum is the sum of the header written with blanks for it; the numbers that end in a signed
      variable are not negative; the type is known. */
  predicate Good(oct: Octal, h: Raw) {
    && Widths(h) && 48 <= h.typeflag <= 55
    && oct(h.chksum) == SumBytes(Bytes(h.(chksum := BLANKS))) && oct(h.mtime) >= 0
    && (NewFormat(h) ==> Signed32(oct(h.devmajor)) >= 0 && Signed32(oct(h.devminor)) >= 0)
  }

  function Kind(h: Raw): nat
    requires 48 <= h.typeflag <= 55
  {
    if Slash(h) then SLASHED[h.typeflag - 48] else KINDS[h.typeflag - 48]
  }

  function SizeOf(oct: Octal, h: Raw): nat { oct(h.size) % 0x1_0000_0000_0000_0000 }

  function PathOf(h: Raw): seq<byte> {
    var base := Str(h.name);
    if Slash(h) then base[..|base| - 1]
    else if NewFormat(h) && Str(h.prefix) != [] && base != [] then Str(h.prefix) + [47] + base
    else base
  }

  function Described(oct: Octal, h: Raw): FileInfo
    requires Good(oct, h)
  {
    var posix := NewFormat(h);
    FileInfo(PathOf(h), if posix then Str(h.uname) else [], if posix then Str(h.gname) else [], Str(h.linkname),
             if posix then Signed32(oct(h.devmajor)) else 0, if posix then Signed32(oct(h.devminor)) else 0, 0, 0,
             4096 * Kind(h) + oct(h.mode) % 512, 0, oct(h.uid) % 0x1_0000_0000, oct(h.gid) % 0x1_0000_0000, 0,
             SizeOf(oct, h), UnixTime(oct(h.mtime)), 0, h.typeflag == 49)
  }

  lemma InBlanked(rec: seq<byte>, i: nat, j: nat)
    requires |rec| == 512 && i <= j <= 512 && (j <= 148 || 156 <= i)
    ensures Blanked(rec)[i..j] == rec[i..j]
  {
  }

  lemma BlanksIn(rec: seq<byte>)
    requires |rec| == 512
    ensures Blanked(rec)[148..156] == BLANKS
  {
  }

  lemma BlankedRaw(rec: seq<byte>)
    requires |rec| == 512
    ensures RawOf(Blanked(rec)) == RawOf(rec).(chksum := BLANKS)
  {
    var b := Blanked(rec);
    BlanksIn(rec);
    InBlanked(rec, 0, 100);
    InBlanked(rec, 100, 108);
    InBlanked(rec, 108, 116);
    InBlanked(rec, 116, 124);
    InBlanked(rec, 124, 136);
    InBlanked(rec, 136, 148);
    InBlanked(rec, 156, 157);
    assert b[156] == b[156..157][0] == rec[156];
    InBlanked(rec, 157, 257);
    InBlanked(rec, 257, 263);
    InBlanked(rec, 263, 265);
    InBlanked(rec, 265, 297);
    InBlanked(rec, 297, 329);
    InBlanked(rec, 329, 337);
    InBlanked(rec, 337, 345);
    InBlanked(rec, 345, 500);
    InBlanked(rec, 500, 512);
  }

  /** A record is accepted as a header exactly when its fields are good. */
  lemma GoodIsAccepted(oct: Octal, rec: seq<byte>)
    requires |rec| == 512
    ensures HdrOk(oct, rec) <==> Good(oct, RawOf(rec))
  {
    Joined(Blanked(rec));
    BlankedRaw(rec);
  }

  lemma TypeRead(rec: seq<byte>, h: Raw)
    requires |rec| == 512 && h == RawOf(rec) && 48 <= h.typeflag <= 55
    ensures Type(rec) == Kind(h)
  {
  }

  lemma NameRead(rec: seq<byte>, h: Raw)
    requires |rec| == 512 && h == RawOf(rec)
    ensures Name(rec) == PathOf(h) && (IsUstar(rec) <==> NewFormat(h))
  {
  }

  /** What the reader takes from the fields. */
  lemma Read(oct: Octal, rec: seq<byte>, h: Raw)
    requires |rec| == 512 && h == RawOf(rec) && Good(oct, h)
    ensures FileOf(oct, rec) == Described(oct, h) && Type(rec) == Kind(h) && Size(oct, rec) == SizeOf(oct, h)
  {
    TypeRead(rec, h);
    NameRead(rec, h);
    Modulus(oct(h.mode));
  }

  lemma ModIs(x: int, t: int, m: int)
    requires x == 512 * t + m && 0 <= m < 512
    ensures x % 512 == m
  {
  }

  lemma Modulus(x: int)
    ensures Unsigned32(x) % 512 == x % 512
  {
    var q, r := x / 0x1_0000_0000, x % 0x1_0000_0000;
    assert x == 0x1_0000_0000 * q + r;
    var d, m := r / 512, r % 512;
    assert r == 512 * d + m;
    ModIs(x, 0x80_0000 * q + d, m);
  }

  // ----- archives -----

  /** A header and the records behind it. */
  datatype Part = Part(hdr: Raw, body: seq<byte>)

  /** A regular file's data take the whole records its size fills, counted in 32 bits. */
  function RecordCount(oct: Octal, h: Raw): nat
    requires Good(oct, h)
  {
    if Kind(h) == 8 then (SizeOf(oct, h) + 511) / 512 % 0x1_0000_0000 else 0
  }

  predicate PartOk(oct: Octal, p: Part) {
    Good(oct, p.hdr) && |p.body| == 512 * RecordCount(oct, p.hdr)
  }

  predicate PartsOk(oct: Octal, ps: seq<Part>) {
    forall p <- ps :: PartOk(oct, p)
  }

  /** The file's start, and its records at once without the padding of the last. */
  function PartCalls(oct: Octal, p: Part): seq<Event>
    requires PartOk(oct, p)
  {
    [FileStart(Described(oct, p.hdr))]
    + if p.body == [] then [] else [FileData(p.body[..|p.body| - (0 - SizeOf(oct, p.hdr)) % 512])]
  }

  function Archive(oct: Octal, ps: seq<Part>): seq<byte>
    requires PartsOk(oct, ps)
  {
    if ps == [] then [] else Archive(oct, ps[..|ps| - 1]) + (Bytes(ps[|ps| - 1].hdr) + ps[|ps| - 1].body)
  }

  function ArchiveCalls(oct: Octal, ps: seq<Part>): seq<Event>
    requires PartsOk(oct, ps)
  {
    if ps == [] then [] else ArchiveCalls(oct, ps[..|ps| - 1]) + PartCalls(oct, ps[|ps| - 1])
  }

  /** All but the padding of the last record. */
  lemma Unpadded(size: nat, body: seq<byte>)
    requires body != [] && |body| == REC_SZ * Blocks(size)
    ensures Front(body, Delivered(size)) == body[..|body| - (0 - size) % 512]
  {
    var q, r := size / 512, size % 512;
    assert size == 512 * q + r;
    assert (0 - size) % 512 == if r == 0 then 0 else 512 - r;
  }

  lemma PartHeader(oct: Octal, p: Part, rec: seq<byte>)
    requires PartOk(oct, p) && rec == Bytes(p.hdr)
    ensures Header(oct, rec) && BodyRecords(oct, rec) == RecordCount(oct, p.hdr)
    ensures FileOf(oct, rec) == Described(oct, p.hdr) && Size(oct, rec) == SizeOf(oct, p.hdr)
  {
    FieldsRead(p.hdr);
    GoodIsAccepted(oct, rec);
    Read(oct, rec, p.hdr);
    BlocksAre(Size(oct, rec));
    assert rec[156] in rec && rec[156] != 0;
  }

  lemma PartIsMember(oct: Octal, p: Part)
    requires PartOk(oct, p)
    ensures var m := Member(Bytes(p.hdr), p.body);
            Sound(oct, m) && Encode(m) == Bytes(p.hdr) + p.body && Calls(oct, m) == PartCalls(oct, p)
  {
    PartHeader(oct, p, Bytes(p.hdr));
    PartData(oct, p, Bytes(p.hdr));
  }

  lemma PartData(oct: Octal, p: Part, rec: seq<byte>)
    requires PartOk(oct, p) && Size(oct, rec) == SizeOf(oct, p.hdr) && FileOf(oct, rec) == Described(oct, p.hdr)
    ensures Calls(oct, Member(rec, p.body)) == PartCalls(oct, p)
  {
    if p.body != [] {
      BodyIsData(oct, p);
      Unpadded(SizeOf(oct, p.hdr), p.body);
    }
  }

  lemma BodyIsData(oct: Octal, p: Part)
    requires PartOk(oct, p) && p.body != []
    ensures |p.body| == REC_SZ * Blocks(SizeOf(oct, p.hdr))
  {
    BlocksAre(SizeOf(oct, p.hdr));
  }

  lemma MemberIsPart(oct: Octal, m: Member) returns (p: Part)
    requires Sound(oct, m)
    ensures PartOk(oct, p) && Bytes(p.hdr) + p.body == Encode(m)
  {
    p := Part(RawOf(m.rec), m.body);
    Joined(m.rec);
    GoodIsAccepted(oct, m.rec);
    Read(oct, m.rec, p.hdr);
    BlocksAre(Size(oct, m.rec));
  }

  lemma {:induction false} PartsAreMembers(oct: Octal, ps: seq<Part>) returns (ms: seq<Member>)
    requires PartsOk(oct, ps)
    ensures AllSound(oct, ms) && EncodeAll(ms) == Archive(oct, ps) && CallsAll(oct, ms) == ArchiveCalls(oct, ps)
  {
    ms := [];
    if ps != [] {
      var p := ps[|ps| - 1];
      ms := PartsAreMembers(oct, ps[..|ps| - 1]);
      PartIsMember(oct, p);
      OneMore(oct, ms, Member(Bytes(p.hdr), p.body));
      ms := ms + [Member(Bytes(p.hdr), p.body)];
    }
  }

  lemma PartMore(oct: Octal, ps: seq<Part>, p: Part)
    requires PartsOk(oct, ps) && PartOk(oct, p)
    ensures PartsOk(oct, ps + [p]) && Archive(oct, ps + [p]) == Archive(oct, ps) + (Bytes(p.hdr) + p.body)
  {
    assert (ps + [p])[..|ps|] == ps;
  }

  lemma {:induction false} MembersAreParts(oct: Octal, ms: seq<Member>) returns (ps: seq<Part>)
    requires AllSound(oct, ms)
    ensures PartsOk(oct, ps) && Archive(oct, ps) == EncodeAll(ms)
  {
    ps := [];
    if ms != [] {
      ps := MembersAreParts(oct, ms[..|ms| - 1]);
      var p := MemberIsPart(oct, ms[|ms| - 1]);
      PartMore(oct, ps, p);
      ps := ps + [p];
    }
  }

  /** A good header between two members: the file described is the current one, and the records and
      the bytes of its data are counted in 32 bits. */
  lemma HeaderTaken(oct: Octal, z: Ustar, rec: seq<byte>, h: Raw)
    requires AtHeader(z) && |rec| == 512 && h == RawOf(rec) && Good(oct, h)
    ensures var w := Record(oct, z, rec);
            && w.rc == PXE_NONE && w.inArchive && w.records == z.records + 1 && w.fi == Described(oct, h)
            && w.trace == z.trace + [FileStart(w.fi)] && w.dataBlocks == RecordCount(oct, h)
            && w.dataBytes == if Kind(h) == 8 then SizeOf(oct, h) % 0x1_0000_0000 else 0
  {
    GoodIsAccepted(oct, rec);
    Read(oct, rec, h);
    BlocksAre(Size(oct, rec));
    assert rec[156] in rec && rec[156] != 0;
  }

  /** Every archive written from its fields is read to its end, with its members' calls. */
  lemma WrittenIsRead(oct: Octal, ps: seq<Part>)
    requires PartsOk(oct, ps)
    ensures var z := Feed(oct, START, Archive(oct, ps));
            z.rc == PXE_NONE && z.inArchive && z.dataBlocks == 0 && z.trace == ArchiveCalls(oct, ps)
  {
    var ms := PartsAreMembers(oct, ps);
    ReadBack(oct, ms);
  }

  /** Bytes are taken to the end of a member without an error exactly when they can be so written. */
  lemma ReadIsWritten(oct: Octal, input: seq<byte>)
    ensures var z := Feed(oct, START, input);
            z.rc == PXE_NONE && z.inArchive && z.dataBlocks == 0 <==>
            exists ps :: PartsOk(oct, ps) && Archive(oct, ps) == input
  {
    var z := Feed(oct, START, input);
    if z.rc == PXE_NONE && z.inArchive && z.dataBlocks == 0 {
      NeverEnds(oct, START, input);
      Accepted(oct, input);
      var ms :| AllSound(oct, ms) && EncodeAll(ms) == input;
      var ps := MembersAreParts(oct, ms);
    }
    if ps :| PartsOk(oct, ps) && Archive(oct, ps) == input {
      WrittenIsRead(oct, ps);
    }
  }

  /** A record behind an archive that is neither zeros nor a good header stops the run. */
  lemma BadHeader(oct: Octal, ps: seq<Part>, rec: seq<byte>, s: seq<byte>)
    requires PartsOk(oct, ps) && |rec| == 512 && !Good(oct, RawOf(rec)) && exists b <- rec :: b != 0
    ensures var z := Feed(oct, START, Archive(oct, ps) + (rec + s));
            z.rc == PXE_GARBAGE && z.trace == ArchiveCalls(oct, ps)
  {
    var ms := PartsAreMembers(oct, ps);
    ReadBack(oct, ms);
    RecordsWhole(oct, ms);
    FeedConcat(oct, START, EncodeAll(ms), rec + s);
    GoodIsAccepted(oct, rec);
    FeedRecord(oct, Feed(oct, START, EncodeAll(ms)), rec, s);
  }

  /** A record of zeros ends it. */
  lemma ZeroRecord(oct: Octal, ps: seq<Part>, rec: seq<byte>, s: seq<byte>)
    requires PartsOk(oct, ps) && |rec| == 512 && forall b <- rec :: b == 0
    ensures var z := Feed(oct, START, Archive(oct, ps) + (rec + s));
            z.rc == PXE_NONE && !z.inArchive && z.trace == ArchiveCalls(oct, ps)
  {
    var ms := PartsAreMembers(oct, ps);
    ReadBack(oct, ms);
    RecordsWhole(oct, ms);
    FeedConcat(oct, START, EncodeAll(ms), rec + s);
    FeedRecord(oct, Feed(oct, START, EncodeAll(ms)), rec, s);
  }
}
