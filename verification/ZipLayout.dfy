/** ZIP archives written field by field from the structures of pax/zip.cc:80-150, and that the
    reader accepts exactly those. */
module ZipLayout {
  import opened Bits
  import opened Layout
  import opened Pax
  import opened Seqs
  import opened ZipSpec
  import opened ZipRecords
  import opened ZipRoundTrip

  /** struct zip_local_file_hdr; comp is its method. */
  datatype LocalHdr = LocalHdr(version: u16, flags: u16, comp: u16, mtime: u16, mdate: u16, crc: u32,
                               sizeC: u32, sizeU: u32, nameLen: u16, extraLen: u16)

  function LocalFields(h: LocalHdr): seq<seq<byte>> {
    [LE16(h.version), LE16(h.flags), LE16(h.comp), LE16(h.mtime), LE16(h.mdate), LE32(h.crc),
     LE32(h.sizeC), LE32(h.sizeU), LE16(h.nameLen), LE16(h.extraLen)]
  }

  function LocalBytes(h: LocalHdr): seq<byte> { Concat(LocalFields(h)) }

  lemma LocalOffsets(h: LocalHdr)
    ensures var fs := LocalFields(h);
            && Begins(fs, 0) == 0 && Begins(fs, 1) == 2 && Begins(fs, 2) == 4 && Begins(fs, 3) == 6
            && Begins(fs, 4) == 8 && Begins(fs, 5) == 10 && Begins(fs, 6) == 14 && Begins(fs, 7) == 18
            && Begins(fs, 8) == 22 && Begins(fs, 9) == 24 && Begins(fs, 10) == 26
  {
  }

  /** The fields come back from a header written from them. */
  lemma LocalRead(h: LocalHdr)
    ensures var hdr := LocalBytes(h);
            && |hdr| == 26
            && Flags(hdr) == h.flags && Method(hdr) == h.comp && HdrCrc(hdr) == h.crc
            && SizeC(hdr) == h.sizeC && SizeU(hdr) == h.sizeU
            && NameLen(hdr) == h.nameLen && ExtraLen(hdr) == h.extraLen
            && HdrInfo(hdr) == CLEARED.(size := h.sizeU, mtime := DosTime(h.mdate, h.mtime),
                                        compressedSize := h.sizeC)
  {
    var fs := LocalFields(h);
    LengthIs(fs);
    LocalOffsets(h);
    At16(fs, 1, 2, h.flags);
    At16(fs, 2, 4, h.comp);
    At16(fs, 3, 6, h.mtime);
    At16(fs, 4, 8, h.mdate);
    At32(fs, 5, 10, h.crc);
    At32(fs, 6, 14, h.sizeC);
    At32(fs, 7, 18, h.sizeU);
    At16(fs, 8, 22, h.nameLen);
    At16(fs, 9, 24, h.extraLen);
  }

  /** Any 26 bytes are such a header. */
  lemma LocalWritten(hdr: seq<byte>) returns (h: LocalHdr)
    requires |hdr| == 26
    ensures LocalBytes(h) == hdr
  {
    Spells32(hdr, 10);
    Spells32(hdr, 14);
    Spells32(hdr, 18);
    h := LocalHdr(U16(hdr, 0), U16(hdr, 2), U16(hdr, 4), U16(hdr, 6), U16(hdr, 8), U32(hdr, 10), U32(hdr, 14),
                  U32(hdr, 18), U16(hdr, 22), U16(hdr, 24));
    var fs := LocalFields(h);
    LocalOffsets(h);
    forall j | 0 <= j < 10
      ensures LiesAt(fs[j], hdr, Begins(fs, j))
    {
      if j == 5 || j == 6 || j == 7 {
      } else {
        Spells16(hdr, Begins(fs, j));
      }
    }
    WholeIs(fs, hdr);
  }

  /** struct zip_central_dir_hdr */
  datatype CentralHdr = CentralHdr(creator: u16, version: u16, flags: u16, comp: u16, mtime: u16, mdate: u16,
                                   crc: u32, sizeC: u32, sizeU: u32, nameLen: u16, extraLen: u16, commentLen: u16,
                                   diskStart: u16, attrInt: u16, attrExt: u32, offset: u32)

  function CentralFields(h: CentralHdr): seq<seq<byte>> {
    [LE16(h.creator), LE16(h.version), LE16(h.flags), LE16(h.comp), LE16(h.mtime), LE16(h.mdate),
     LE32(h.crc), LE32(h.sizeC), LE32(h.sizeU), LE16(h.nameLen), LE16(h.extraLen), LE16(h.commentLen),
     LE16(h.diskStart), LE16(h.attrInt), LE32(h.attrExt), LE32(h.offset)]
  }

  function CentralBytes(h: CentralHdr): seq<byte> { Concat(CentralFields(h)) }

  lemma CentralFront(fs: seq<seq<byte>>)
    requires |fs| == 16 && (forall j :: 0 <= j < 6 ==> |fs[j]| == 2) && |fs[6]| == 4 && |fs[7]| == 4
    ensures Begins(fs, 0) == 0 && Begins(fs, 1) == 2 && Begins(fs, 2) == 4 && Begins(fs, 3) == 6
    ensures Begins(fs, 4) == 8 && Begins(fs, 5) == 10 && Begins(fs, 6) == 12 && Begins(fs, 7) == 16
    ensures Begins(fs, 8) == 20
  {
    BeginsNext(fs, 0, 0);
    BeginsNext(fs, 1, 2);
    BeginsNext(fs, 2, 4);
    BeginsNext(fs, 3, 6);
    BeginsNext(fs, 4, 8);
    BeginsNext(fs, 5, 10);
    BeginsNext(fs, 6, 12);
    BeginsNext(fs, 7, 16);
  }

  lemma CentralBack(fs: seq<seq<byte>>)
    requires |fs| == 16 && Begins(fs, 8) == 20 && |fs[8]| == 4 && (forall j :: 9 <= j < 14 ==> |fs[j]| == 2)
    requires |fs[14]| == 4 && |fs[15]| == 4
    ensures Begins(fs, 9) == 24 && Begins(fs, 10) == 26 && Begins(fs, 11) == 28 && Begins(fs, 12) == 30
    ensures Begins(fs, 13) == 32 && Begins(fs, 14) == 34 && Begins(fs, 15) == 38 && Begins(fs, 16) == 42
  {
    BeginsNext(fs, 8, 20);
    BeginsNext(fs, 9, 24);
    BeginsNext(fs, 10, 26);
    BeginsNext(fs, 11, 28);
    BeginsNext(fs, 12, 30);
    BeginsNext(fs, 13, 32);
    BeginsNext(fs, 14, 34);
    BeginsNext(fs, 15, 38);
  }

  /** What follows an entry is as long as its three lengths say. */
  lemma CentralRead(h: CentralHdr)
    ensures var cdh := CentralBytes(h);
            |cdh| == 42 && CentralTail(cdh) == h.nameLen + h.extraLen + h.commentLen
  {
    var fs := CentralFields(h);
    LengthIs(fs);
    CentralFront(fs);
    CentralBack(fs);
    At16(fs, 9, 24, h.nameLen);
    At16(fs, 10, 26, h.extraLen);
    At16(fs, 11, 28, h.commentLen);
  }

  /** The numbers that 42 bytes hold. */
  function CentralOf(cdh: seq<byte>): CentralHdr
    requires |cdh| == 42
  {
    Spells32(cdh, 12);
    Spells32(cdh, 16);
    Spells32(cdh, 20);
    Spells32(cdh, 34);
    Spells32(cdh, 38);
    CentralHdr(U16(cdh, 0), U16(cdh, 2), U16(cdh, 4), U16(cdh, 6), U16(cdh, 8), U16(cdh, 10), U32(cdh, 12),
               U32(cdh, 16), U32(cdh, 20), U16(cdh, 24), U16(cdh, 26), U16(cdh, 28), U16(cdh, 30),
               U16(cdh, 32), U32(cdh, 34), U32(cdh, 38))
  }

  lemma CentralWritten(cdh: seq<byte>) returns (h: CentralHdr)
    requires |cdh| == 42
    ensures CentralBytes(h) == cdh
  {
    h := CentralOf(cdh);
    var fs := CentralFields(h);
    CentralFront(fs);
    CentralBack(fs);
    forall j | 0 <= j < 16
      ensures LiesAt(fs[j], cdh, Begins(fs, j))
    {
      CentralLies(cdh, fs, j, Begins(fs, j));
    }
    WholeIs(fs, cdh);
  }

  lemma CentralLies(cdh: seq<byte>, fs: seq<seq<byte>>, j: nat, at: nat)
    requires |cdh| == 42 && fs == CentralFields(CentralOf(cdh)) && j < 16
    requires at == [0, 2, 4, 6, 8, 10, 12, 16, 20, 24, 26, 28, 30, 32, 34, 38][j]
    ensures LiesAt(fs[j], cdh, at)
  {
    if j == 6 || j == 7 || j == 8 || j == 14 || j == 15 {
      Spells32(cdh, at);
    } else {
      Spells16(cdh, at);
    }
  }

  /** struct zip_end_central_dir_hdr */
  datatype EndHdr = EndHdr(disk: u16, dirDisk: u16, diskEntries: u16, entries: u16, dirSize: u32, dirOffset: u32,
                           commentLen: u16)

  function EndFields(h: EndHdr): seq<seq<byte>> {
    [LE16(h.disk), LE16(h.dirDisk), LE16(h.diskEntries), LE16(h.entries), LE32(h.dirSize), LE32(h.dirOffset),
     LE16(h.commentLen)]
  }

  function EndBytes(h: EndHdr): seq<byte> { Concat(EndFields(h)) }

  lemma EndOffsets(h: EndHdr)
    ensures var fs := EndFields(h);
            && Begins(fs, 0) == 0 && Begins(fs, 1) == 2 && Begins(fs, 2) == 4 && Begins(fs, 3) == 6
            && Begins(fs, 4) == 8 && Begins(fs, 5) == 12 && Begins(fs, 6) == 16 && Begins(fs, 7) == 18
  {
  }

  lemma EndRead(h: EndHdr)
    ensures |EndBytes(h)| == 18 && EndTail(EndBytes(h)) == h.commentLen
  {
    var fs := EndFields(h);
    LengthIs(fs);
    EndOffsets(h);
    At16(fs, 6, 16, h.commentLen);
  }

  lemma EndWritten(ecd: seq<byte>) returns (h: EndHdr)
    requires |ecd| == 18
    ensures EndBytes(h) == ecd
  {
    Spells32(ecd, 8);
    Spells32(ecd, 12);
    h := EndHdr(U16(ecd, 0), U16(ecd, 2), U16(ecd, 4), U16(ecd, 6), U32(ecd, 8), U32(ecd, 12), U16(ecd, 16));
    var fs := EndFields(h);
    EndOffsets(h);
    forall j | 0 <= j < 7
      ensures LiesAt(fs[j], ecd, Begins(fs, j))
    {
      if j == 4 || j == 5 {
      } else {
        Spells16(ecd, Begins(fs, j));
      }
    }
    WholeIs(fs, ecd);
  }

  // ----- the extra field -----

  /** The entries whose tags the reader knows, and all others. */
  datatype Entry =
    | Unix(atime: u32, mtime: u32, uid: u16, gid: u16, more: seq<byte>)
    | UidGid(uid: u16, gid: u16, more: seq<byte>)
    | Times(flags: byte, mtime: u32, atime: u32, ctime: u32, more: seq<byte>)
    | Other(tag: u16, body: seq<byte>)

  function TagOf(x: Entry): u16 {
    match x
    case Unix(_, _, _, _, _) => 0x000D
    case UidGid(_, _, _) => 0x7855
    case Times(_, _, _, _, _) => 0x5455
    case Other(tag, _) => tag
  }

  function BodyFields(x: Entry): seq<seq<byte>> {
    match x
    case Unix(atime, mtime, uid, gid, more) => [LE32(atime), LE32(mtime), LE16(uid), LE16(gid), more]
    case UidGid(uid, gid, more) => [LE16(uid), LE16(gid), more]
    case Times(flags, mtime, atime, ctime, more) => [[flags], LE32(mtime), LE32(atime), LE32(ctime), more]
    case Other(_, body) => [body]
  }

  function Body(x: Entry): seq<byte> { Concat(BodyFields(x)) }

  /** The length fits its field; an entry too short for its tag, or with no known one, is other. */
  predicate EntryOk(x: Entry) {
    && |Body(x)| < 0x10000
    && (x.Other? ==> match x.tag
                     case 0x000D => |x.body| < 12
                     case 0x7855 => |x.body| < 4
                     case 0x5455 => |x.body| < 13
                     case _ => true)
  }

  predicate EntriesOk(xs: seq<Entry>) {
    forall x <- xs :: EntryOk(x)
  }

  function EntryBytes(x: Entry): seq<byte>
    requires EntryOk(x)
  {
    LE16(TagOf(x)) + LE16(|Body(x)|) + Body(x)
  }

  function EntriesBytes(xs: seq<Entry>): seq<byte>
    requires EntriesOk(xs)
  {
    if xs == [] then [] else EntryBytes(xs[0]) + EntriesBytes(xs[1..])
  }

  /** What an entry says about the file; only a set bit 0 makes the times of 0x5455 count. */
  function Effect(fi: FileInfo, x: Entry): FileInfo {
    match x
    case Unix(_, mtime, uid, gid, _) => fi.(mtime := UnixTime(mtime), uid := uid, gid := gid)
    case UidGid(uid, gid, _) => fi.(uid := uid, gid := gid)
    case Times(flags, mtime, _, _, _) => if flags % 2 == 1 then fi.(mtime := UnixTime(mtime)) else fi
    case Other(_, _) => fi
  }

  /** Later entries win. */
  function Effects(fi: FileInfo, xs: seq<Entry>): FileInfo
    decreases |xs|
  {
    if xs == [] then fi else Effects(Effect(fi, xs[0]), xs[1..])
  }

  lemma BodyRead(fi: FileInfo, x: Entry)
    requires EntryOk(x)
    ensures Tagged(fi, TagOf(x), Body(x)) == Effect(fi, x)
  {
    var fs := BodyFields(x);
    LengthIs(fs);
    match x
    case Unix(atime, mtime, uid, gid, more) =>
      At32(fs, 0, 0, atime);
      At32(fs, 1, 4, mtime);
      At16(fs, 2, 8, uid);
      At16(fs, 3, 10, gid);
    case UidGid(uid, gid, more) =>
      At16(fs, 0, 0, uid);
      At16(fs, 1, 2, gid);
    case Times(flags, mtime, atime, ctime, more) =>
      FieldIs(fs, 0, 0, 1);
      assert At(Body(x), 0) == flags;
      assert Begins(fs, 1) == 1;
      At32(fs, 1, 1, mtime);
      At32(fs, 2, 5, atime);
      At32(fs, 3, 9, ctime);
    case Other(_, body) =>
      OneField(body);
  }

  /** An entry in front of more. */
  lemma EntrySplit(x: Entry, rest: seq<byte>, buf: seq<byte>)
    requires EntryOk(x) && buf == EntryBytes(x) + rest
    ensures |buf| >= 4 && U16(buf, 0) == TagOf(x) && U16(buf, 2) == |Body(x)| <= |buf| - 4
    ensures buf[4..4 + |Body(x)|] == Body(x) && buf[4 + |Body(x)|..] == rest
  {
    Word16(buf, 0, TagOf(x));
    Word16(buf, 2, |Body(x)|);
  }

  /** Entries, and up to three bytes too few for another, are read to their end. */
  lemma {:induction false} ExtrasRead(fi: FileInfo, xs: seq<Entry>, pad: seq<byte>)
    requires EntriesOk(xs) && |pad| < 4
    ensures Extras(fi, EntriesBytes(xs) + pad) == (true, Effects(fi, xs))
    decreases |xs|
  {
    if xs == [] {
      assert [] + pad == pad;
    } else {
      var rest := EntriesBytes(xs[1..]) + pad;
      Assoc(EntryBytes(xs[0]), EntriesBytes(xs[1..]), pad);
      EntrySplit(xs[0], rest, EntriesBytes(xs) + pad);
      BodyRead(fi, xs[0]);
      ExtrasRead(Effect(fi, xs[0]), xs[1..], pad);
    }
  }

  lemma BodyEnds(x: Entry)
    ensures var fs := BodyFields(x);
            match x
            case Unix(_, _, _, _, more) =>
              && Begins(fs, 0) == 0 && Begins(fs, 1) == 4 && Begins(fs, 2) == 8 && Begins(fs, 3) == 10
              && Begins(fs, 4) == 12 && Begins(fs, 5) == 12 + |more|
            case UidGid(_, _, more) =>
              Begins(fs, 0) == 0 && Begins(fs, 1) == 2 && Begins(fs, 2) == 4 && Begins(fs, 3) == 4 + |more|
            case Times(_, _, _, _, more) =>
              && Begins(fs, 0) == 0 && Begins(fs, 1) == 1 && Begins(fs, 2) == 5 && Begins(fs, 3) == 9
              && Begins(fs, 4) == 13 && Begins(fs, 5) == 13 + |more|
            case Other(_, body) => Begins(fs, 1) == |body|
  {
  }

  lemma UnixWritten(body: seq<byte>) returns (x: Entry)
    requires |body| >= 12
    ensures x.Unix? && Body(x) == body
  {
    Spells32(body, 0);
    Spells32(body, 4);
    Spells16(body, 8);
    Spells16(body, 10);
    x := Unix(U32(body, 0), U32(body, 4), U16(body, 8), U16(body, 10), body[12..]);
    BodyEnds(x);
    WholeIs(BodyFields(x), body);
  }

  lemma UidGidWritten(body: seq<byte>) returns (x: Entry)
    requires |body| >= 4
    ensures x.UidGid? && Body(x) == body
  {
    Spells16(body, 0);
    Spells16(body, 2);
    x := UidGid(U16(body, 0), U16(body, 2), body[4..]);
    BodyEnds(x);
    WholeIs(BodyFields(x), body);
  }

  lemma TimesWritten(body: seq<byte>) returns (x: Entry)
    requires |body| >= 13
    ensures x.Times? && Body(x) == body
  {
    Spells32(body, 1);
    Spells32(body, 5);
    Spells32(body, 9);
    x := Times(body[0], U32(body, 1), U32(body, 5), U32(body, 9), body[13..]);
    BodyEnds(x);
    WholeIs(BodyFields(x), body);
  }

  lemma BodyWritten(tag: u16, body: seq<byte>) returns (x: Entry)
    requires |body| < 0x10000
    ensures EntryOk(x) && TagOf(x) == tag && Body(x) == body
  {
    if tag == 0x000D && |body| >= 12 {
      x := UnixWritten(body);
    } else if tag == 0x7855 && |body| >= 4 {
      x := UidGidWritten(body);
    } else if tag == 0x5455 && |body| >= 13 {
      x := TimesWritten(body);
    } else {
      x := Other(tag, body);
      OneField(body);
    }
  }

  lemma EntryJoin(x: Entry, tag: u16, body: seq<byte>, rest: seq<byte>, buf: seq<byte>)
    requires EntryOk(x) && TagOf(x) == tag && Body(x) == body
    requires |buf| >= 4 && tag == U16(buf, 0) && |body| == U16(buf, 2) <= |buf| - 4
    requires body == buf[4..4 + |body|] && rest == buf[4 + |body|..]
    ensures buf == EntryBytes(x) + rest
  {
    Spells16(buf, 0);
    Spells16(buf, 2);
    assert buf[0..2] + buf[2..4] + buf[4..4 + |body|] + buf[4 + |body|..] == buf;
  }

  /** Every extra field that is accepted is of that kind. */
  lemma {:induction false} ExtrasWritten(fi: FileInfo, buf: seq<byte>) returns (xs: seq<Entry>, pad: seq<byte>)
    requires Extras(fi, buf).0
    ensures EntriesOk(xs) && |pad| < 4 && buf == EntriesBytes(xs) + pad
    decreases |buf|
  {
    if |buf| < 4 {
      xs, pad := [], buf;
      assert [] + buf == buf;
    } else {
      var n := U16(buf, 2);
      var x := BodyWritten(U16(buf, 0), buf[4..4 + n]);
      xs, pad := ExtrasWritten(Tagged(fi, U16(buf, 0), buf[4..4 + n]), buf[4 + n..]);
      EntryJoin(x, U16(buf, 0), buf[4..4 + n], buf[4 + n..], buf);
      Assoc(EntryBytes(x), EntriesBytes(xs), pad);
      xs := [x] + xs;
      assert xs[1..] == xs[1..] && EntriesOk(xs);
    }
  }

  // ----- archives -----

  /** A stored member, a directory entry, and the end of the directory. */
  datatype Part =
    | Member(hdr: LocalHdr, name: seq<byte>, extra: seq<Entry>, pad: seq<byte>, data: seq<byte>, desc: seq<byte>)
    | Directory(cdh: CentralHdr, tail: seq<byte>)
    | Ending(ecd: EndHdr, comment: seq<byte>)

  /** Every length and checksum is the one announced. */
  predicate PartOk(p: Part) {
    match p
    case Member(hdr, name, extra, pad, data, desc) =>
      && hdr.comp == 0 && |name| == hdr.nameLen && |data| == hdr.sizeU && Crc32(0, data) == hdr.crc
      && EntriesOk(extra) && |pad| < 4 && |EntriesBytes(extra)| + |pad| == hdr.extraLen
      && |desc| == if hdr.flags / 8 % 2 == 1 then 12 else 0
    case Directory(cdh, tail) => |tail| == cdh.nameLen + cdh.extraLen + cdh.commentLen
    case Ending(ecd, comment) => |comment| == ecd.commentLen
  }

  predicate PartsOk(ps: seq<Part>) {
    forall p <- ps :: PartOk(p)
  }

  /** Signatures PK 3 4, PK 1 2 and PK 5 6. */
  function PartBytes(p: Part): seq<byte>
    requires PartOk(p)
  {
    match p
    case Member(hdr, name, extra, pad, data, desc) =>
      [0x50, 0x4b, 3, 4] + LocalBytes(hdr) + name + (EntriesBytes(extra) + pad) + data + desc
    case Directory(cdh, tail) => [0x50, 0x4b, 1, 2] + CentralBytes(cdh) + tail
    case Ending(ecd, comment) => [0x50, 0x4b, 5, 6] + EndBytes(ecd) + comment
  }

  /** What the header and the extra field say about the file. */
  function Described(hdr: LocalHdr, name: seq<byte>, extra: seq<Entry>): FileInfo {
    var fi := CLEARED.(size := hdr.sizeU, mtime := DosTime(hdr.mdate, hdr.mtime), compressedSize := hdr.sizeC);
    Effects(fi, extra).(pathname := name)
  }

  function PartCalls(p: Part): seq<Event> {
    match p
    case Member(hdr, name, extra, _, data, _) =>
      [FileStart(Described(hdr, name, extra)), FileData(data), FileEnd]
    case Directory(_, _) => []
    case Ending(_, _) => []
  }

  function Archive(ps: seq<Part>): seq<byte>
    requires PartsOk(ps)
  {
    if ps == [] then [] else Archive(ps[..|ps| - 1]) + PartBytes(ps[|ps| - 1])
  }

  function ArchiveCalls(ps: seq<Part>): seq<Event> {
    if ps == [] then [] else ArchiveCalls(ps[..|ps| - 1]) + PartCalls(ps[|ps| - 1])
  }

  lemma MemberIsRecord(p: Part) returns (r: Rec)
    requires PartOk(p) && p.Member?
    ensures Sound(r) && Encode(r) == PartBytes(p) && Calls(r) == PartCalls(p)
  {
    var hdr := LocalBytes(p.hdr);
    var extra := EntriesBytes(p.extra) + p.pad;
    r := Local(hdr, p.name, extra, p.data, p.desc);
    LocalRead(p.hdr);
    ExtrasRead(HdrInfo(hdr), p.extra, p.pad);
  }

  lemma PartIsRecord(p: Part) returns (r: Rec)
    requires PartOk(p)
    ensures Sound(r) && Encode(r) == PartBytes(p) && Calls(r) == PartCalls(p)
  {
    match p
    case Member(_, _, _, _, _, _) => r := MemberIsRecord(p);
    case Directory(cdh, tail) => CentralRead(cdh); r := Central(CentralBytes(cdh), tail);
    case Ending(ecd, comment) => EndRead(ecd); r := EndRec(EndBytes(ecd), comment);
  }

  lemma RecordIsMember(r: Rec) returns (p: Part)
    requires Sound(r) && r.Local?
    ensures PartOk(p) && PartBytes(p) == Encode(r)
  {
    var h := LocalWritten(r.hdr);
    LocalRead(h);
    var xs, pad := ExtrasWritten(HdrInfo(r.hdr), r.extra);
    p := Member(h, r.name, xs, pad, r.data, r.desc);
  }

  lemma RecordIsPart(r: Rec) returns (p: Part)
    requires Sound(r)
    ensures PartOk(p) && PartBytes(p) == Encode(r)
  {
    match r
    case Local(_, _, _, _, _) => p := RecordIsMember(r);
    case Central(cdh, tail) => var h := CentralWritten(cdh); CentralRead(h); p := Directory(h, tail);
    case EndRec(ecd, comment) => var h := EndWritten(ecd); EndRead(h); p := Ending(h, comment);
  }

  lemma {:induction false} PartsAreRecords(ps: seq<Part>) returns (rs: seq<Rec>)
    requires PartsOk(ps)
    ensures AllSound(rs) && EncodeAll(rs) == Archive(ps) && CallsAll(rs) == ArchiveCalls(ps)
  {
    rs := [];
    if ps != [] {
      rs := PartsAreRecords(ps[..|ps| - 1]);
      var r := PartIsRecord(ps[|ps| - 1]);
      OneMore(rs, r);
      rs := rs + [r];
    }
  }

  lemma PartMore(ps: seq<Part>, p: Part)
    requires PartsOk(ps) && PartOk(p)
    ensures PartsOk(ps + [p]) && Archive(ps + [p]) == Archive(ps) + PartBytes(p)
  {
    assert (ps + [p])[..|ps|] == ps;
  }

  lemma {:induction false} RecordsAreParts(rs: seq<Rec>) returns (ps: seq<Part>)
    requires AllSound(rs)
    ensures PartsOk(ps) && Archive(ps) == EncodeAll(rs)
  {
    ps := [];
    if rs != [] {
      ps := RecordsAreParts(rs[..|rs| - 1]);
      var p := RecordIsPart(rs[|rs| - 1]);
      PartMore(ps, p);
      ps := ps + [p];
    }
  }

  /** Every archive written from its structures is read to its end, with the calls its members ask for. */
  lemma WrittenIsRead(ps: seq<Part>)
    requires PartsOk(ps)
    ensures var z := Run(START, Archive(ps));
            z.rc == PXE_NONE && z.st == ZS_BEGIN_REC && z.pos == 0 && z.trace == ArchiveCalls(ps)
  {
    var rs := PartsAreRecords(ps);
    ReadBack(rs);
  }

  /** Bytes are read to the end of a record without an error exactly when they can be so written. */
  lemma ReadIsWritten(input: seq<byte>)
    ensures var z := Run(START, input);
            z.rc == PXE_NONE && z.st == ZS_BEGIN_REC && z.pos == 0 <==> exists ps :: PartsOk(ps) && Archive(ps) == input
  {
    var z := Run(START, input);
    if z.rc == PXE_NONE && z.st == ZS_BEGIN_REC && z.pos == 0 {
      Accepted(input);
      var rs :| AllSound(rs) && EncodeAll(rs) == input;
      var ps := RecordsAreParts(rs);
    }
    if ps :| PartsOk(ps) && Archive(ps) == input {
      WrittenIsRead(ps);
    }
  }
}
