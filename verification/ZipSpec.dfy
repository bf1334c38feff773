/** pax/zip.cc as a machine that is fed one byte at a time. Between two bytes it first takes the
    steps that consume nothing. */
module ZipSpec {
  import opened Bits
  import opened Pax

  const SIG_LOCAL_FILE: nat := 0x04034b50
  const SIG_CENTRAL_DIR: nat := 0x02014b50
  const SIG_CENTRAL_DIR_END: nat := 0x06054b50

  const TAG_UNIX: nat := 0x000D
  const TAG_UNIX_UIDGID: nat := 0x7855
  const TAG_UNIX_TIMES: nat := 0x5455

  const MAX_EXTRA: nat := 65536

  /** pax/zip.cc:60-78 */
  datatype InputState =
    | ZS_BEGIN_REC | ZS_HANDLE_REC | ZS_FILE_HDR | ZS_FILE_HDR_END | ZS_FILE_NAME | ZS_EXTRA
    | ZS_FLUSH_HDR | ZS_DATA | ZS_DATA_SKIP | ZS_DATA_DESC | ZS_EOR_FILE | ZS_EOR | ZS_CENTRAL_DIR
    | ZS_CENTRAL_DIR_END | ZS_END_CENTRAL | ZS_END_CENTRAL_END | ZS_SKIP_BYTES

  /** The buffers that headers are copied to; name is the storage of curfile.pathname. */
  datatype Bufs = Bufs(sig: seq<byte>, hdr: seq<byte>, name: seq<byte>, extra: seq<byte>,
                       desc: seq<byte>, cdh: seq<byte>, ecd: seq<byte>)

  /** struct zip_state (pax/zip.cc:152-178) without zlib's part. pos counts what a scheduled copy has
      copied, skip what a scheduled skip has left, total all bytes consumed; rc is the error that
      stopped the run. */
  datatype Zip = Zip(st: InputState, pos: nat, skip: nat, bufs: Bufs, fi: FileInfo, dataBytes: nat, crc: nat,
                     trace: seq<Event>, total: nat, rc: Code)

  const START: Zip :=
    Zip(ZS_BEGIN_REC, 0, 0, Bufs(Zeros(4), Zeros(26), [], Zeros(MAX_EXTRA), Zeros(12), Zeros(42), Zeros(18)),
        CLEARED, 0, 0, [], 0, PXE_NONE)

  // struct zip_local_file_hdr (pax/zip.cc:80-91)
  function Flags(hdr: seq<byte>): nat { U16(hdr, 2) }
  function Method(hdr: seq<byte>): nat { U16(hdr, 4) }
  function HdrCrc(hdr: seq<byte>): nat { U32(hdr, 10) }
  function SizeC(hdr: seq<byte>): nat { U32(hdr, 14) }
  function SizeU(hdr: seq<byte>): nat { U32(hdr, 18) }
  function NameLen(hdr: seq<byte>): nat { U16(hdr, 22) }
  function ExtraLen(hdr: seq<byte>): (n: nat)
    ensures n < MAX_EXTRA
  {
    U16(hdr, 24)
  }

  predicate HasDesc(hdr: seq<byte>) { Flags(hdr) / 8 % 2 == 1 }

  /** Name, extra and comment of a central directory entry (pax/zip.cc:99-116, :681-682). */
  function CentralTail(cdh: seq<byte>): nat { U16(cdh, 24) + U16(cdh, 26) + U16(cdh, 28) }

  /** The comment of the end record (pax/zip.cc:118-126, :704). */
  function EndTail(ecd: seq<byte>): nat { U16(ecd, 16) }

  /** The states that copy into a buffer, and how much (pax/zip.cc:543-715). */
  predicate Copies(st: InputState) {
    st in {ZS_BEGIN_REC, ZS_FILE_HDR, ZS_FILE_NAME, ZS_EXTRA, ZS_DATA_DESC, ZS_CENTRAL_DIR, ZS_END_CENTRAL}
  }

  function Need(z: Zip): nat {
    match z.st
    case ZS_BEGIN_REC => 4
    case ZS_FILE_HDR => 26
    case ZS_FILE_NAME => NameLen(z.bufs.hdr)
    case ZS_EXTRA => ExtraLen(z.bufs.hdr)
    case ZS_DATA_DESC => 12
    case ZS_CENTRAL_DIR => 42
    case ZS_END_CENTRAL => 18
    case _ => 0
  }

  function After(st: InputState): InputState {
    match st
    case ZS_BEGIN_REC => ZS_HANDLE_REC
    case ZS_FILE_HDR => ZS_FILE_HDR_END
    case ZS_FILE_NAME => ZS_EXTRA
    case ZS_EXTRA => ZS_FLUSH_HDR
    case ZS_DATA_DESC => ZS_EOR_FILE
    case ZS_CENTRAL_DIR => ZS_CENTRAL_DIR_END
    case ZS_END_CENTRAL => ZS_END_CENTRAL_END
    case _ => ZS_EOR
  }

  /** The buffer a copy fills. */
  function Target(b: Bufs, st: InputState): seq<byte> {
    match st
    case ZS_BEGIN_REC => b.sig
    case ZS_FILE_HDR => b.hdr
    case ZS_FILE_NAME => b.name
    case ZS_EXTRA => b.extra
    case ZS_DATA_DESC => b.desc
    case ZS_CENTRAL_DIR => b.cdh
    case _ => b.ecd
  }

  function WithTarget(b: Bufs, st: InputState, t: seq<byte>): Bufs {
    match st
    case ZS_BEGIN_REC => b.(sig := t)
    case ZS_FILE_HDR => b.(hdr := t)
    case ZS_FILE_NAME => b.(name := t)
    case ZS_EXTRA => b.(extra := t)
    case ZS_DATA_DESC => b.(desc := t)
    case ZS_CENTRAL_DIR => b.(cdh := t)
    case _ => b.(ecd := t)
  }

  /** The copy in progress gets more. */
  function Fill(b: Bufs, st: InputState, pos: nat, chunk: seq<byte>): Bufs {
    WithTarget(b, st, Splice(Target(b, st), pos, chunk))
  }

  function Copied(z: Zip, chunk: seq<byte>): Zip {
    z.(bufs := Fill(z.bufs, z.st, z.pos, chunk), pos := z.pos + |chunk|, total := z.total + |chunk|)
  }

  /** zip_sched_do for a copy (pax/zip.cc:192-211). */
  function Copy(z: Zip, chunk: seq<byte>): Zip {
    var w := Copied(z, chunk);
    if w.pos == Need(z) then w.(st := After(z.st), pos := 0) else w
  }

  /** zip_sched_do for a skip. */
  function Skip(z: Zip, n: nat): Zip {
    var w := z.(total := z.total + n, skip := if n <= z.skip then z.skip - n else 0);
    if w.skip == 0 then w.(st := ZS_EOR) else w
  }

  function Stored(z: Zip, chunk: seq<byte>): Zip {
    z.(crc := Crc32(z.crc, chunk), trace := Emit(z.trace, FileData(chunk)), total := z.total + |chunk|,
       dataBytes := if |chunk| <= z.dataBytes then z.dataBytes - |chunk| else 0)
  }

  /** zip_stored_data (pax/zip.cc:418-447). */
  function Store(z: Zip, chunk: seq<byte>): Zip {
    var w := Stored(z, chunk);
    if w.dataBytes > 0 then w
    else if HdrCrc(z.bufs.hdr) != w.crc then w.(rc := PXE_GARBAGE)
    else w.(st := ZS_DATA_SKIP)
  }

  /** What a local header says about its file, its name apart. */
  function HdrInfo(hdr: seq<byte>): FileInfo {
    CLEARED.(size := SizeU(hdr), mtime := DosTime(U16(hdr, 8), U16(hdr, 6)), compressedSize := SizeC(hdr))
  }

  /** zip_file_hdr_end (pax/zip.cc:307-341). */
  function HdrEnd(z: Zip): Zip {
    var hdr := z.bufs.hdr;
    var w := z.(fi := HdrInfo(hdr), bufs := z.bufs.(name := Zeros(NameLen(hdr))),
                dataBytes := if Method(hdr) == 0 then SizeU(hdr) else SizeC(hdr));
    if Method(hdr) == 0 || Method(hdr) == 8 then w.(st := ZS_FILE_NAME, crc := 0)
    else w.(rc := PXE_MISC_ERR)
  }

  /** One entry of the extra field (pax/zip.cc:360-394). */
  function Tagged(fi: FileInfo, tag: nat, body: seq<byte>): FileInfo {
    if tag == TAG_UNIX && |body| >= 12 then
      fi.(mtime := UnixTime(U32(body, 4)), uid := U16(body, 8), gid := U16(body, 10))
    else if tag == TAG_UNIX_UIDGID && |body| >= 4 then
      fi.(uid := U16(body, 0), gid := U16(body, 2))
    else if tag == TAG_UNIX_TIMES && |body| >= 13 && At(body, 0) % 2 == 1 then
      fi.(mtime := UnixTime(U32(body, 1)))
    else fi
  }

  /** The loop over the extra field (pax/zip.cc:351-398). */
  function Extras(fi: FileInfo, buf: seq<byte>): (bool, FileInfo)
    decreases |buf|
  {
    if |buf| < 4 then (true, fi)
    else if U16(buf, 2) > |buf| - 4 then (false, fi)
    else Extras(Tagged(fi, U16(buf, 0), buf[4..4 + U16(buf, 2)]), buf[4 + U16(buf, 2)..])
  }

  /** zip_flush_hdr (pax/zip.cc:343-416). */
  function FlushHdr(z: Zip): Zip {
    var n := ExtraLen(z.bufs.hdr);
    var (ok, fi) := Extras(z.fi, if n <= |z.bufs.extra| then z.bufs.extra[..n] else []);
    if ok then z.(fi := fi, trace := Emit(z.trace, FileStart(fi.(pathname := z.bufs.name))), st := ZS_DATA)
    else z.(fi := fi, rc := PXE_GARBAGE)
  }

  /** pax/zip.cc:552-569 */
  function HandleRec(z: Zip): Zip {
    var s := U32(z.bufs.sig, 0);
    if s == SIG_LOCAL_FILE then z.(st := ZS_FILE_HDR)
    else if s == SIG_CENTRAL_DIR then z.(st := ZS_CENTRAL_DIR)
    else if s == SIG_CENTRAL_DIR_END then z.(st := ZS_END_CENTRAL)
    else z.(rc := PXE_GARBAGE)
  }

  /** The next turn of the loop consumes nothing. */
  predicate Silent(z: Zip) {
    z.rc == PXE_NONE &&
    match z.st
    case ZS_DATA => z.dataBytes == 0 || Method(z.bufs.hdr) != 0
    case ZS_DATA_SKIP => z.dataBytes == 0
    case ZS_SKIP_BYTES => z.skip == 0
    case _ => Copies(z.st) ==> Need(z) == z.pos
  }

  /** That turn (pax/zip.cc:541-716). */
  function Move(z: Zip): Zip {
    match z.st
    case ZS_HANDLE_REC => HandleRec(z)
    case ZS_FILE_HDR_END => HdrEnd(z)
    case ZS_FLUSH_HDR => FlushHdr(z)
    case ZS_DATA =>
      if Method(z.bufs.hdr) == 0 then Store(z, [])
      else z.(rc := if Method(z.bufs.hdr) == 8 then INFLATE else PXE_GARBAGE)
    case ZS_DATA_SKIP => z.(st := if HasDesc(z.bufs.hdr) then ZS_DATA_DESC else ZS_EOR_FILE)
    case ZS_EOR_FILE => z.(trace := Emit(z.trace, FileEnd), st := ZS_BEGIN_REC)
    case ZS_EOR => z.(st := ZS_BEGIN_REC)
    case ZS_CENTRAL_DIR_END => z.(skip := CentralTail(z.bufs.cdh), st := ZS_SKIP_BYTES)
    case ZS_END_CENTRAL_END => z.(skip := EndTail(z.bufs.ecd), st := ZS_SKIP_BYTES)
    case ZS_SKIP_BYTES => Skip(z, 0)
    case _ => Copy(z, [])
  }

  /** How far a run of such turns still has to go. */
  function Rank(z: Zip): nat {
    match z.st
    case ZS_HANDLE_REC => 1
    case ZS_FILE_HDR_END => 9
    case ZS_FILE_NAME => 8
    case ZS_EXTRA => 7
    case ZS_FLUSH_HDR => 6
    case ZS_DATA => 5
    case ZS_DATA_SKIP => 4
    case ZS_DATA_DESC => 0
    case ZS_EOR_FILE => 3
    case ZS_CENTRAL_DIR_END => 4
    case ZS_END_CENTRAL_END => 4
    case ZS_SKIP_BYTES => 3
    case ZS_EOR => 2
    case _ => 0
  }

  /** The copies are in progress. */
  ghost predicate ZipOk(z: Zip) {
    && |z.bufs.sig| == 4 && |z.bufs.hdr| == 26 && |z.bufs.extra| == MAX_EXTRA
    && |z.bufs.desc| == 12 && |z.bufs.cdh| == 42 && |z.bufs.ecd| == 18
    && (z.st == ZS_FILE_NAME ==> |z.bufs.name| == NameLen(z.bufs.hdr))
    && (if Copies(z.st) then z.pos < Need(z) || z.pos == 0 == Need(z) else z.pos == 0)
  }

  /** A turn that consumes nothing comes nearer to one that does, or stops the run. */
  lemma MoveRank(z: Zip)
    requires ZipOk(z) && Silent(z)
    ensures ZipOk(Move(z)) && (Move(z).rc != PXE_NONE || Rank(Move(z)) < Rank(z))
    ensures Move(z).total == z.total
  {
  }

  /** All the turns before the next byte. */
  function Settle(z: Zip): (z': Zip)
    requires ZipOk(z)
    ensures ZipOk(z') && !Silent(z') && z'.total == z.total
    decreases z.rc == PXE_NONE, Rank(z)
  {
    if Silent(z) then
      MoveRank(z);
      Settle(Move(z))
    else z
  }

  /** A byte, in a state that consumes. */
  function Take(z: Zip, b: byte): (z': Zip)
    requires ZipOk(z) && !Silent(z) && z.rc == PXE_NONE
    ensures ZipOk(z')
  {
    match z.st
    case ZS_DATA => Store(z, [b])
    case ZS_DATA_SKIP => z.(total := z.total + 1)
    case ZS_SKIP_BYTES => Skip(z, 1)
    case _ => Copy(z, [b])
  }

  function Feed1(z: Zip, b: byte): (z': Zip)
    requires ZipOk(z)
    ensures ZipOk(z')
  {
    var s := Settle(z);
    if s.rc != PXE_NONE then s else Take(s, b)
  }

  /** A run over bytes; an error ends it. */
  function Feed(z: Zip, s: seq<byte>): (z': Zip)
    requires ZipOk(z)
    ensures ZipOk(z')
    decreases |s|
  {
    if s == [] || z.rc != PXE_NONE then z else Feed(Feed1(z, s[0]), s[1..])
  }
}
