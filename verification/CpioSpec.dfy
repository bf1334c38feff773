/** pax/cpio.cc as a machine that is fed one byte at a time. oct stands for octal_str, a function of
    the bytes of a field into the range of a long. */
module CpioSpec {
  import opened Bits
  import opened Pax

  const HDR_LEN: nat := 76
  const PATH_MAX: int := 4096
  const MAGIC: seq<byte> := [48, 55, 48, 55, 48, 55]                        // "070707"
  const TRAILER: seq<byte> := [84, 82, 65, 73, 76, 69, 82, 33, 33, 33]      // "TRAILER!!!"

  datatype InputState = CS_HDR | CS_NAME | CS_DATA | CS_EOF | CS_TRAILER | CS_EOA

  /** struct cpio_state (pax/cpio.cc:57-70), the calls made, and the error that stopped the run. */
  datatype Cpio = Cpio(st: InputState, hdr: seq<byte>, hdrPos: nat, nameLen: nat, namePos: nat,
                       fi: FileInfo, fileBytes: nat, inputBytes: nat, trace: seq<Event>, rc: Code)

  const START: Cpio := Cpio(CS_HDR, Zeros(HDR_LEN), 0, 0, 0, CLEARED, 0, 0, [], PXE_NONE)

  // struct hdr_cpio (pax/cpio.cc:43-55)
  function Mtime(oct: Octal, hdr: seq<byte>): int { oct(Field(hdr, 48, 11)) }
  function NameSize(oct: Octal, hdr: seq<byte>): int { oct(Field(hdr, 59, 6)) }
  function Size(oct: Octal, hdr: seq<byte>): nat { Unsigned64(oct(Field(hdr, 65, 11))) }

  /** The fields before the size (pax/cpio.cc:103-113). */
  function EarlyInfo(oct: Octal, hdr: seq<byte>): FileInfo {
    CLEARED.(dev := Unsigned64(oct(Field(hdr, 6, 6))), inode := Unsigned64(oct(Field(hdr, 12, 6))),
             mode := Unsigned32(oct(Field(hdr, 18, 6))), uid := Unsigned32(oct(Field(hdr, 24, 6))),
             gid := Unsigned32(oct(Field(hdr, 30, 6))), nlink := Unsigned64(oct(Field(hdr, 36, 6))),
             rdev := Unsigned64(oct(Field(hdr, 42, 6))), mtime := UnixTime(Mtime(oct, hdr)))
  }

  /** A header cpio_hdr takes (pax/cpio.cc:94-127). */
  predicate HdrOk(oct: Octal, hdr: seq<byte>) {
    Field(hdr, 0, 6) == MAGIC && Mtime(oct, hdr) >= 0 && 0 <= NameSize(oct, hdr) <= PATH_MAX
  }

  function HdrEnd(oct: Octal, z: Cpio): Cpio {
    if Field(z.hdr, 0, 6) != MAGIC then z.(rc := PXE_GARBAGE)
    else if !HdrOk(oct, z.hdr) then z.(fi := EarlyInfo(oct, z.hdr), rc := PXE_GARBAGE)
    else
      z.(fi := EarlyInfo(oct, z.hdr).(pathname := Zeros(NameSize(oct, z.hdr)), size := Size(oct, z.hdr)),
         nameLen := NameSize(oct, z.hdr), fileBytes := Size(oct, z.hdr), hdrPos := 0, st := CS_NAME)
  }

  function HdrCopied(z: Cpio, chunk: seq<byte>): Cpio {
    z.(hdr := Splice(z.hdr, z.hdrPos, chunk), hdrPos := z.hdrPos + |chunk|, inputBytes := z.inputBytes + |chunk|)
  }

  /** pax/cpio.cc:157-177 */
  function TakeHdr(oct: Octal, z: Cpio, chunk: seq<byte>): Cpio {
    var w := HdrCopied(z, chunk);
    if w.hdrPos == HDR_LEN then HdrEnd(oct, w) else w
  }

  /** cpio_hdr_name, and the state that follows (pax/cpio.cc:131-141, :190-202). */
  function NameEnd(z: Cpio): Cpio {
    if z.fi.pathname == TRAILER then z.(st := CS_EOA, namePos := 0)
    else z.(st := if z.fi.size > 0 then CS_DATA else CS_EOF, namePos := 0, trace := Emit(z.trace, FileStart(z.fi)))
  }

  function NameCopied(z: Cpio, chunk: seq<byte>): Cpio {
    z.(fi := z.fi.(pathname := Splice(z.fi.pathname, z.namePos, chunk)), namePos := z.namePos + |chunk|,
       inputBytes := z.inputBytes + |chunk|)
  }

  /** pax/cpio.cc:179-205 */
  function TakeName(z: Cpio, chunk: seq<byte>): Cpio {
    var w := NameCopied(z, chunk);
    if w.namePos == w.nameLen then NameEnd(w) else w
  }

  function DataTaken(z: Cpio, chunk: seq<byte>): Cpio {
    z.(trace := Emit(z.trace, FileData(chunk)), inputBytes := z.inputBytes + |chunk|,
       fileBytes := if |chunk| <= z.fileBytes then z.fileBytes - |chunk| else 0)
  }

  /** pax/cpio.cc:207-226 */
  function TakeData(z: Cpio, chunk: seq<byte>): Cpio {
    var w := DataTaken(z, chunk);
    if w.fileBytes == 0 then w.(st := CS_EOF) else w
  }

  ghost predicate CpioOk(z: Cpio) {
    && |z.hdr| == HDR_LEN && z.hdrPos <= HDR_LEN && (z.rc == PXE_NONE ==> z.hdrPos < HDR_LEN)
    && (z.st == CS_NAME ==> |z.fi.pathname| == z.nameLen && z.fileBytes == z.fi.size)
    && (z.st == CS_NAME ==> z.namePos < z.nameLen || z.namePos == 0 == z.nameLen)
    && (z.st != CS_NAME ==> z.namePos == 0)
    && (z.st != CS_HDR ==> z.hdrPos == 0)
    && (z.st == CS_DATA ==> z.fileBytes > 0)
  }

  /** The next turn of the loop consumes nothing. */
  predicate Silent(z: Cpio) {
    z.rc == PXE_NONE && (z.st == CS_EOF || z.st == CS_TRAILER || (z.st == CS_NAME && z.namePos == z.nameLen))
  }

  function Move(z: Cpio): Cpio {
    match z.st
    case CS_EOF => z.(trace := Emit(z.trace, FileEnd), st := CS_HDR)
    case CS_TRAILER => z.(st := CS_EOA)
    case _ => TakeName(z, [])
  }

  function Rank(z: Cpio): nat {
    match z.st
    case CS_NAME => 2
    case CS_EOF => 1
    case CS_TRAILER => 1
    case _ => 0
  }

  lemma MoveRank(z: Cpio)
    requires CpioOk(z) && Silent(z)
    ensures CpioOk(Move(z)) && Move(z).rc == PXE_NONE && Rank(Move(z)) < Rank(z) && Move(z).inputBytes == z.inputBytes
  {
    assert Splice(z.fi.pathname, z.namePos, []) == z.fi.pathname;
  }

  /** All the turns before the next byte. */
  function Settle(z: Cpio): (z': Cpio)
    requires CpioOk(z)
    ensures CpioOk(z') && !Silent(z') && z'.inputBytes == z.inputBytes
    decreases Rank(z)
  {
    if Silent(z) then
      MoveRank(z);
      Settle(Move(z))
    else z
  }

  /** After an error, and after the trailer, nothing more is looked at (pax/cpio.cc:244-246). */
  predicate Stopped(z: Cpio) { z.rc != PXE_NONE || z.st == CS_EOA }

  function Take(oct: Octal, z: Cpio, b: byte): (z': Cpio)
    requires CpioOk(z) && !Silent(z) && !Stopped(z)
    ensures CpioOk(z') && z'.inputBytes == z.inputBytes + 1
  {
    match z.st
    case CS_HDR => TakeHdr(oct, z, [b])
    case CS_NAME => TakeName(z, [b])
    case _ => TakeData(z, [b])
  }

  function Feed1(oct: Octal, z: Cpio, b: byte): (z': Cpio)
    requires CpioOk(z)
    ensures CpioOk(z') && z.inputBytes <= z'.inputBytes <= z.inputBytes + 1
    ensures Stopped(z') || z'.inputBytes == z.inputBytes + 1
  {
    var s := Settle(z);
    if Stopped(s) then s else Take(oct, s, b)
  }

  /** A run over bytes; an error or the trailer ends it. */
  function Feed(oct: Octal, z: Cpio, s: seq<byte>): (z': Cpio)
    requires CpioOk(z)
    ensures CpioOk(z') && z.inputBytes <= z'.inputBytes <= z.inputBytes + |s|
    ensures Stopped(z') || z'.inputBytes == z.inputBytes + |s|
    decreases |s|
  {
    if s == [] || Stopped(z) then z else Feed(oct, Feed1(oct, z, s[0]), s[1..])
  }
}
