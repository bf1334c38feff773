/** pax/ustar.cc as a machine that is fed records of 512 bytes. oct stands for octal_str, a function
    of the bytes of a field into the range of a long. */
module UstarSpec {
  import opened Bits
  import opened Pax

  const REC_SZ: nat := 512
  const UINT: nat := 0x1_0000_0000

  /** struct ustar_state (pax/ustar.cc:65-72), the calls made, the records consumed, and the error that
      stopped the run. */
  datatype Ustar = Ustar(inArchive: bool, seenFirstBlock: bool, dataBlocks: nat, dataBytes: nat, fi: FileInfo,
                         trace: seq<Event>, records: nat, rc: Code)

  const START: Ustar := Ustar(true, false, 0, 0, CLEARED, [], 0, PXE_NONE)

  function Signed32(x: int): int { (x + 0x8000_0000) % UINT - 0x8000_0000 }

  /** ustar_hdr_str: up to the first NUL (pax/ustar.cc:123-127). */
  function Str(s: seq<byte>): (r: seq<byte>)
    ensures r <= s && 0 !in r
  {
    if s == [] || s[0] == 0 then [] else [s[0]] + Str(s[1..])
  }

  // ----- the header -----

  function SumBytes(s: seq<byte>): nat {
    if s == [] then 0 else s[0] as nat + SumBytes(s[1..])
  }

  /** The header with blanks for its checksum. */
  function Blanked(rec: seq<byte>): (r: seq<byte>)
    ensures |r| == |rec|
  {
    Splice(rec, 148, seq(8, k => 32))
  }

  /** ustar_hdr_cksum (pax/ustar.cc:95-121). */
  predicate CksumOk(oct: Octal, rec: seq<byte>) {
    oct(Field(rec, 148, 8)) == SumBytes(Blanked(rec))
  }

  /** The S_IFMT digit of a type flag; 0 if there is none (pax/ustar.cc:157-168). */
  function TypeOf(flag: byte): nat {
    if flag == 48 || flag == 49 || flag == 55 then 8       // '0', '1', '7': regular
    else if flag == 50 then 10                             // '2': symbolic link
    else if flag == 51 then 2                              // '3': character device
    else if flag == 52 then 6                              // '4': block device
    else if flag == 53 then 4                              // '5': directory
    else if flag == 54 then 1                              // '6': FIFO
    else 0
  }

  /** mode &= ~S_IFREG; mode |= S_IFDIR */
  function MakeDir(t: nat): nat {
    if t % 8 / 4 == 1 then t % 8 else t % 8 + 4
  }

  const USTAR: seq<byte> := [117, 115, 116, 97, 114, 0]  // "ustar"

  predicate IsUstar(rec: seq<byte>) { Field(rec, 257, 6) == USTAR }

  /** The old format marks a directory by a slash behind its name (pax/ustar.cc:178-186). */
  predicate OldDir(rec: seq<byte>) {
    var name := Str(Field(rec, 0, 100));
    !IsUstar(rec) && name != [] && name[|name| - 1] == 47
  }

  function Type(rec: seq<byte>): nat {
    var t := TypeOf(At(rec, 156));
    if OldDir(rec) then MakeDir(t) else t
  }

  function Size(oct: Octal, rec: seq<byte>): nat { Unsigned64(oct(Field(rec, 124, 12))) }

  function Name(rec: seq<byte>): seq<byte> {
    var base := Str(Field(rec, 0, 100));
    var dir := if IsUstar(rec) then Str(Field(rec, 345, 155)) else [];
    if OldDir(rec) then base[..|base| - 1]
    else if dir != [] && base != [] then dir + [47] + base
    else base
  }

  /** A header that is accepted (pax/ustar.cc:143-175). */
  predicate HdrOk(oct: Octal, rec: seq<byte>) {
    && CksumOk(oct, rec) && oct(Field(rec, 136, 12)) >= 0 && TypeOf(At(rec, 156)) != 0
    && (IsUstar(rec) ==> Signed32(oct(Field(rec, 329, 8))) >= 0 && Signed32(oct(Field(rec, 337, 8))) >= 0)
  }

  function FileOf(oct: Octal, rec: seq<byte>): FileInfo {
    var fi := CLEARED.(
      mode := Type(rec) * 4096 + Unsigned32(oct(Field(rec, 100, 8))) % 512,
      uid := Unsigned32(oct(Field(rec, 108, 8))), gid := Unsigned32(oct(Field(rec, 116, 8))),
      size := Size(oct, rec), mtime := UnixTime(oct(Field(rec, 136, 12))),
      hardlink := At(rec, 156) == 49, linkname := Str(Field(rec, 157, 100)), pathname := Name(rec));
    if IsUstar(rec) then
      fi.(username := Str(Field(rec, 265, 32)), groupname := Str(Field(rec, 297, 32)),
          devMajor := Signed32(oct(Field(rec, 329, 8))), devMinor := Signed32(oct(Field(rec, 337, 8))))
    else fi
  }

  /** The records a size takes. */
  function Records(size: nat): nat { (size + 511) / REC_SZ }

  /** size / 512 in an unsigned int, one more if there is a remainder (pax/ustar.cc:196-198). */
  function Blocks(size: nat): nat {
    var b := size / REC_SZ % UINT;
    if size % REC_SZ != 0 then (b + 1) % UINT else b
  }

  /** ustar_hdr_record (pax/ustar.cc:137-205). A rejected header leaves fi as it is here; in the source
      it is cleared and filled up to the field that is rejected, and the run has ended. */
  function HdrRecord(oct: Octal, z: Ustar, rec: seq<byte>): Ustar {
    if !HdrOk(oct, rec) then z.(rc := PXE_GARBAGE)
    else
      var regular := Type(rec) == 8;
      z.(fi := FileOf(oct, rec), trace := Emit(z.trace, FileStart(FileOf(oct, rec))), records := z.records + 1,
         dataBytes := if regular then Size(oct, rec) % UINT else 0,
         dataBlocks := if regular then Blocks(Size(oct, rec)) else 0)
  }

  /** ustar_data_record (pax/ustar.cc:210-231). */
  function DataRecord(z: Ustar, rec: seq<byte>): Ustar {
    if z.dataBlocks > 1 then
      z.(trace := Emit(z.trace, FileData(rec)), dataBlocks := z.dataBlocks - 1,
         dataBytes := (z.dataBytes - REC_SZ) % UINT, records := z.records + 1)
    else
      z.(trace := Emit(z.trace, FileData(if z.dataBytes <= |rec| then rec[..z.dataBytes] else rec)),
         dataBlocks := 0, dataBytes := 0, records := z.records + 1)
  }

  predicate AllZero(rec: seq<byte>) { forall b <- rec :: b == 0 }

  /** ustar_input_record (pax/ustar.cc:233-257). */
  function Record(oct: Octal, z: Ustar, rec: seq<byte>): Ustar {
    if z.dataBlocks > 0 then DataRecord(z, rec)
    else
      var w := if z.seenFirstBlock then z.(trace := Emit(z.trace, FileEnd)) else z;
      if AllZero(rec) then w.(inArchive := false, records := z.records + 1)
      else HdrRecord(oct, w, rec)
  }

  predicate Stopped(z: Ustar) { z.rc != PXE_NONE || !z.inArchive }

  /** The loop of ustar_input (pax/ustar.cc:259-282): a buffer is taken record by record. */
  function Feed(oct: Octal, z: Ustar, s: seq<byte>): Ustar
    decreases |s|
  {
    if s == [] || Stopped(z) then z
    else if |s| < REC_SZ then z.(rc := PXE_TRUNCATED)
    else Feed(oct, Record(oct, z, s[..REC_SZ]), s[REC_SZ..])
  }
}
