/** What the archive readers of pax share: the file description and the calls they make
    (pax/pax.h:7-57). A run is judged by its trace, the list of those calls, in which adjacent
    pieces of one file's data are joined. The callbacks succeed. */
module Pax {
  import opened Bits
  import opened Seqs

  datatype Code = PXE_NONE | PXE_TRUNCATED | PXE_GARBAGE | PXE_MISC_ERR | INFLATE

  /** Seconds since 1970, or the date and time words of a ZIP header (mktime is not modelled). */
  datatype Time = UnixTime(t: int) | DosTime(date: nat, time: nat)

  datatype FileInfo = FileInfo(
    pathname: seq<byte>, username: seq<byte>, groupname: seq<byte>, linkname: seq<byte>,
    devMajor: int, devMinor: int, dev: nat, inode: nat, mode: nat, nlink: nat, uid: nat, gid: nat,
    rdev: nat, size: nat, mtime: Time, compressedSize: nat, hardlink: bool)

  /** pax_fi_clear (pax/main.cc:172-179) */
  const CLEARED: FileInfo := FileInfo([], [], [], [], 0, 0, 0, 0, 0, 0, 0, 0, 0, 0, UnixTime(0), 0, false)

  datatype Event = FileStart(fi: FileInfo) | FileData(bytes: seq<byte>) | FileEnd

  /** One more call; data that follows data joins it. */
  function Emit(trace: seq<Event>, e: Event): (t: seq<Event>)
    ensures |t| > 0
  {
    if e.FileData? && trace != [] && trace[|trace| - 1].FileData? then
      trace[..|trace| - 1] + [FileData(trace[|trace| - 1].bytes + e.bytes)]
    else
      trace + [e]
  }

  lemma EmitJoins(trace: seq<Event>, a: seq<byte>, b: seq<byte>)
    ensures Emit(Emit(trace, FileData(a)), FileData(b)) == Emit(trace, FileData(a + b))
  {
    if trace != [] && trace[|trace| - 1].FileData? {
      assert trace[|trace| - 1].bytes + (a + b) == trace[|trace| - 1].bytes + a + b;
    }
  }

  /** Data for a file that has started, with the data d so far. */
  lemma EmitInside(trace: seq<Event>, before: seq<Event>, start: Event, d: seq<byte>, s: seq<byte>)
    requires !start.FileData? && s != [] && trace == before + [start] + if d == [] then [] else [FileData(d)]
    ensures Emit(trace, FileData(s)) == before + [start] + [FileData(d + s)]
  {
    if d == [] {
      assert d + s == s && before + [start] + [] == before + [start];
    } else {
      assert trace[..|trace| - 1] == before + [start];
    }
  }

  function Zeros(n: nat): (z: seq<byte>)
    ensures |z| == n
  {
    seq(n, k => 0)
  }

  /** memcpy to s + pos */
  function Splice(s: seq<byte>, pos: nat, chunk: seq<byte>): (t: seq<byte>)
    ensures |t| == |s|
  {
    if pos + |chunk| <= |s| then s[..pos] + chunk + s[pos + |chunk|..] else s
  }

  lemma SpliceTwice(s: seq<byte>, pos: nat, a: seq<byte>, b: seq<byte>)
    requires pos + |a| + |b| <= |s|
    ensures Splice(Splice(s, pos, a), pos + |a|, b) == Splice(s, pos, a + b)
  {
  }

  lemma SpliceGrows(t: seq<byte>, pos: nat, s: seq<byte>)
    requires pos + |s| <= |t|
    ensures Front(Splice(t, pos, s), pos + |s|) == Front(t, pos) + s
  {
  }

  /** octal_str (pax/main.cc:157-170): a function of the bytes of a field into the range of a long. */
  type Octal = seq<byte> -> int

  function Field(s: seq<byte>, at: nat, len: nat): seq<byte> {
    if at + len <= |s| then s[at..at + len] else []
  }

  /** Assignment to an unsigned field wraps around, so "< 0" is never true of it. */
  function Unsigned32(x: int): nat { x % 0x1_0000_0000 }
  function Unsigned64(x: int): nat { x % 0x1_0000_0000_0000_0000 }

  /** Little-endian fields; a missing byte reads as 0. */
  function At(s: seq<byte>, i: nat): byte { if i < |s| then s[i] else 0 }
  function U16(s: seq<byte>, i: nat): (x: nat)
    ensures x < 65536
  {
    At(s, i) as nat + 256 * At(s, i + 1)
  }

  function U32(s: seq<byte>, i: nat): nat {
    U16(s, i) + 65536 * U16(s, i + 2)
  }

  // ----- CRC-32 as zlib computes it: a fold of a byte step -----

  function Xor(a: nat, b: nat): nat
    decreases a + b
  {
    if a == 0 && b == 0 then 0 else (if a % 2 == b % 2 then 0 else 1) + 2 * Xor(a / 2, b / 2)
  }

  function CrcBits(c: nat, k: nat): nat
    decreases k, c
  {
    if k == 0 then c else CrcBits(if c % 2 == 1 then Xor(c / 2, 0xedb88320) else c / 2, k - 1)
  }

  function CrcByte(c: nat, b: byte): nat {
    Xor(CrcBits(Xor(Xor(c, 0xffffffff), b), 8), 0xffffffff)
  }

  function Crc32(c: nat, s: seq<byte>): nat
    decreases |s|
  {
    if s == [] then c else Crc32(CrcByte(c, s[0]), s[1..])
  }

  lemma {:induction false} Crc32Concat(c: nat, a: seq<byte>, b: seq<byte>)
    ensures Crc32(c, a + b) == Crc32(Crc32(c, a), b)
    decreases |a|
  {
    if a == [] {
      assert a + b == b;
    } else {
      assert (a + b)[1..] == a[1..] + b;
      Crc32Concat(CrcByte(c, a[0]), a[1..], b);
    }
  }
}
