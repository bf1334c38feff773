/** What a cpio archive is made of, that the machine reads exactly that, and when it sees the end. */
module CpioRecords {
  import opened Bits
  import opened Pax
  import opened CpioSpec
  import opened Seqs

  /** A header, the name and the data it announces. */
  datatype Member = Member(hdr: seq<byte>, name: seq<byte>, data: seq<byte>)

  function Encode(m: Member): seq<byte> { m.hdr + m.name + m.data }

  predicate Sound(oct: Octal, m: Member) {
    && |m.hdr| == HDR_LEN && HdrOk(oct, m.hdr)
    && |m.name| == NameSize(oct, m.hdr) && m.name != TRAILER && |m.data| == Size(oct, m.hdr)
  }

  function FileOf(oct: Octal, hdr: seq<byte>, name: seq<byte>): FileInfo {
    EarlyInfo(oct, hdr).(pathname := name, size := Size(oct, hdr))
  }

  /** Start, the data at once if there is any, end. */
  function Calls(oct: Octal, m: Member): seq<Event> {
    [FileStart(FileOf(oct, m.hdr, m.name))] + (if m.data == [] then [] else [FileData(m.data)]) + [FileEnd]
  }

  predicate AllSound(oct: Octal, ms: seq<Member>) {
    forall m <- ms :: Sound(oct, m)
  }

  function EncodeAll(ms: seq<Member>): seq<byte> {
    if ms == [] then [] else EncodeAll(ms[..|ms| - 1]) + Encode(ms[|ms| - 1])
  }

  function CallsAll(oct: Octal, ms: seq<Member>): seq<Event> {
    if ms == [] then [] else CallsAll(oct, ms[..|ms| - 1]) + Calls(oct, ms[|ms| - 1])
  }

  lemma OneMore(oct: Octal, ms: seq<Member>, m: Member)
    ensures EncodeAll(ms + [m]) == EncodeAll(ms) + Encode(m)
    ensures CallsAll(oct, ms + [m]) == CallsAll(oct, ms) + Calls(oct, m)
    ensures AllSound(oct, ms) && Sound(oct, m) ==> AllSound(oct, ms + [m])
  {
    assert (ms + [m])[..|ms|] == ms;
  }

  /** The header has been read, and it is sound. */
  ghost predicate Prepared(oct: Octal, z: Cpio) {
    HdrOk(oct, z.hdr) && z.fi == FileOf(oct, z.hdr, z.fi.pathname) && |z.fi.pathname| == NameSize(oct, z.hdr)
  }

  /** The calls so far for a member whose data so far is d. */
  ghost predicate CallsSoFar(z: Cpio, before: seq<Event>, d: seq<byte>) {
    z.trace == before + [FileStart(z.fi)] + if d == [] then [] else [FileData(d)]
  }

  /** The state is inside the member that begins with part, before having been the trace when it
      began; d is its data so far. */
  ghost predicate Inside(oct: Octal, z: Cpio, part: seq<byte>, before: seq<Event>, d: seq<byte>) {
    match z.st
    case CS_HDR => part == Front(z.hdr, z.hdrPos) && z.trace == before
    case CS_NAME =>
      && part == z.hdr + Front(z.fi.pathname, z.namePos) && z.trace == before
      && Prepared(oct, z) && z.nameLen == NameSize(oct, z.hdr) && z.fileBytes == Size(oct, z.hdr)
    case CS_DATA =>
      && part == z.hdr + z.fi.pathname + d && Prepared(oct, z) && z.fi.pathname != TRAILER
      && CallsSoFar(z, before, d) && |d| + z.fileBytes == Size(oct, z.hdr)
    case CS_EOF =>
      && part == z.hdr + z.fi.pathname + d && Prepared(oct, z) && z.fi.pathname != TRAILER
      && CallsSoFar(z, before, d) && |d| == Size(oct, z.hdr)
    case CS_TRAILER => false
    case CS_EOA => part == z.hdr + TRAILER && HdrOk(oct, z.hdr) && NameSize(oct, z.hdr) == 10 && z.trace == before
  }

  lemma HdrInside(oct: Octal, z: Cpio, part: seq<byte>, before: seq<Event>, s: seq<byte>)
    requires CpioOk(z) && z.st == CS_HDR && z.rc == PXE_NONE && Inside(oct, z, part, before, [])
    requires z.hdrPos + |s| <= HDR_LEN
    ensures Inside(oct, TakeHdr(oct, z, s), part + s, before, [])
  {
    SpliceGrows(z.hdr, z.hdrPos, s);
    var w := HdrCopied(z, s);
    if w.hdrPos == HDR_LEN {
      assert Front(w.hdr, HDR_LEN) == w.hdr == w.hdr + [];
    }
  }

  lemma NameInside(oct: Octal, z: Cpio, part: seq<byte>, before: seq<Event>, s: seq<byte>)
    requires CpioOk(z) && z.st == CS_NAME && Inside(oct, z, part, before, [])
    requires z.namePos + |s| <= z.nameLen
    ensures Inside(oct, TakeName(z, s), part + s, before, [])
  {
    SpliceGrows(z.fi.pathname, z.namePos, s);
    Assoc(z.hdr, Front(z.fi.pathname, z.namePos), s);
    var w := NameCopied(z, s);
    if w.namePos == w.nameLen {
      assert Front(w.fi.pathname, w.namePos) == w.fi.pathname;
      assert w.hdr + w.fi.pathname + [] == w.hdr + w.fi.pathname;
      assert before + [FileStart(w.fi)] + [] == before + [FileStart(w.fi)];
    }
  }

  lemma DataInside(oct: Octal, z: Cpio, part: seq<byte>, before: seq<Event>, d: seq<byte>, s: seq<byte>)
    requires CpioOk(z) && z.st == CS_DATA && Inside(oct, z, part, before, d) && s != [] && |s| <= z.fileBytes
    ensures Inside(oct, TakeData(z, s), part + s, before, d + s)
  {
    EmitInside(z.trace, before, FileStart(z.fi), d, s);
    Assoc(z.hdr + z.fi.pathname, d, s);
  }

  lemma MemberWhole(oct: Octal, z: Cpio, part: seq<byte>, before: seq<Event>, d: seq<byte>) returns (m: Member)
    requires CpioOk(z) && z.st == CS_EOF && Inside(oct, z, part, before, d)
    ensures Sound(oct, m) && Encode(m) == part && Move(z).trace == before + Calls(oct, m)
  {
    m := Member(z.hdr, z.fi.pathname, d);
    var data := if d == [] then [] else [FileData(d)];
    assert before + [FileStart(z.fi)] + data + [FileEnd] == before + ([FileStart(z.fi)] + data + [FileEnd]);
  }

  // ----- whole runs -----

  ghost predicate Accounts(oct: Octal, z: Cpio, bytes: seq<byte>, ms: seq<Member>, part: seq<byte>, d: seq<byte>) {
    AllSound(oct, ms) && bytes == EncodeAll(ms) + part && Inside(oct, z, part, CallsAll(oct, ms), d)
  }

  /** bytes are whole members and the part of one more that the state is inside of. */
  ghost predicate Accounted(oct: Octal, z: Cpio, bytes: seq<byte>) {
    exists ms, part, d :: Accounts(oct, z, bytes, ms, part, d)
  }

  lemma AccountMove(oct: Octal, z: Cpio, bytes: seq<byte>)
    requires CpioOk(z) && Silent(z) && Accounted(oct, z, bytes)
    ensures Accounted(oct, Move(z), bytes)
  {
    var ms, part, d :| Accounts(oct, z, bytes, ms, part, d);
    if z.st == CS_EOF {
      var m := MemberWhole(oct, z, part, CallsAll(oct, ms), d);
      OneMore(oct, ms, m);
      assert Front(z.hdr, 0) == [];
      assert Accounts(oct, Move(z), bytes, ms + [m], [], []);
    } else {
      NameInside(oct, z, part, CallsAll(oct, ms), []);
      assert part + [] == part;
      assert Accounts(oct, Move(z), bytes, ms, part, []);
    }
  }

  lemma {:induction false} AccountSettle(oct: Octal, z: Cpio, bytes: seq<byte>)
    requires CpioOk(z) && Accounted(oct, z, bytes)
    ensures Accounted(oct, Settle(z), bytes)
    decreases Rank(z)
  {
    if Silent(z) {
      MoveRank(z);
      AccountMove(oct, z, bytes);
      AccountSettle(oct, Move(z), bytes);
    }
  }

  lemma TakeInside(oct: Octal, z: Cpio, part: seq<byte>, before: seq<Event>, d: seq<byte>, b: byte)
    returns (d': seq<byte>)
    requires CpioOk(z) && !Silent(z) && !Stopped(z) && Inside(oct, z, part, before, d)
    ensures Inside(oct, Take(oct, z, b), part + [b], before, d')
  {
    d' := if z.st == CS_DATA then d + [b] else [];
    if z.st == CS_HDR {
      HdrInside(oct, z, part, before, [b]);
    } else if z.st == CS_NAME {
      NameInside(oct, z, part, before, [b]);
    } else {
      DataInside(oct, z, part, before, d, [b]);
    }
  }

  lemma AccountTake(oct: Octal, z: Cpio, bytes: seq<byte>, b: byte)
    requires CpioOk(z) && !Silent(z) && !Stopped(z) && Accounted(oct, z, bytes)
    ensures Accounted(oct, Take(oct, z, b), bytes + [b])
  {
    var ms, part, d :| Accounts(oct, z, bytes, ms, part, d);
    Assoc(EncodeAll(ms), part, [b]);
    var d' := TakeInside(oct, z, part, CallsAll(oct, ms), d, b);
    assert Accounts(oct, Take(oct, z, b), bytes + [b], ms, part + [b], d');
  }

  lemma AccountFeed1(oct: Octal, z: Cpio, bytes: seq<byte>, b: byte)
    requires CpioOk(z) && Accounted(oct, z, bytes)
    ensures Accounted(oct, Feed1(oct, z, b), if Feed1(oct, z, b).inputBytes == z.inputBytes then bytes else bytes + [b])
    ensures Feed1(oct, z, b).inputBytes == z.inputBytes ==> Stopped(Feed1(oct, z, b))
  {
    AccountSettle(oct, z, bytes);
    if !Stopped(Settle(z)) {
      AccountTake(oct, Settle(z), bytes, b);
    }
  }

  lemma {:induction false} AccountFeed(oct: Octal, z: Cpio, bytes: seq<byte>, s: seq<byte>) returns (n: nat)
    requires CpioOk(z) && Accounted(oct, z, bytes)
    ensures n <= |s| && Feed(oct, z, s).inputBytes == z.inputBytes + n
    ensures Accounted(oct, Feed(oct, z, s), bytes + s[..n])
    decreases |s|
  {
    n := 0;
    assert bytes + s[..0] == bytes;
    if s != [] && !Stopped(z) {
      AccountFeed1(oct, z, bytes, s[0]);
      var z1 := Feed1(oct, z, s[0]);
      if z1.inputBytes != z.inputBytes {
        var m := AccountFeed(oct, z1, bytes + [s[0]], s[1..]);
        n := m + 1;
        SliceStep(bytes, s, m, n);
      }
    }
  }

  /** Every run, on any bytes: what was consumed is whole members and the beginning of one more, or
      the trailer; each completed member's data is the c_filesize bytes after its name, and the calls
      are theirs and the first of those of the one more, with the data that has come so far. */
  lemma Conservation(oct: Octal, input: seq<byte>) returns (n: nat)
    ensures n == Feed(oct, START, input).inputBytes <= |input|
    ensures Accounted(oct, Feed(oct, START, input), input[..n])
  {
    assert Front(START.hdr, 0) == [];
    assert Accounts(oct, START, [], [], [], []);
    n := AccountFeed(oct, START, [], input);
    assert [] + input[..n] == input[..n];
  }
}
