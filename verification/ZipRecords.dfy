/** What a ZIP archive is made of, and that the machine reads exactly that: every run, on any bytes,
    has delivered the members of a list of whole records and is inside one more. */
module ZipRecords {
  import opened Bits
  import opened Pax
  import opened ZipSpec
  import opened ZipRun
  import opened Seqs

  const LOCAL_SIG: seq<byte> := [0x50, 0x4b, 3, 4]
  const CENTRAL_SIG: seq<byte> := [0x50, 0x4b, 1, 2]
  const END_SIG: seq<byte> := [0x50, 0x4b, 5, 6]

  /** A stored member with its header, a central directory entry, or the end record. */
  datatype Rec =
    | Local(hdr: seq<byte>, name: seq<byte>, extra: seq<byte>, data: seq<byte>, desc: seq<byte>)
    | Central(cdh: seq<byte>, tail: seq<byte>)
    | EndRec(ecd: seq<byte>, comment: seq<byte>)

  function Head(hdr: seq<byte>, name: seq<byte>, extra: seq<byte>): seq<byte> {
    LOCAL_SIG + hdr + name + extra
  }

  function Encode(r: Rec): seq<byte> {
    match r
    case Local(hdr, name, extra, data, desc) => Head(hdr, name, extra) + data + desc
    case Central(cdh, tail) => CENTRAL_SIG + cdh + tail
    case EndRec(ecd, comment) => END_SIG + ecd + comment
  }

  /** The file a stored member describes. */
  function FileOf(hdr: seq<byte>, name: seq<byte>, extra: seq<byte>): FileInfo {
    Extras(HdrInfo(hdr), extra).1.(pathname := name)
  }

  predicate HeadOk(hdr: seq<byte>, name: seq<byte>, extra: seq<byte>) {
    && |hdr| == 26 && Method(hdr) == 0 && |name| == NameLen(hdr) && |extra| == ExtraLen(hdr)
    && Extras(HdrInfo(hdr), extra).0
  }

  /** The lengths and the checksum are those the headers announce. */
  predicate Sound(r: Rec) {
    match r
    case Local(hdr, name, extra, data, desc) =>
      && HeadOk(hdr, name, extra)
      && |data| == SizeU(hdr) && Crc32(0, data) == HdrCrc(hdr)
      && |desc| == if HasDesc(hdr) then 12 else 0
    case Central(cdh, tail) => |cdh| == 42 && |tail| == CentralTail(cdh)
    case EndRec(ecd, comment) => |ecd| == 18 && |comment| == EndTail(ecd)
  }

  /** The calls for one record: start, all the data at once, end. */
  function Calls(r: Rec): seq<Event> {
    match r
    case Local(hdr, name, extra, data, desc) => [FileStart(FileOf(hdr, name, extra)), FileData(data), FileEnd]
    case Central(_, _) => []
    case EndRec(_, _) => []
  }

  predicate AllSound(rs: seq<Rec>) {
    forall r <- rs :: Sound(r)
  }

  function EncodeAll(rs: seq<Rec>): seq<byte> {
    if rs == [] then [] else EncodeAll(rs[..|rs| - 1]) + Encode(rs[|rs| - 1])
  }

  function CallsAll(rs: seq<Rec>): seq<Event> {
    if rs == [] then [] else CallsAll(rs[..|rs| - 1]) + Calls(rs[|rs| - 1])
  }

  lemma OneMore(rs: seq<Rec>, r: Rec)
    ensures EncodeAll(rs + [r]) == EncodeAll(rs) + Encode(r)
    ensures CallsAll(rs + [r]) == CallsAll(rs) + Calls(r)
    ensures AllSound(rs) && Sound(r) ==> AllSound(rs + [r])
  {
    assert (rs + [r])[..|rs|] == rs;
  }

  // ----- inside a record -----

  /** The fields of a record before the one that is being copied. */
  function Fields(b: Bufs, st: InputState, d: seq<byte>): seq<byte> {
    match st
    case ZS_BEGIN_REC => []
    case ZS_FILE_HDR => LOCAL_SIG
    case ZS_FILE_NAME => LOCAL_SIG + b.hdr
    case ZS_EXTRA => LOCAL_SIG + b.hdr + b.name
    case ZS_DATA_DESC => HeadOf(b) + d
    case ZS_CENTRAL_DIR => CENTRAL_SIG
    case _ => END_SIG
  }

  ghost predicate CopyOk(z: Zip, before: seq<Event>, d: seq<byte>) {
    if z.st == ZS_DATA_DESC then Finished(z, before, d) && HasDesc(z.bufs.hdr)
    else
      && z.trace == before
      && (z.st == ZS_FILE_NAME || z.st == ZS_EXTRA ==> Prepared(z) && Named(z.bufs))
  }

  /** The state is inside the record that begins with part, before having been the trace when it
      began; d is the data, or the skipped bytes, so far. */
  ghost predicate Inside(z: Zip, part: seq<byte>, before: seq<Event>, d: seq<byte>) {
    var b := z.bufs;
    match z.st
    case ZS_HANDLE_REC => part == b.sig && z.trace == before
    case ZS_FILE_HDR_END => part == LOCAL_SIG + b.hdr && z.trace == before
    case ZS_FLUSH_HDR =>
      && part == HeadOf(b) && z.trace == before && Named(b)
      && (z.rc == PXE_NONE ==> Prepared(z))
    case ZS_DATA => Started(z, part, before, d)
    case ZS_DATA_SKIP => Finished(z, before, d) && part == HeadOf(b) + d && z.dataBytes == 0
    case ZS_EOR_FILE =>
      Finished(z, before, d) && part == HeadOf(b) + d + if HasDesc(b.hdr) then b.desc else []
    case ZS_CENTRAL_DIR_END => part == CENTRAL_SIG + b.cdh && z.trace == before
    case ZS_END_CENTRAL_END => part == END_SIG + b.ecd && z.trace == before
    case ZS_SKIP_BYTES => Skipping(b, part, d, z.skip) && z.trace == before
    case ZS_EOR => Skipping(b, part, d, 0) && z.trace == before
    case _ => CopyOk(z, before, d) && part == Fields(b, z.st, d) + Front(Target(b, z.st), z.pos)
  }

  ghost predicate Prepared(z: Zip) {
    && z.fi == HdrInfo(z.bufs.hdr) && z.crc == 0
    && (if Method(z.bufs.hdr) == 0 then z.dataBytes == SizeU(z.bufs.hdr) else Method(z.bufs.hdr) == 8)
  }

  ghost predicate Named(b: Bufs) {
    |b.name| == NameLen(b.hdr)
  }

  function Extra(b: Bufs): seq<byte> {
    Front(b.extra, ExtraLen(b.hdr))
  }

  function HeadOf(b: Bufs): seq<byte> {
    Head(b.hdr, b.name, Extra(b))
  }

  function StartOf(b: Bufs): Event {
    FileStart(FileOf(b.hdr, b.name, Extra(b)))
  }

  /** The calls so far for a member whose data so far is d. */
  ghost predicate CallsSoFar(trace: seq<Event>, before: seq<Event>, start: Event, d: seq<byte>) {
    (d == [] && trace == before + [start]) || trace == before + [start, FileData(d)]
  }

  ghost predicate DataSoFar(z: Zip, d: seq<byte>) {
    if Method(z.bufs.hdr) == 0 then |d| + z.dataBytes == SizeU(z.bufs.hdr) && z.crc == Crc32(0, d)
    else Method(z.bufs.hdr) == 8 && d == []
  }

  ghost predicate Started(z: Zip, part: seq<byte>, before: seq<Event>, d: seq<byte>) {
    && part == HeadOf(z.bufs) + d && Named(z.bufs) && Extras(HdrInfo(z.bufs.hdr), Extra(z.bufs)).0
    && CallsSoFar(z.trace, before, StartOf(z.bufs), d) && DataSoFar(z, d)
  }

  ghost predicate Finished(z: Zip, before: seq<Event>, d: seq<byte>) {
    var b := z.bufs;
    && HeadOk(b.hdr, b.name, Extra(b)) && |d| == SizeU(b.hdr) && Crc32(0, d) == HdrCrc(b.hdr)
    && z.trace == before + [StartOf(b), FileData(d)]
  }

  ghost predicate Skipping(b: Bufs, part: seq<byte>, d: seq<byte>, left: nat) {
    || (part == CENTRAL_SIG + b.cdh + d && |d| + left == CentralTail(b.cdh))
    || (part == END_SIG + b.ecd + d && |d| + left == EndTail(b.ecd))
  }

  /** The signatures are what the source compares with. */
  lemma SigBytes(s: seq<byte>)
    requires |s| == 4
    ensures U32(s, 0) == SIG_LOCAL_FILE <==> s == LOCAL_SIG
    ensures U32(s, 0) == SIG_CENTRAL_DIR <==> s == CENTRAL_SIG
    ensures U32(s, 0) == SIG_CENTRAL_DIR_END <==> s == END_SIG
  {
    assert s == [s[0], s[1], s[2], s[3]];
  }

  lemma EmitMore(trace: seq<Event>, before: seq<Event>, start: Event, d: seq<byte>, s: seq<byte>)
    requires !start.FileData? && CallsSoFar(trace, before, start, d)
    ensures Emit(trace, FileData(s)) == before + [start, FileData(d + s)]
  {
    if trace == before + [start, FileData(d)] {
      assert trace[..|trace| - 1] == before + [start];
    } else {
      assert d + s == s;
    }
  }

  lemma DataMore(z: Zip, d: seq<byte>, s: seq<byte>)
    requires DataSoFar(z, d) && Method(z.bufs.hdr) == 0 && |s| <= z.dataBytes
    ensures DataSoFar(Stored(z, s), d + s)
  {
    Crc32Concat(0, d, s);
  }

  /** Stored data is accounted for. */
  lemma StoredInside(z: Zip, part: seq<byte>, before: seq<Event>, d: seq<byte>, s: seq<byte>)
    requires Started(z, part, before, d) && Method(z.bufs.hdr) == 0 && |s| <= z.dataBytes
    ensures Started(Stored(z, s), part + s, before, d + s)
    ensures Stored(z, s).trace == before + [StartOf(z.bufs), FileData(d + s)]
  {
    DataMore(z, d, s);
    EmitMore(z.trace, before, StartOf(z.bufs), d, s);
    Assoc(HeadOf(z.bufs), d, s);
  }

  lemma StoreDone(w: Zip, part: seq<byte>, before: seq<Event>, d: seq<byte>)
    requires Started(w, part, before, d) && Method(w.bufs.hdr) == 0 && w.dataBytes == 0
    requires w.trace == before + [StartOf(w.bufs), FileData(d)]
    requires |w.bufs.hdr| == 26 && |w.bufs.extra| == MAX_EXTRA && HdrCrc(w.bufs.hdr) == w.crc
    ensures Inside(w.(st := ZS_DATA_SKIP), part, before, d)
  {
  }

  lemma StoreInside(z: Zip, part: seq<byte>, before: seq<Event>, d: seq<byte>, s: seq<byte>)
    requires ZipOk(z) && z.st == ZS_DATA && Started(z, part, before, d)
    requires Method(z.bufs.hdr) == 0 && |s| <= z.dataBytes
    ensures Inside(Store(z, s), part + s, before, d + s)
  {
    var w := Stored(z, s);
    StoredInside(z, part, before, d, s);
    if w.dataBytes == 0 && HdrCrc(z.bufs.hdr) == w.crc {
      StoreDone(w, part + s, before, d + s);
    }
  }

  lemma FillShape(b: Bufs, st: InputState, pos: nat, s: seq<byte>, d: seq<byte>)
    requires Copies(st)
    ensures Target(Fill(b, st, pos, s), st) == Splice(Target(b, st), pos, s)
    ensures Fields(Fill(b, st, pos, s), st, d) == Fields(b, st, d)
  {
  }

  lemma FillOk(z: Zip, before: seq<Event>, d: seq<byte>, s: seq<byte>)
    requires Copies(z.st) && CopyOk(z, before, d)
    ensures CopyOk(Copied(z, s), before, d)
  {
  }

  /** A copy in progress is accounted for. */
  lemma CopiedInside(z: Zip, part: seq<byte>, before: seq<Event>, d: seq<byte>, s: seq<byte>)
    requires ZipOk(z) && Copies(z.st) && Inside(z, part, before, d) && z.pos + |s| <= Need(z)
    ensures Inside(Copied(z, s), part + s, before, d)
  {
    var t := Target(z.bufs, z.st);
    NeedFits(z);
    FillShape(z.bufs, z.st, z.pos, s, d);
    FillOk(z, before, d, s);
    SpliceGrows(t, z.pos, s);
    Assoc(Fields(z.bufs, z.st, d), Front(t, z.pos), s);
  }

  /** And when it is complete. */
  lemma SwitchInside(w: Zip, part: seq<byte>, before: seq<Event>, d: seq<byte>)
    requires Copies(w.st) && Inside(w, part, before, d) && w.pos == Need(w)
    requires |w.bufs.sig| == 4 && |w.bufs.hdr| == 26 && |w.bufs.extra| == MAX_EXTRA
    requires |w.bufs.desc| == 12 && |w.bufs.cdh| == 42 && |w.bufs.ecd| == 18
    ensures Inside(w.(st := After(w.st), pos := 0), part, before, d)
  {
    var t := Target(w.bufs, w.st);
    if w.st != ZS_EXTRA {
      assert Front(t, w.pos) == t;
    }
    assert Fields(w.bufs, ZS_FILE_NAME, d) + [] == Fields(w.bufs, ZS_FILE_NAME, d);
    assert Fields(w.bufs, ZS_EXTRA, d) + [] == Fields(w.bufs, ZS_EXTRA, d);
  }

  lemma CopyInside(z: Zip, part: seq<byte>, before: seq<Event>, d: seq<byte>, s: seq<byte>)
    requires ZipOk(z) && Copies(z.st) && Inside(z, part, before, d) && z.pos + |s| <= Need(z)
    ensures Inside(Copy(z, s), part + s, before, d)
  {
    CopiedInside(z, part, before, d, s);
    if z.pos + |s| == Need(z) {
      SwitchInside(Copied(z, s), part + s, before, d);
    }
  }

  // ----- the steps that consume nothing -----

  lemma HandleInside(z: Zip, part: seq<byte>, before: seq<Event>, d: seq<byte>)
    requires ZipOk(z) && z.st == ZS_HANDLE_REC && Inside(z, part, before, d)
    ensures Inside(HandleRec(z), part, before, d)
  {
    SigBytes(z.bufs.sig);
    assert part + [] == part;
  }

  lemma HdrEndInside(z: Zip, part: seq<byte>, before: seq<Event>, d: seq<byte>)
    requires ZipOk(z) && z.st == ZS_FILE_HDR_END && Inside(z, part, before, d)
    ensures Inside(HdrEnd(z), part, before, d)
  {
    assert part + [] == part;
  }

  lemma FlushInside(z: Zip, part: seq<byte>, before: seq<Event>)
    requires ZipOk(z) && z.st == ZS_FLUSH_HDR && z.rc == PXE_NONE && Inside(z, part, before, [])
    ensures Inside(FlushHdr(z), part, before, [])
  {
    assert part + [] == part;
    FlushCalls(z);
  }

  lemma FlushCalls(z: Zip)
    requires z.st == ZS_FLUSH_HDR && Prepared(z) && ExtraLen(z.bufs.hdr) <= |z.bufs.extra|
    ensures Extras(z.fi, z.bufs.extra[..ExtraLen(z.bufs.hdr)]).0 ==>
              FlushHdr(z).trace == z.trace + [StartOf(z.bufs)]
  {
  }

  lemma SkipStart(z: Zip, part: seq<byte>, before: seq<Event>, d: seq<byte>)
    requires z.st == ZS_CENTRAL_DIR_END || z.st == ZS_END_CENTRAL_END
    requires Inside(z, part, before, d)
    ensures Inside(Move(z), part, before, [])
  {
    assert part + [] == part;
  }

  lemma DataSkipInside(z: Zip, part: seq<byte>, before: seq<Event>, d: seq<byte>)
    requires ZipOk(z) && z.st == ZS_DATA_SKIP && Inside(z, part, before, d)
    ensures Inside(Move(z), part, before, d)
  {
    assert part + [] == part;
  }

  /** At the end of a member, the record is whole. */
  lemma MemberWhole(z: Zip, part: seq<byte>, before: seq<Event>, d: seq<byte>) returns (r: Rec)
    requires ZipOk(z) && z.st == ZS_EOR_FILE && Inside(z, part, before, d)
    ensures Sound(r) && Encode(r) == part && Move(z).trace == before + Calls(r)
  {
    var b := z.bufs;
    r := Local(b.hdr, b.name, Extra(b), d, if HasDesc(b.hdr) then b.desc else []);
    assert before + [StartOf(b), FileData(d)] + [FileEnd] == before + Calls(r);
  }

  /** After a skip too. */
  lemma SkipWhole(z: Zip, part: seq<byte>, before: seq<Event>, d: seq<byte>) returns (r: Rec)
    requires ZipOk(z) && z.st == ZS_EOR && Inside(z, part, before, d)
    ensures Sound(r) && Encode(r) == part && Move(z).trace == before + Calls(r)
  {
    if part == CENTRAL_SIG + z.bufs.cdh + d && |d| == CentralTail(z.bufs.cdh) {
      r := Central(z.bufs.cdh, d);
    } else {
      r := EndRec(z.bufs.ecd, d);
    }
    assert before + [] == before;
  }

  // ----- whole runs -----

  /** bytes are the records rs and the part of one more that the state is inside of. */
  ghost predicate Accounts(z: Zip, bytes: seq<byte>, rs: seq<Rec>, part: seq<byte>, d: seq<byte>) {
    AllSound(rs) && bytes == EncodeAll(rs) + part && Inside(z, part, CallsAll(rs), d)
  }

  ghost predicate Accounted(z: Zip, bytes: seq<byte>) {
    exists rs, part, d :: Accounts(z, bytes, rs, part, d)
  }

  lemma AccountRecord(z: Zip, rs: seq<Rec>, r: Rec)
    requires z.st == ZS_BEGIN_REC && z.pos == 0
    requires AllSound(rs) && Sound(r) && z.trace == CallsAll(rs) + Calls(r)
    ensures Accounted(z, EncodeAll(rs) + Encode(r))
  {
    OneMore(rs, r);
    assert Accounts(z, EncodeAll(rs) + Encode(r), rs + [r], [], []);
  }

  lemma HeadMove(z: Zip, part: seq<byte>, before: seq<Event>, d: seq<byte>) returns (d': seq<byte>)
    requires ZipOk(z) && Silent(z) && Inside(z, part, before, d)
    requires z.st == ZS_HANDLE_REC || z.st == ZS_FILE_HDR_END || z.st == ZS_FLUSH_HDR
    ensures Inside(Move(z), part, before, d')
  {
    d' := [];
    if z.st == ZS_HANDLE_REC {
      HandleInside(z, part, before, d');
    } else if z.st == ZS_FILE_HDR_END {
      HdrEndInside(z, part, before, d');
    } else {
      FlushInside(z, part, before);
    }
  }

  lemma DataMove(z: Zip, part: seq<byte>, before: seq<Event>, d: seq<byte>)
    requires ZipOk(z) && Silent(z) && Inside(z, part, before, d)
    requires z.st == ZS_DATA
    ensures Inside(Move(z), part, before, d)
  {
    if Method(z.bufs.hdr) == 0 {
      StoreInside(z, part, before, d, []);
      assert part + [] == part && d + [] == d;
    }
  }

  lemma CopyMove(z: Zip, part: seq<byte>, before: seq<Event>, d: seq<byte>)
    requires ZipOk(z) && Silent(z) && Inside(z, part, before, d) && Copies(z.st)
    ensures Inside(Move(z), part, before, d)
  {
    CopyInside(z, part, before, d, []);
    assert part + [] == part;
  }

  lemma SkipMove(z: Zip, part: seq<byte>, before: seq<Event>, d: seq<byte>)
    requires ZipOk(z) && Silent(z) && Inside(z, part, before, d) && z.st == ZS_SKIP_BYTES
    ensures Inside(Move(z), part, before, d)
  {
  }

  /** Not at the end of a record: the same one goes on. */
  lemma MoveInside(z: Zip, part: seq<byte>, before: seq<Event>, d: seq<byte>) returns (d': seq<byte>)
    requires ZipOk(z) && Silent(z) && Inside(z, part, before, d) && z.st != ZS_EOR_FILE && z.st != ZS_EOR
    ensures Inside(Move(z), part, before, d')
  {
    d' := d;
    match z.st
    case ZS_DATA => DataMove(z, part, before, d);
    case ZS_DATA_SKIP => DataSkipInside(z, part, before, d);
    case ZS_SKIP_BYTES => SkipMove(z, part, before, d);
    case ZS_CENTRAL_DIR_END => SkipStart(z, part, before, d); d' := [];
    case ZS_END_CENTRAL_END => SkipStart(z, part, before, d); d' := [];
    case ZS_HANDLE_REC => d' := HeadMove(z, part, before, d);
    case ZS_FILE_HDR_END => d' := HeadMove(z, part, before, d);
    case ZS_FLUSH_HDR => d' := HeadMove(z, part, before, d);
    case _ => CopyMove(z, part, before, d);
  }

  lemma EndMove(z: Zip, part: seq<byte>, before: seq<Event>, d: seq<byte>) returns (r: Rec)
    requires ZipOk(z) && Silent(z) && Inside(z, part, before, d) && (z.st == ZS_EOR_FILE || z.st == ZS_EOR)
    ensures Sound(r) && Encode(r) == part && Move(z).trace == before + Calls(r)
    ensures Move(z).st == ZS_BEGIN_REC && Move(z).pos == 0
  {
    if z.st == ZS_EOR {
      r := SkipWhole(z, part, before, d);
    } else {
      r := MemberWhole(z, part, before, d);
    }
  }

  lemma AccountMove(z: Zip, bytes: seq<byte>)
    requires ZipOk(z) && Silent(z) && Accounted(z, bytes)
    ensures Accounted(Move(z), bytes)
  {
    var rs, part, d :| Accounts(z, bytes, rs, part, d);
    if z.st == ZS_EOR_FILE || z.st == ZS_EOR {
      var r := EndMove(z, part, CallsAll(rs), d);
      AccountRecord(Move(z), rs, r);
    } else {
      var d' := MoveInside(z, part, CallsAll(rs), d);
      assert Accounts(Move(z), bytes, rs, part, d');
    }
  }

  lemma {:induction false} AccountSettle(z: Zip, bytes: seq<byte>)
    requires ZipOk(z) && Accounted(z, bytes)
    ensures Accounted(Settle(z), bytes)
    decreases z.rc == PXE_NONE, Rank(z)
  {
    if Silent(z) {
      MoveRank(z);
      AccountMove(z, bytes);
      AccountSettle(Move(z), bytes);
    }
  }

  lemma SkipInside(z: Zip, part: seq<byte>, before: seq<Event>, d: seq<byte>, b: byte)
    requires z.st == ZS_SKIP_BYTES && z.skip > 0 && Inside(z, part, before, d)
    ensures Inside(Skip(z, 1), part + [b], before, d + [b])
  {
    Assoc(CENTRAL_SIG + z.bufs.cdh, d, [b]);
    Assoc(END_SIG + z.bufs.ecd, d, [b]);
  }

  lemma TakeInside(z: Zip, part: seq<byte>, before: seq<Event>, d: seq<byte>, b: byte) returns (d': seq<byte>)
    requires ZipOk(z) && !Silent(z) && z.rc == PXE_NONE && Inside(z, part, before, d)
    ensures Inside(Take(z, b), part + [b], before, d')
  {
    d' := if Copies(z.st) then d else d + [b];
    if z.st == ZS_DATA {
      StoreInside(z, part, before, d, [b]);
    } else if z.st == ZS_SKIP_BYTES {
      SkipInside(z, part, before, d, b);
    } else if Copies(z.st) {
      CopyInside(z, part, before, d, [b]);
    }
  }

  lemma AccountTake(z: Zip, bytes: seq<byte>, b: byte)
    requires ZipOk(z) && !Silent(z) && z.rc == PXE_NONE && Accounted(z, bytes)
    ensures Accounted(Take(z, b), bytes + [b])
  {
    var rs, part, d :| Accounts(z, bytes, rs, part, d);
    var d' := TakeInside(z, part, CallsAll(rs), d, b);
    Assoc(EncodeAll(rs), part, [b]);
    assert Accounts(Take(z, b), bytes + [b], rs, part + [b], d');
  }

  lemma AccountFeed1(z: Zip, bytes: seq<byte>, b: byte)
    requires ZipOk(z) && Accounted(z, bytes)
    ensures Feed1(z, b).total == z.total && Feed1(z, b).rc != PXE_NONE ==> Accounted(Feed1(z, b), bytes)
    ensures Feed1(z, b).total != z.total ==> Feed1(z, b).total == z.total + 1 && Accounted(Feed1(z, b), bytes + [b])
  {
    AccountSettle(z, bytes);
    if Settle(z).rc == PXE_NONE {
      TakeTotal(Settle(z), b);
      AccountTake(Settle(z), bytes, b);
    }
  }

  lemma {:induction false} AccountFeed(z: Zip, bytes: seq<byte>, s: seq<byte>) returns (n: nat)
    requires ZipOk(z) && Accounted(z, bytes)
    ensures n <= |s| && Feed(z, s).total == z.total + n
    ensures Accounted(Feed(z, s), bytes + s[..n])
    decreases |s|
  {
    n := 0;
    assert bytes + s[..0] == bytes;
    if s != [] && z.rc == PXE_NONE {
      AccountFeed1(z, bytes, s[0]);
      Feed1Total(z, s[0]);
      var z1 := Feed1(z, s[0]);
      if z1.total != z.total {
        var m := AccountFeed(z1, bytes + [s[0]], s[1..]);
        n := m + 1;
        SliceStep(bytes, s, m, n);
      }
    }
  }

  lemma StartInside(z: Zip)
    requires z.st == ZS_BEGIN_REC && z.pos == 0 && z.trace == []
    ensures Accounted(z, [])
  {
    assert Front(z.bufs.sig, 0) == [];
    assert Inside(z, [], [], []);
    assert Accounts(z, [], [], [], []);
  }

  /** Every run, on any bytes: what was consumed is a list of sound records and the beginning of one
      more; the calls are those of the records, start, data, end for each member, and the first of
      those of the one more, with the data that has come so far. */
  lemma Conservation(input: seq<byte>) returns (n: nat)
    ensures n == Feed(START, input).total <= |input|
    ensures Accounted(Feed(START, input), input[..n])
  {
    StartInside(START);
    n := AccountFeed(START, [], input);
    assert [] + input[..n] == input[..n];
  }
}
