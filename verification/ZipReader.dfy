/** struct zip_state and the functions of pax/zip.cc that update it. A scheduled copy has a
    destination, a length, a position and the state that follows it; a scheduled skip has no
    destination. The calls to pax_ops are appended to trace. */
module ZipReader {
  import opened Bits
  import opened Pax
  import opened ZipSpec
  import opened ZipRun
  import opened Seqs

  datatype Dest = NULL | SIGNATURE | INPUT_HDR | PATHNAME | EXTRA | DATA_DESC | CENTRAL_DIR_HDR | END_CENTRAL_DIR_HDR

  function DestOf(st: InputState): Dest {
    match st
    case ZS_BEGIN_REC => SIGNATURE
    case ZS_FILE_HDR => INPUT_HDR
    case ZS_FILE_NAME => PATHNAME
    case ZS_EXTRA => EXTRA
    case ZS_DATA_DESC => DATA_DESC
    case ZS_CENTRAL_DIR => CENTRAL_DIR_HDR
    case ZS_END_CENTRAL => END_CENTRAL_DIR_HDR
    case _ => NULL
  }

  class ZipReader {
    var inputState: InputState
    var curfile: FileInfo
    var signature: seq<byte>
    var inputHdr: seq<byte>
    var dataDesc: seq<byte>
    var crc: nat
    var centralDirHdr: seq<byte>
    var endCentralDirHdr: seq<byte>
    var dataBytes: nat
    var schBuf: Dest
    var schBufLen: nat
    var schBufPos: nat
    var schNextState: InputState
    var extra: seq<byte>
    var trace: seq<Event>
    ghost var total: nat  // bytes consumed so far
    ghost var rc: Code    // the error that ended the run, if one did

    ghost function B(): Bufs
      reads this
    {
      Bufs(signature, inputHdr, curfile.pathname, extra, dataDesc, centralDirHdr, endCentralDirHdr)
    }

    /** The machine this state stands for. */
    ghost function Z(): Zip
      reads this
    {
      Zip(inputState, if Copies(inputState) then schBufPos else 0,
          if inputState == ZS_SKIP_BYTES && schBufPos <= schBufLen then schBufLen - schBufPos else 0,
          B(), curfile.(pathname := []), dataBytes, crc, trace, total, rc)
    }

    /** What is scheduled is what the state calls for. */
    ghost predicate Scheduled()
      reads this
    {
      if inputState == ZS_SKIP_BYTES then
        schBuf == NULL && schBufPos <= schBufLen && schNextState == ZS_EOR
      else if schBuf == NULL then
        schBufPos == 0
      else
        && Copies(inputState) && schBuf == DestOf(inputState) && schNextState == After(inputState)
        && schBufPos <= schBufLen == Need(Z())
    }

    ghost predicate Valid()
      reads this
    {
      ZipOk(Z()) && rc == PXE_NONE && Scheduled()
    }

    /** zip_input_init (pax/zip.cc:213-219) */
    constructor ()
      ensures Valid() && Z() == START
    {
      inputState, curfile, signature, inputHdr := ZS_BEGIN_REC, CLEARED, Zeros(4), Zeros(26);
      dataDesc, crc, centralDirHdr, endCentralDirHdr := Zeros(12), 0, Zeros(42), Zeros(18);
      dataBytes, extra, trace := 0, Zeros(MAX_EXTRA), [];
      schBuf, schBufLen, schBufPos, schNextState := NULL, 0, 0, ZS_BEGIN_REC;
      total, rc := 0, PXE_NONE;
    }

    /** zip_sched_buf (pax/zip.cc:183-190) for the copy the state calls for, if none is going on. */
    method SchedCopy(len: nat)
      requires Valid() && Copies(inputState) && len == Need(Z())
      modifies this`schBuf, this`schBufLen, this`schBufPos, this`schNextState
      ensures Valid() && schBuf != NULL && Z() == old(Z())
    {
      if schBuf == NULL {
        schBuf, schBufLen, schBufPos, schNextState := DestOf(inputState), len, 0, After(inputState);
      }
    }

    /** memcpy(state->sch_buf + state->sch_buf_pos, ...) */
    method Memcpy(chunk: seq<byte>)
      requires Copies(inputState) && schBuf == DestOf(inputState)
      modifies this`signature, this`inputHdr, this`curfile, this`extra, this`dataDesc
      modifies this`centralDirHdr, this`endCentralDirHdr
      ensures B() == Fill(old(B()), inputState, schBufPos, chunk)
      ensures curfile.(pathname := []) == old(curfile.(pathname := []))
    {
      match schBuf
      case SIGNATURE => signature := Splice(signature, schBufPos, chunk);
      case INPUT_HDR => inputHdr := Splice(inputHdr, schBufPos, chunk);
      case PATHNAME => curfile := curfile.(pathname := Splice(curfile.pathname, schBufPos, chunk));
      case EXTRA => extra := Splice(extra, schBufPos, chunk);
      case DATA_DESC => dataDesc := Splice(dataDesc, schBufPos, chunk);
      case CENTRAL_DIR_HDR => centralDirHdr := Splice(centralDirHdr, schBufPos, chunk);
      case END_CENTRAL_DIR_HDR => endCentralDirHdr := Splice(endCentralDirHdr, schBufPos, chunk);
    }

    /** Copy and advance (pax/zip.cc:199-201). */
    method SchedPut(chunk: seq<byte>)
      requires Valid() && schBuf != NULL && schBufPos + |chunk| <= schBufLen
      modifies this`signature, this`inputHdr, this`curfile, this`extra, this`dataDesc
      modifies this`centralDirHdr, this`endCentralDirHdr
      modifies this`schBufPos, this`total
      ensures Z() == Copied(old(Z()), chunk) && schBufPos == old(schBufPos) + |chunk|
    {
      Memcpy(chunk);
      schBufPos := schBufPos + |chunk|;
      total := total + |chunk|;
    }

    /** When all is copied, on to the next state (pax/zip.cc:203-208). */
    method SchedSwitch()
      requires Copies(inputState) && schBuf != NULL && schNextState == After(inputState)
      modifies this`schBuf, this`schBufLen, this`schBufPos, this`inputState
      ensures if old(schBufPos == schBufLen) then
                Z() == old(Z()).(st := After(old(inputState)), pos := 0) && schBuf == NULL && schBufPos == 0
              else && Z() == old(Z()) && schBuf == old(schBuf)
                   && schBufLen == old(schBufLen) && schBufPos == old(schBufPos)
    {
      if schBufPos == schBufLen {
        inputState := schNextState;
        schBuf, schBufLen, schBufPos := NULL, 0, 0;
      }
    }

    /** zip_sched_do (pax/zip.cc:192-211) for a copy. */
    method SchedDo(bufIn: seq<byte>) returns (dist: nat)
      requires Valid() && schBuf != NULL
      modifies this
      ensures dist == Dist(old(Z()), bufIn)
      ensures Valid() && Z() == Copy(old(Z()), bufIn[..dist])
    {
      dist := schBufLen - schBufPos;
      if |bufIn| < dist {
        dist := |bufIn|;
      }
      CopyValid(Z(), bufIn[..dist]);
      SchedPut(bufIn[..dist]);
      SchedSwitch();
    }

    /** zip_sched_do (pax/zip.cc:192-211) for a skip: no destination. */
    method SkipDo(bufIn: seq<byte>) returns (dist: nat)
      requires Valid() && inputState == ZS_SKIP_BYTES
      modifies this`schBufLen, this`schBufPos, this`inputState, this`total
      ensures dist == Min(old(Z()).skip, |bufIn|)
      ensures Scheduled() && Z() == Skip(old(Z()), dist)
    {
      dist := schBufLen - schBufPos;
      if |bufIn| < dist {
        dist := |bufIn|;
      }
      schBufPos, total := schBufPos + dist, total + dist;
      if schBufPos == schBufLen {
        inputState, schBufLen, schBufPos := schNextState, 0, 0;
      }
    }

    /** pax_fi_clear and the fields of the header (pax/zip.cc:312-328). */
    method TakeHdr()
      modifies this`curfile, this`dataBytes
      ensures Z() == old(Z()).(fi := HdrInfo(inputHdr), bufs := old(B()).(name := Zeros(NameLen(inputHdr))),
                               dataBytes := if Method(inputHdr) == 0 then SizeU(inputHdr) else SizeC(inputHdr))
    {
      var fi := HdrInfo(inputHdr);
      if NameLen(inputHdr) > 0 {
        fi := fi.(pathname := Zeros(NameLen(inputHdr)));
      }
      curfile, dataBytes := fi, fi.compressedSize;
      if Method(inputHdr) == 0 {
        dataBytes := SizeU(inputHdr);
      }
    }

    /** zip_file_hdr_end (pax/zip.cc:307-341). */
    method FileHdrEnd() returns (err: Code)
      requires Valid() && inputState == ZS_FILE_HDR_END
      modifies this`curfile, this`dataBytes, this`inputState, this`crc, this`rc
      ensures Z() == HdrEnd(old(Z())) && rc == err && Scheduled()
    {
      TakeHdr();
      if Method(inputHdr) != 0 && Method(inputHdr) != 8 {
        err, rc := PXE_MISC_ERR, PXE_MISC_ERR;
      } else {
        err := PXE_NONE;
        inputState, crc := ZS_FILE_NAME, 0;
      }
    }

    /** zip_flush_hdr (pax/zip.cc:343-416), and the state after it (:615). */
    method FlushHdr() returns (err: Code)
      requires Valid() && inputState == ZS_FLUSH_HDR
      modifies this`curfile, this`trace, this`inputState, this`rc
      ensures Z() == ZipSpec.FlushHdr(old(Z())) && rc == err && Scheduled()
    {
      var ok, fi := ScanExtra(extra, ExtraLen(inputHdr), curfile);
      Flushed(Z(), curfile, ok, fi);
      if ok {
        StartFile(fi);
        err := PXE_NONE;
      } else {
        BadExtra(fi);
        err := PXE_GARBAGE;
      }
    }

    method StartFile(fi: FileInfo)
      requires Scheduled() && inputState == ZS_FLUSH_HDR && fi.pathname == curfile.pathname
      modifies this`curfile, this`trace, this`inputState
      ensures Z() == old(Z()).(fi := fi.(pathname := []), trace := Emit(old(trace), FileStart(fi)), st := ZS_DATA)
      ensures Scheduled()
    {
      curfile, trace, inputState := fi, Emit(trace, FileStart(fi)), ZS_DATA;
    }

    method BadExtra(fi: FileInfo)
      requires Scheduled() && inputState == ZS_FLUSH_HDR && fi.pathname == curfile.pathname
      modifies this`curfile, this`rc
      ensures Z() == old(Z()).(fi := fi.(pathname := []), rc := PXE_GARBAGE)
      ensures rc == PXE_GARBAGE && Scheduled()
    {
      curfile, rc := fi, PXE_GARBAGE;
    }

    /** The checksum, the callback and the count (pax/zip.cc:428-436). */
    method StoreChunk(chunk: seq<byte>)
      requires |chunk| <= dataBytes
      modifies this`crc, this`trace, this`dataBytes, this`total
      ensures Z() == Stored(old(Z()), chunk)
    {
      crc, trace := Crc32(crc, chunk), Emit(trace, FileData(chunk));
      dataBytes, total := dataBytes - |chunk|, total + |chunk|;
    }

    /** zip_stored_data (pax/zip.cc:418-447). */
    method StoredData(bufIn: seq<byte>) returns (err: Code, n: nat)
      requires Valid() && inputState == ZS_DATA
      modifies this`crc, this`trace, this`dataBytes, this`inputState, this`total, this`rc
      ensures n == Min(old(dataBytes), |bufIn|)
      ensures Z() == Store(old(Z()), bufIn[..n]) && rc == err && Scheduled()
    {
      n := |bufIn|;
      if n > dataBytes {
        n := dataBytes;
      }
      StoreChunk(bufIn[..n]);
      err := PXE_NONE;
      if dataBytes == 0 {
        if HdrCrc(inputHdr) != crc {
          err, rc := PXE_GARBAGE, PXE_GARBAGE;
        } else {
          inputState := ZS_DATA_SKIP;
        }
      }
    }

    /** zip_input, the states that copy (pax/zip.cc:543-550 and alike). */
    method CopyTurn(bufIn: seq<byte>) returns (count: nat)
      requires Valid() && Copies(inputState) && bufIn != []
      modifies this
      ensures Valid() && count <= |bufIn| && Turned(old(Z()), Z(), bufIn, count)
    {
      ghost var z := Z();
      var len := match inputState
        case ZS_BEGIN_REC => 4
        case ZS_FILE_HDR => 26
        case ZS_FILE_NAME => NameLen(inputHdr)
        case ZS_EXTRA => ExtraLen(inputHdr)
        case ZS_DATA_DESC => 12
        case ZS_CENTRAL_DIR => 42
        case _ => 18;
      SchedCopy(len);
      count := SchedDo(bufIn);
      CopyTurns(z, bufIn);
    }

    /** pax/zip.cc:618-632 */
    method DataTurn(bufIn: seq<byte>) returns (err: Code, count: nat)
      requires Valid() && inputState == ZS_DATA && bufIn != []
      modifies this`crc, this`trace, this`dataBytes, this`inputState, this`total, this`rc
      ensures count <= |bufIn| && Turned(old(Z()), Z(), bufIn, count) && rc == err && Scheduled()
    {
      ghost var z := Z();
      match Method(inputHdr)
      case 0 =>
        err, count := StoredData(bufIn);
        StoreTurns(z, bufIn);
      case 8 =>
        err, count, rc := INFLATE, 0, INFLATE;
        MoveTurns(z, bufIn);
      case _ =>
        err, count, rc := PXE_GARBAGE, 0, PXE_GARBAGE;
        MoveTurns(z, bufIn);
    }

    /** pax/zip.cc:552-569 */
    method HandleTurn() returns (err: Code)
      requires Valid() && inputState == ZS_HANDLE_REC
      modifies this`inputState, this`rc
      ensures Z() == HandleRec(old(Z())) && rc == err && Scheduled()
    {
      err := PXE_NONE;
      var sig := U32(signature, 0);
      if sig == SIG_LOCAL_FILE {
        inputState := ZS_FILE_HDR;
      } else if sig == SIG_CENTRAL_DIR {
        inputState := ZS_CENTRAL_DIR;
      } else if sig == SIG_CENTRAL_DIR_END {
        inputState := ZS_END_CENTRAL;
      } else {
        err, rc := PXE_GARBAGE, PXE_GARBAGE;
      }
    }

    /** pax/zip.cc:634-643; a byte skipped here is not counted off data_bytes. */
    method SkipTurn(bufIn: seq<byte>) returns (count: nat)
      requires Valid() && inputState == ZS_DATA_SKIP && bufIn != []
      modifies this`inputState, this`total
      ensures Scheduled() && rc == PXE_NONE && count <= |bufIn| && Turned(old(Z()), Z(), bufIn, count)
      ensures old(dataBytes) > 0 ==> count == 1 && Z() == old(Z()).(total := old(Z()).total + 1)
    {
      ghost var z := Z();
      count := 0;
      if dataBytes > 0 {
        count := 1;
        Swallow();
        SwallowTurns(z, bufIn);
      } else {
        SkipNoMore();
        MoveTurns(z, bufIn);
      }
    }

    method Swallow()
      modifies this`total
      ensures Z() == old(Z()).(total := old(Z()).total + 1) && (old(Scheduled()) ==> Scheduled())
    {
      total := total + 1;
    }

    method SkipNoMore()
      requires Scheduled() && inputState == ZS_DATA_SKIP
      modifies this`inputState
      ensures Z() == Move(old(Z())) && Scheduled()
    {
      inputState := if HasDesc(inputHdr) then ZS_DATA_DESC else ZS_EOR_FILE;
    }

    /** The end of a record (pax/zip.cc:654-664). */
    method EndTurn()
      requires Valid() && (inputState == ZS_EOR_FILE || inputState == ZS_EOR)
      modifies this`inputState, this`trace
      ensures Z() == Move(old(Z())) && Scheduled()
    {
      if inputState == ZS_EOR_FILE {
        trace := Emit(trace, FileEnd);
      }
      inputState := ZS_BEGIN_REC;
    }

    /** A skip is scheduled (pax/zip.cc:675-687 and :698-709). */
    method SkipStart(count: nat)
      requires Valid() && (inputState == ZS_CENTRAL_DIR_END || inputState == ZS_END_CENTRAL_END)
      modifies this`inputState, this`schBufLen, this`schBufPos, this`schNextState
      ensures Z() == old(Z()).(skip := count, st := ZS_SKIP_BYTES) && Scheduled()
    {
      schBufLen, schBufPos, schNextState := count, 0, ZS_EOR;
      inputState := ZS_SKIP_BYTES;
    }

    /** The turns that consume nothing, the data states apart. */
    method QuietTurn() returns (err: Code)
      requires Valid() && Quiet(inputState)
      modifies this
      ensures Z() == Move(old(Z())) && rc == err && Scheduled()
    {
      err := PXE_NONE;
      match inputState
      case ZS_HANDLE_REC => err := HandleTurn();
      case ZS_FILE_HDR_END => err := FileHdrEnd();
      case ZS_FLUSH_HDR => err := FlushHdr();
      case ZS_CENTRAL_DIR_END => SkipStart(CentralTail(centralDirHdr));
      case ZS_END_CENTRAL_END => SkipStart(EndTail(endCentralDirHdr));
      case ZS_EOR_FILE => EndTurn();
      case ZS_EOR => EndTurn();
    }

    /** One turn of the loop of zip_input (pax/zip.cc:541-716). */
    method Turn(bufIn: seq<byte>) returns (err: Code, count: nat)
      requires Valid() && bufIn != []
      modifies this
      ensures count <= |bufIn| && Turned(old(Z()), Z(), bufIn, count)
      ensures rc == err && (err == PXE_NONE ==> Valid())
    {
      ghost var z := Z();
      err, count := PXE_NONE, 0;
      if Copies(inputState) {
        count := CopyTurn(bufIn);
      } else if Quiet(inputState) {
        err := QuietTurn();
        MoveTurns(z, bufIn);
      } else if inputState == ZS_DATA {
        err, count := DataTurn(bufIn);
      } else if inputState == ZS_DATA_SKIP {
        count := SkipTurn(bufIn);
      } else {
        count := SkipDo(bufIn);
        SkipTurns(z, bufIn);
      }
    }

    /** The turn at place i of buf; next is the place it comes to. */
    method TurnAt(ghost z: Zip, buf: seq<byte>, i: nat) returns (err: Code, next: nat)
      requires Valid() && i < |buf| && Came(z, Z(), buf, i)
      modifies this
      ensures Came(z, Z(), buf, next) && rc == err && (err == PXE_NONE ==> Valid())
      ensures next > i || err != PXE_NONE || (next == i && Rank(Z()) < Rank(old(Z())))
    {
      ghost var w := Z();
      var count;
      err, count := Turn(buf[i..]);
      next := i + count;
      CameOn(z, w, Z(), buf, i, count, next);
    }

    /** zip_input (pax/zip.cc:534-721): err is what it returns, left the bytes it did not consume. */
    method Input(buf: seq<byte>) returns (err: Code, left: nat)
      requires Valid()
      modifies this
      ensures Z() == Feed(old(Z()), buf) && err == Z().rc && (err == PXE_NONE ==> Valid())
      ensures left <= |buf| && Z().total == old(Z()).total + (|buf| - left)
    {
      ghost var z := Z();
      var i := 0;
      err := PXE_NONE;
      assert buf[0..] == buf;
      while i < |buf|
        invariant Valid() && err == PXE_NONE && Came(z, Z(), buf, i)
        decreases |buf| - i, Rank(Z())
      {
        err, i := TurnAt(z, buf, i);
        if err != PXE_NONE {
          break;
        }
      }
      CameToEnd(z, Z(), buf, i);
      left := |buf| - i;
    }
  }

  /** The run from z over s has come to w after i bytes. */
  ghost predicate Came(z: Zip, w: Zip, s: seq<byte>, i: nat) {
    ZipOk(z) && ZipOk(w) && i <= |s| && Feed(w, s[i..]) == Feed(z, s) && w.total == z.total + i
  }

  lemma CameOn(z: Zip, w: Zip, w': Zip, s: seq<byte>, i: nat, n: nat, j: nat)
    requires Came(z, w, s, i) && Turned(w, w', s[i..], n) && j == i + n
    ensures Came(z, w', s, j)
  {
    DropTwice(s, i, n, j);
  }

  lemma CameToEnd(z: Zip, w: Zip, s: seq<byte>, i: nat)
    ensures Came(z, w, s, i) && (i == |s| || w.rc != PXE_NONE) ==> w == Feed(z, s)
  {
  }

  /** The read loop of pax over one archive (pax/main.cc:425-450): it stops at the first error. */
  method ReadArchive(bufs: seq<seq<byte>>) returns (err: Code, trace: seq<Event>)
    ensures err == Feed(START, Concat(bufs)).rc && trace == Feed(START, Concat(bufs)).trace
  {
    var r := new ZipReader();
    err := PXE_NONE;
    FeedWhole(START, bufs);
    assert bufs[0..] == bufs;
    var k := 0;
    while k < |bufs| && err == PXE_NONE
      invariant k <= |bufs| && fresh(r) && ZipOk(r.Z()) && err == r.Z().rc && (err == PXE_NONE ==> r.Valid())
      invariant FeedEach(r.Z(), bufs[k..]) == FeedEach(START, bufs)
    {
      var left;
      assert bufs[k..][1..] == bufs[k + 1..];
      err, left := r.Input(bufs[k]);
      k := k + 1;
    }
    FeedWhole(r.Z(), bufs[k..]);
    trace := r.trace;
  }

  /** The states whose turns consume nothing. */
  predicate Quiet(st: InputState) {
    st in {ZS_HANDLE_REC, ZS_FILE_HDR_END, ZS_FLUSH_HDR, ZS_EOR_FILE, ZS_EOR, ZS_CENTRAL_DIR_END, ZS_END_CENTRAL_END}
  }

  /** The loop over the extra field (pax/zip.cc:345-398). */
  method ScanExtra(extra: seq<byte>, len: nat, fi0: FileInfo) returns (ok: bool, fi: FileInfo)
    requires len <= |extra|
    ensures (ok, fi) == Extras(fi0, extra[..len])
  {
    fi := fi0;
    var extraLen: int, buf := len, 0;
    assert extra[..len][0..] == extra[..len];
    while extraLen >= 4
      invariant 0 <= extraLen && buf + extraLen == len
      invariant Extras(fi, extra[..len][buf..]) == Extras(fi0, extra[..len])
    {
      ghost var rest := extra[..len][buf..];
      var tag, entryLen := U16(extra, buf), U16(extra, buf + 2);
      FieldsAt(extra, len, buf);
      buf, extraLen := buf + 4, extraLen - 4;
      if entryLen > extraLen {
        return false, fi;
      }
      EntryAt(extra, len, buf - 4, entryLen);
      fi := Tagged(fi, tag, extra[buf..buf + entryLen]);
      extraLen, buf := extraLen - entryLen, buf + entryLen;
    }
    return true, fi;
  }

  /** The extra field does not touch the name. */
  lemma {:induction false} ExtrasName(fi: FileInfo, buf: seq<byte>)
    ensures Extras(fi, buf).1.pathname == fi.pathname
    ensures Extras(fi.(pathname := []), buf) == (Extras(fi, buf).0, Extras(fi, buf).1.(pathname := []))
    decreases |buf|
  {
    if |buf| >= 4 && U16(buf, 2) <= |buf| - 4 {
      ExtrasName(Tagged(fi, U16(buf, 0), buf[4..4 + U16(buf, 2)]), buf[4 + U16(buf, 2)..]);
    }
  }

  /** zip_flush_hdr, in terms of the description with its name. */
  lemma Flushed(z: Zip, fi0: FileInfo, ok: bool, fi: FileInfo)
    requires z.fi == fi0.(pathname := []) && z.bufs.name == fi0.pathname && ExtraLen(z.bufs.hdr) <= |z.bufs.extra|
    requires (ok, fi) == Extras(fi0, z.bufs.extra[..ExtraLen(z.bufs.hdr)])
    ensures fi.pathname == z.bufs.name
    ensures FlushHdr(z) ==
            if ok then z.(fi := fi.(pathname := []), trace := Emit(z.trace, FileStart(fi)), st := ZS_DATA)
            else z.(fi := fi.(pathname := []), rc := PXE_GARBAGE)
  {
    ExtrasName(fi0, z.bufs.extra[..ExtraLen(z.bufs.hdr)]);
  }

  lemma FieldsAt(s: seq<byte>, n: nat, k: nat)
    requires k + 4 <= n <= |s|
    ensures U16(s[..n][k..], 0) == U16(s, k) && U16(s[..n][k..], 2) == U16(s, k + 2)
  {
  }

  lemma EntryAt(s: seq<byte>, n: nat, k: nat, e: nat)
    requires k + 4 + e <= n <= |s|
    ensures s[..n][k..][4..4 + e] == s[k + 4..k + 4 + e]
    ensures s[..n][k..][4 + e..] == s[..n][k + 4 + e..]
  {
    var t, u := s[..n][k..][4..4 + e], s[k + 4..k + 4 + e];
    assert |t| == |u| && forall i :: 0 <= i < |t| ==> t[i] == u[i];
  }

  /** How much of the buffer a copy takes. */
  ghost function Dist(z: Zip, bufIn: seq<byte>): (n: nat)
    ensures n <= |bufIn|
  {
    if z.pos <= Need(z) && Need(z) - z.pos <= |bufIn| then Need(z) - z.pos else |bufIn|
  }

  lemma CopyValid(z: Zip, s: seq<byte>)
    requires ZipOk(z) && Copies(z.st) && z.pos + |s| <= Need(z)
    ensures ZipOk(Copy(z, s)) && Copy(z, s).rc == z.rc
    ensures z.pos + |s| < Need(z) ==> Need(Copy(z, s)) == Need(z)
  {
  }

  // ----- a turn of the loop, as the machine sees it -----

  /** After a turn that took n bytes of s the run still comes to the same; and a turn that took
      none is nearer to one that does. */
  ghost predicate Turned(z: Zip, w: Zip, s: seq<byte>, n: nat) {
    && ZipOk(z) && ZipOk(w) && n <= |s| && Feed(w, s[n..]) == Feed(z, s)
    && w.total == z.total + n
    && (n > 0 || w.rc != PXE_NONE || Rank(w) < Rank(z))
  }

  lemma BlockTurns(z: Zip, w: Zip, s: seq<byte>, n: nat)
    requires ZipOk(z) && 0 < n <= |s| && Feed(z, s[..n]) == w && w.total == z.total + n
    ensures Turned(z, w, s, n)
  {
    CutAt(s, n);
    FeedConcat(z, s[..n], s[n..]);
  }

  lemma MoveTurns(z: Zip, s: seq<byte>)
    requires ZipOk(z) && Silent(z) && s != []
    ensures Turned(z, Move(z), s, 0)
  {
    MoveRank(z);
    FeedMove(z, s);
    assert s[0..] == s;
  }

  lemma CopyTurns(z: Zip, s: seq<byte>)
    requires ZipOk(z) && z.rc == PXE_NONE && Copies(z.st) && s != []
    ensures Turned(z, Copy(z, s[..Dist(z, s)]), s, Dist(z, s))
  {
    var n := Dist(z, s);
    if n == 0 {
      MoveTurns(z, s);
      assert s[..0] == [];
    } else {
      FeedCopy(z, s[..n]);
      BlockTurns(z, Copy(z, s[..n]), s, n);
    }
  }

  lemma StoreTurns(z: Zip, s: seq<byte>)
    requires ZipOk(z) && z.rc == PXE_NONE && z.st == ZS_DATA && Method(z.bufs.hdr) == 0 && s != []
    ensures Turned(z, Store(z, s[..Min(z.dataBytes, |s|)]), s, Min(z.dataBytes, |s|))
  {
    var n := Min(z.dataBytes, |s|);
    if n == 0 {
      MoveTurns(z, s);
      assert s[..0] == [];
    } else {
      FeedStore(z, s[..n]);
      BlockTurns(z, Store(z, s[..n]), s, n);
    }
  }

  lemma SkipTurns(z: Zip, s: seq<byte>)
    requires ZipOk(z) && z.rc == PXE_NONE && z.st == ZS_SKIP_BYTES && s != []
    ensures Turned(z, Skip(z, Min(z.skip, |s|)), s, Min(z.skip, |s|))
  {
    var n := Min(z.skip, |s|);
    if n == 0 {
      MoveTurns(z, s);
    } else {
      FeedSkip(z, s[..n]);
      BlockTurns(z, Skip(z, n), s, n);
    }
  }

  lemma SwallowTurns(z: Zip, s: seq<byte>)
    requires ZipOk(z) && z.rc == PXE_NONE && z.st == ZS_DATA_SKIP && z.dataBytes > 0 && s != []
    ensures Turned(z, z.(total := z.total + 1), s, 1)
  {
    assert s[..1] == [s[0]] && [s[0]][1..] == [];
    BlockTurns(z, z.(total := z.total + 1), s, 1);
  }
}
