/** struct cpio_state and the functions of pax/cpio.cc that update it. The calls to pax_ops are
    appended to trace. */
module CpioReader {
  import opened Bits
  import opened Pax
  import opened CpioSpec
  import opened CpioRun
  import opened Seqs

  class CpioReader {
    const oct: Octal  // octal_str
    var curfile: FileInfo
    var inputState: InputState
    var inputBytes: nat
    var inputHdr: seq<byte>
    var inputHdrPos: nat
    var nameLen: nat
    var namePos: nat
    var fileBytes: nat
    var trace: seq<Event>
    ghost var rc: Code  // the error that ended the run, if one did

    ghost function Z(): Cpio
      reads this
    {
      Cpio(inputState, inputHdr, inputHdrPos, nameLen, namePos, curfile, fileBytes, inputBytes, trace, rc)
    }

    ghost predicate Valid()
      reads this
    {
      CpioOk(Z()) && rc == PXE_NONE
    }

    /** cpio_input_init (pax/cpio.cc:75-82) */
    constructor (oct: Octal)
      ensures Valid() && Z() == START && this.oct == oct
    {
      this.oct := oct;
      curfile, inputState, inputBytes := CLEARED, CS_HDR, 0;
      inputHdr, inputHdrPos, nameLen, namePos := Zeros(HDR_LEN), 0, 0, 0;
      fileBytes, trace, rc := 0, [], PXE_NONE;
    }

    /** cpio_hdr (pax/cpio.cc:94-127), and after it :173-174. */
    method Hdr() returns (err: Code)
      requires inputState == CS_HDR && inputHdrPos == HDR_LEN && |inputHdr| == HDR_LEN && rc == PXE_NONE && namePos == 0
      modifies this`curfile, this`nameLen, this`fileBytes, this`inputHdrPos, this`inputState, this`rc
      ensures Z() == HdrEnd(oct, old(Z())) && rc == err
    {
      err := PXE_NONE;
      if Field(inputHdr, 0, 6) != MAGIC {
        err := PXE_GARBAGE;
      } else {
        var fi := EarlyInfo(oct, inputHdr);
        curfile := fi;
        if fi.mtime.t < 0 {
          err := PXE_GARBAGE;
        } else {
          var l := NameSize(oct, inputHdr);
          if l < 0 || l > PATH_MAX {
            err := PXE_GARBAGE;
          } else {
            nameLen := l;
            curfile := fi.(pathname := Zeros(l), size := Size(oct, inputHdr));
            fileBytes := curfile.size;
          }
        }
      }
      if err == PXE_NONE {
        inputHdrPos, inputState := 0, CS_NAME;
      } else {
        rc := err;
      }
    }

    /** pax/cpio.cc:157-177 */
    method HdrTurn(bufIn: seq<byte>) returns (err: Code, i: nat)
      requires Valid() && inputState == CS_HDR
      modifies this
      ensures i == Min(|bufIn|, HDR_LEN - old(inputHdrPos))
      ensures Z() == TakeHdr(oct, old(Z()), bufIn[..i]) && rc == err
    {
      i := Min(|bufIn|, HDR_LEN - inputHdrPos);
      inputHdr := Splice(inputHdr, inputHdrPos, bufIn[..i]);
      inputHdrPos, inputBytes := inputHdrPos + i, inputBytes + i;
      assert Z() == HdrCopied(old(Z()), bufIn[..i]);
      err := PXE_NONE;
      if inputHdrPos == HDR_LEN {
        err := Hdr();
      }
    }

    /** pax/cpio.cc:190-202 with cpio_hdr_name (:131-141). */
    method NameDone()
      requires inputState == CS_NAME && namePos == nameLen
      modifies this`inputState, this`trace, this`namePos
      ensures Z() == NameEnd(old(Z()))
    {
      if curfile.size > 0 {
        inputState := CS_DATA;
      } else {
        inputState := CS_EOF;
      }
      if curfile.pathname == TRAILER {
        inputState := CS_EOA;
      } else {
        trace := Emit(trace, FileStart(curfile));
      }
      namePos := 0;
    }

    method CopyName(chunk: seq<byte>)
      modifies this`curfile, this`inputBytes, this`namePos
      ensures Z() == NameCopied(old(Z()), chunk)
    {
      curfile := curfile.(pathname := Splice(curfile.pathname, namePos, chunk));
      inputBytes, namePos := inputBytes + |chunk|, namePos + |chunk|;
    }

    /** pax/cpio.cc:179-205 */
    method NameTurn(bufIn: seq<byte>) returns (i: nat)
      requires Valid() && inputState == CS_NAME
      modifies this
      ensures i == Min(|bufIn|, old(nameLen - namePos))
      ensures Z() == TakeName(old(Z()), bufIn[..i])
    {
      i := nameLen - namePos;
      if |bufIn| < i {
        i := |bufIn|;
      }
      CopyName(bufIn[..i]);
      if namePos == nameLen {
        NameDone();
      }
    }

    /** pax/cpio.cc:207-226 */
    method DataTurn(bufIn: seq<byte>) returns (dataLen: nat)
      requires Valid() && inputState == CS_DATA
      modifies this
      ensures dataLen == Min(|bufIn|, old(fileBytes))
      ensures Z() == TakeData(old(Z()), bufIn[..dataLen])
    {
      dataLen := |bufIn|;
      if |bufIn| > fileBytes {
        dataLen := fileBytes;
      }
      trace := Emit(trace, FileData(bufIn[..dataLen]));
      inputBytes, fileBytes := inputBytes + dataLen, fileBytes - dataLen;
      if fileBytes == 0 {
        inputState := CS_EOF;
      }
    }

    /** pax/cpio.cc:228-242 */
    method EndTurn()
      requires Valid() && (inputState == CS_EOF || inputState == CS_TRAILER)
      modifies this`trace, this`inputState
      ensures Z() == Move(old(Z()))
    {
      if inputState == CS_EOF {
        trace := Emit(trace, FileEnd);
        inputState := CS_HDR;
      } else {
        inputState := CS_EOA;
      }
    }

    /** One turn of the loop. */
    method Turn(bufIn: seq<byte>) returns (err: Code, count: nat)
      requires Valid() && inputState != CS_EOA && bufIn != []
      modifies this
      ensures count <= |bufIn| && Turned(oct, old(Z()), Z(), bufIn, count) && rc == err
    {
      ghost var z := Z();
      err, count := PXE_NONE, 0;
      match inputState
      case CS_HDR =>
        err, count := HdrTurn(bufIn);
        HdrTurns(oct, z, bufIn, count);
      case CS_NAME =>
        count := NameTurn(bufIn);
        NameTurns(oct, z, bufIn, count);
      case CS_DATA =>
        count := DataTurn(bufIn);
        DataTurns(oct, z, bufIn, count);
      case CS_EOF =>
        EndTurn();
        MoveTurns(oct, z, bufIn);
      case CS_TRAILER =>
        EndTurn();
        MoveTurns(oct, z, bufIn);
    }

    /** cpio_input (pax/cpio.cc:149-253): err is what it returns, left the bytes it reports as not
        consumed; after the trailer it reports all as consumed. */
    method Input(buf: seq<byte>) returns (err: Code, left: nat)
      requires Valid()
      modifies this
      ensures Z() == Feed(oct, old(Z()), buf) && err == Z().rc && (err == PXE_NONE ==> Valid())
      ensures left <= |buf|
      ensures Z().st != CS_EOA ==> Z().inputBytes == old(Z()).inputBytes + (|buf| - left)
      ensures Z().st == CS_EOA ==> left == 0
    {
      ghost var z := Z();
      var i := 0;
      err := PXE_NONE;
      assert buf[0..] == buf;
      while i < |buf| && inputState != CS_EOA
        invariant Valid() && err == PXE_NONE && Came(oct, z, Z(), buf, i)
        decreases |buf| - i, Rank(Z())
      {
        ghost var w := Z();
        var count;
        err, count := Turn(buf[i..]);
        var j := i + count;
        CameOn(oct, z, w, Z(), buf, i, count, j);
        i := j;
        if err != PXE_NONE {
          break;
        }
      }
      CameToEnd(oct, z, Z(), buf, i);
      left := if inputState == CS_EOA then 0 else |buf| - i;
    }
  }

  /** The read loop of pax over one archive (pax/main.cc:425-450): it stops at the first error. */
  method ReadArchive(oct: Octal, bufs: seq<seq<byte>>) returns (err: Code, trace: seq<Event>)
    ensures err == Feed(oct, START, Concat(bufs)).rc && trace == Feed(oct, START, Concat(bufs)).trace
  {
    var r := new CpioReader(oct);
    err := PXE_NONE;
    FeedWhole(oct, START, bufs);
    assert bufs[0..] == bufs;
    var k := 0;
    while k < |bufs| && err == PXE_NONE
      invariant k <= |bufs| && fresh(r) && r.oct == oct
      invariant CpioOk(r.Z()) && err == r.Z().rc && (err == PXE_NONE ==> r.Valid())
      invariant FeedEach(oct, r.Z(), bufs[k..]) == FeedEach(oct, START, bufs)
    {
      var left;
      assert bufs[k..][1..] == bufs[k + 1..];
      err, left := r.Input(bufs[k]);
      k := k + 1;
    }
    FeedWhole(oct, r.Z(), bufs[k..]);
    trace := r.trace;
  }

  /** The run from z over s has come to w after i bytes. */
  ghost predicate Came(oct: Octal, z: Cpio, w: Cpio, s: seq<byte>, i: nat)
    requires CpioOk(z) && CpioOk(w)
  {
    i <= |s| && Feed(oct, w, s[i..]) == Feed(oct, z, s) && w.inputBytes == z.inputBytes + i
  }

  /** After a turn that took n bytes of s the run still comes to the same; and a turn that took none
      is nearer to one that does. */
  ghost predicate Turned(oct: Octal, z: Cpio, w: Cpio, s: seq<byte>, n: nat) {
    && CpioOk(z) && CpioOk(w) && n <= |s| && Feed(oct, w, s[n..]) == Feed(oct, z, s)
    && w.inputBytes == z.inputBytes + n && (n > 0 || Rank(w) < Rank(z))
  }

  lemma CameOn(oct: Octal, z: Cpio, w: Cpio, w': Cpio, s: seq<byte>, i: nat, n: nat, j: nat)
    requires CpioOk(z) && CpioOk(w) && CpioOk(w') && j == i + n
    ensures Came(oct, z, w, s, i) && Turned(oct, w, w', s[i..], n) ==> Came(oct, z, w', s, j)
  {
    if Came(oct, z, w, s, i) && Turned(oct, w, w', s[i..], n) {
      DropTwice(s, i, n, j);
    }
  }

  lemma CameToEnd(oct: Octal, z: Cpio, w: Cpio, s: seq<byte>, i: nat)
    requires CpioOk(z) && CpioOk(w)
    ensures Came(oct, z, w, s, i) && (i == |s| || Stopped(w)) ==> w == Feed(oct, z, s)
  {
  }

  lemma MoveTurns(oct: Octal, z: Cpio, s: seq<byte>)
    requires CpioOk(z) && Silent(z) && s != []
    ensures Turned(oct, z, Move(z), s, 0)
  {
    MoveRank(z);
    FeedMove(oct, z, s);
    assert s[0..] == s;
  }

  lemma BlockTurns(oct: Octal, z: Cpio, w: Cpio, s: seq<byte>, n: nat)
    requires CpioOk(z) && 0 < n <= |s| && Feed(oct, z, s[..n]) == w && w.inputBytes == z.inputBytes + n
    ensures Turned(oct, z, w, s, n)
  {
    CutAt(s, n);
    FeedConcat(oct, z, s[..n], s[n..]);
  }

  lemma HdrTurns(oct: Octal, z: Cpio, s: seq<byte>, n: nat)
    requires CpioOk(z) && z.rc == PXE_NONE && z.st == CS_HDR && s != [] && n == Min(|s|, HDR_LEN - z.hdrPos)
    ensures Turned(oct, z, TakeHdr(oct, z, s[..n]), s, n)
  {
    FeedHdr(oct, z, s[..n]);
    BlockTurns(oct, z, TakeHdr(oct, z, s[..n]), s, n);
  }

  lemma NameTurns(oct: Octal, z: Cpio, s: seq<byte>, n: nat)
    requires CpioOk(z) && z.rc == PXE_NONE && z.st == CS_NAME && s != [] && n == Min(|s|, z.nameLen - z.namePos)
    ensures Turned(oct, z, TakeName(z, s[..n]), s, n)
  {
    if n == 0 {
      MoveTurns(oct, z, s);
      assert s[..0] == [];
    } else {
      FeedName(oct, z, s[..n]);
      BlockTurns(oct, z, TakeName(z, s[..n]), s, n);
    }
  }

  lemma DataTurns(oct: Octal, z: Cpio, s: seq<byte>, n: nat)
    requires CpioOk(z) && z.rc == PXE_NONE && z.st == CS_DATA && s != [] && n == Min(|s|, z.fileBytes)
    ensures Turned(oct, z, TakeData(z, s[..n]), s, n)
  {
    FeedData(oct, z, s[..n]);
    BlockTurns(oct, z, TakeData(z, s[..n]), s, n);
  }
}
