/** struct ustar_state and the functions of pax/ustar.cc that update it. The calls to pax_ops are
    appended to trace. */
module UstarReader {
  import opened Bits
  import opened Pax
  import opened UstarSpec
  import opened UstarRun
  import UstarLayout

  class UstarReader {
    const oct: Octal  // octal_str
    var inArchive: bool
    var seenFirstBlock: bool
    var dataBlocks: nat  // unsigned int
    var dataBytes: nat   // unsigned int
    var curfile: FileInfo
    var trace: seq<Event>
    ghost var records: nat  // records consumed so far
    ghost var rc: Code      // the error that ended the run, if one did

    ghost function Z(): Ustar
      reads this
    {
      Ustar(inArchive, seenFirstBlock, dataBlocks, dataBytes, curfile, trace, records, rc)
    }

    ghost predicate Valid()
      reads this
    {
      dataBlocks < UINT && dataBytes < UINT && rc == PXE_NONE
    }

    /** ustar_input_init (pax/ustar.cc:78-84) */
    constructor (oct: Octal)
      ensures Valid() && Z() == START && this.oct == oct
    {
      this.oct := oct;
      inArchive, seenFirstBlock, dataBlocks, dataBytes := true, false, 0, 0;
      curfile, trace, records, rc := CLEARED, [], 0, PXE_NONE;
    }

    /** ustar_hdr_cksum (pax/ustar.cc:95-121) */
    method HdrCksum(rec: seq<byte>) returns (ok: bool)
      requires |rec| == REC_SZ
      ensures ok <==> CksumOk(oct, rec)
      ensures ok <==> oct(rec[148..156]) == SumBytes(rec[..148]) + 256 + SumBytes(rec[156..])
    {
      UstarLayout.BlankedSum(rec);
      var hdrbuf := rec;
      var cksum := oct(Field(rec, 148, 8));
      if cksum < 0 {
        return false;
      }
      hdrbuf := Splice(hdrbuf, 148, seq(8, k => 32));
      var sum, i := 0, 0;
      assert hdrbuf[0..] == hdrbuf;
      while i < REC_SZ
        invariant i <= REC_SZ && sum + SumBytes(hdrbuf[i..]) == SumBytes(hdrbuf)
      {
        assert hdrbuf[i..][1..] == hdrbuf[i + 1..];
        sum := sum + hdrbuf[i];
        i := i + 1;
      }
      return cksum == sum;
    }

    /** The checks of ustar_hdr_record (pax/ustar.cc:143-175). */
    method CheckHdr(rec: seq<byte>) returns (ok: bool)
      requires |rec| == REC_SZ
      ensures ok <==> HdrOk(oct, rec)
    {
      ok := HdrCksum(rec);
      if oct(Field(rec, 136, 12)) < 0 || TypeOf(At(rec, 156)) == 0 {
        ok := false;
      }
      if IsUstar(rec) && (Signed32(oct(Field(rec, 329, 8))) < 0 || Signed32(oct(Field(rec, 337, 8))) < 0) {
        ok := false;
      }
    }

    /** The file of a header, and the counters of its data (pax/ustar.cc:194-204). */
    method StartFile(fi: FileInfo, regular: bool)
      modifies this`curfile, this`dataBytes, this`dataBlocks, this`trace, this`records
      ensures Z() == old(Z()).(fi := fi, trace := Emit(old(trace), FileStart(fi)), records := old(records) + 1,
                               dataBytes := if regular then fi.size % UINT else 0,
                               dataBlocks := if regular then Blocks(fi.size) else 0)
    {
      var bytes, blocks := 0, 0;
      if regular {
        bytes := fi.size % UINT;
        blocks := fi.size / REC_SZ % UINT;
        if fi.size % REC_SZ != 0 {
          blocks := (blocks + 1) % UINT;
        }
      }
      dataBytes, dataBlocks := bytes, blocks;
      curfile, records, trace := fi, records + 1, Emit(trace, FileStart(fi));
    }

    /** ustar_hdr_record (pax/ustar.cc:137-205) */
    method HdrRec(rec: seq<byte>) returns (err: Code)
      requires Valid() && |rec| == REC_SZ
      modifies this`curfile, this`dataBytes, this`dataBlocks, this`trace, this`records, this`rc
      ensures Z() == HdrRecord(oct, old(Z()), rec) && rc == err && (err == PXE_NONE ==> Valid())
    {
      var ok := CheckHdr(rec);
      if ok {
        err := PXE_NONE;
        FileSize(oct, rec);
        StartFile(FileOf(oct, rec), Type(rec) == 8);
      } else {
        err, rc := PXE_GARBAGE, PXE_GARBAGE;
      }
    }

    /** ustar_data_record (pax/ustar.cc:210-231); before the last record of a member data_bytes is at
        most 512, see UstarRun.LastInRecord. */
    method DataRec(rec: seq<byte>)
      requires Valid() && |rec| == REC_SZ && dataBlocks > 0 && Counted(Z())
      modifies this`dataBytes, this`dataBlocks, this`trace, this`records
      ensures Z() == DataRecord(old(Z()), rec) && Valid()
    {
      if dataBlocks > 1 {
        trace := Emit(trace, FileData(rec));
        dataBlocks := dataBlocks - 1;
        dataBytes := (dataBytes - REC_SZ) % UINT;
      } else {
        trace := Emit(trace, FileData(rec[..dataBytes]));
        dataBlocks, dataBytes := 0, 0;
      }
      records := records + 1;
    }

    /** ustar_input_record (pax/ustar.cc:233-257) */
    method InputRecord(rec: seq<byte>) returns (err: Code)
      requires Valid() && |rec| == REC_SZ && Counted(Z())
      modifies this
      ensures Z() == Record(oct, old(Z()), rec) && rc == err && (err == PXE_NONE ==> Valid())
    {
      err := PXE_NONE;
      if dataBlocks > 0 {
        DataRec(rec);
        return;
      }
      if seenFirstBlock {
        trace := Emit(trace, FileEnd);
      }
      ZeroRecord(rec);
      if rec == Zeros(REC_SZ) {
        inArchive, records := false, records + 1;
        return;
      }
      err := HdrRec(rec);
    }

    /** ustar_input (pax/ustar.cc:259-282): err is what it returns, left the bytes it did not consume. */
    method Input(buf: seq<byte>) returns (err: Code, left: nat)
      requires Valid() && Counted(Z())
      modifies this
      ensures Z() == Feed(oct, old(Z()), buf) && rc == err && (err == PXE_NONE ==> Valid() && Counted(Z()))
      ensures left <= |buf| && |buf| - left == REC_SZ * (Z().records - old(Z()).records)
    {
      ghost var z := Z();
      var i := 0;
      err := PXE_NONE;
      assert buf[0..] == buf;
      while inArchive && i < |buf|
        invariant i <= |buf| && Valid() && Counted(Z()) && err == PXE_NONE
        invariant Feed(oct, Z(), buf[i..]) == Feed(oct, z, buf)
        invariant i == REC_SZ * (records - z.records)
        decreases |buf| - i
      {
        if |buf| - i < REC_SZ {
          err, rc := PXE_TRUNCATED, PXE_TRUNCATED;
          break;
        }
        var j := i + REC_SZ;
        FeedRecordAt(oct, Z(), buf, i, j);
        CountRecord(oct, Z(), buf[i..j]);
        err := InputRecord(buf[i..j]);
        if err != PXE_NONE {
          break;
        }
        i := j;
      }
      left := |buf| - i;
    }
  }

  lemma FileSize(oct: Octal, rec: seq<byte>)
    ensures FileOf(oct, rec).size == Size(oct, rec)
  {
  }

  lemma ZeroRecord(rec: seq<byte>)
    ensures rec == Zeros(|rec|) <==> AllZero(rec)
  {
    if AllZero(rec) {
      forall k | 0 <= k < |rec| ensures rec[k] == 0 {
        assert rec[k] in rec;
      }
    }
  }

  lemma FeedRecordAt(oct: Octal, z: Ustar, buf: seq<byte>, i: nat, j: nat)
    requires !Stopped(z) && j == i + REC_SZ <= |buf|
    ensures Feed(oct, z, buf[i..]) == Feed(oct, Record(oct, z, buf[i..j]), buf[j..])
  {
    assert buf[i..][..REC_SZ] == buf[i..j] && buf[i..][REC_SZ..] == buf[j..];
  }
}
