/** Runs of the ustar machine: buffers of whole records, and what each member is given. */
module UstarRun {
  import opened Bits
  import opened Pax
  import opened UstarSpec
  import opened Seqs

  // ----- cutting -----

  lemma {:induction false} FeedConcat(oct: Octal, z: Ustar, a: seq<byte>, b: seq<byte>)
    requires |a| % REC_SZ == 0
    ensures Feed(oct, Feed(oct, z, a), b) == Feed(oct, z, a + b)
    decreases |a|
  {
    if a == [] {
      assert a + b == b;
    } else if !Stopped(z) {
      assert (a + b)[..REC_SZ] == a[..REC_SZ] && (a + b)[REC_SZ..] == a[REC_SZ..] + b;
      FeedConcat(oct, Record(oct, z, a[..REC_SZ]), a[REC_SZ..], b);
    }
  }

  function FeedEach(oct: Octal, z: Ustar, bufs: seq<seq<byte>>): Ustar
    decreases |bufs|
  {
    if bufs == [] then z else FeedEach(oct, Feed(oct, z, bufs[0]), bufs[1..])
  }

  ghost predicate WholeRecords(bufs: seq<seq<byte>>) {
    forall b <- bufs :: |b| % REC_SZ == 0
  }

  lemma {:induction false} FeedWhole(oct: Octal, z: Ustar, bufs: seq<seq<byte>>)
    requires WholeRecords(bufs)
    ensures FeedEach(oct, z, bufs) == Feed(oct, z, Concat(bufs))
    decreases |bufs|
  {
    if bufs != [] {
      FeedWhole(oct, Feed(oct, z, bufs[0]), bufs[1..]);
      FeedConcat(oct, z, bufs[0], Concat(bufs[1..]));
    }
  }

  /** Any two ways of cutting an archive into buffers of whole records give the same run. */
  lemma CutsDoNotMatter(oct: Octal, z: Ustar, bufs: seq<seq<byte>>, bufs': seq<seq<byte>>)
    requires WholeRecords(bufs) && WholeRecords(bufs') && Concat(bufs) == Concat(bufs')
    ensures FeedEach(oct, z, bufs) == FeedEach(oct, z, bufs')
  {
    FeedWhole(oct, z, bufs);
    FeedWhole(oct, z, bufs');
  }

  /** A buffer that ends inside a record is an error, unless the archive ended, or failed, before its
      last record. */
  lemma {:induction false} PartRecord(oct: Octal, z: Ustar, s: seq<byte>, part: seq<byte>)
    requires |s| % REC_SZ == 0 && 0 < |part| < REC_SZ
    ensures Feed(oct, z, s + part)
         == if Stopped(Feed(oct, z, s)) then Feed(oct, z, s) else Feed(oct, z, s).(rc := PXE_TRUNCATED)
  {
    FeedConcat(oct, z, s, part);
  }

  // ----- what one member is given -----

  /** The bytes of data that a member's records are taken to hold. */
  function Delivered(size: nat): nat {
    if Blocks(size) == 0 then 0 else REC_SZ * (Blocks(size) - 1) + LastBytes(size)
  }

  /** The bytes of the last record that are data. */
  function LastBytes(size: nat): (n: nat)
    ensures 0 < n <= REC_SZ
  {
    if size % REC_SZ == 0 then REC_SZ else size % REC_SZ
  }

  lemma BlocksAre(size: nat)
    ensures Blocks(size) == Records(size) % UINT
    ensures size > 0 ==> size == REC_SZ * (Records(size) - 1) + LastBytes(size)
  {
  }

  /** A member gets all its bytes exactly if the number of its records fits in 32 bits. */
  lemma DeliveredIsSize(size: nat)
    ensures Delivered(size) == size <==> Records(size) < UINT
  {
    BlocksAre(size);
  }

  /** So every size that twelve octal digits can spell is delivered whole, */
  lemma OctalIsWhole(size: nat)
    requires size < 0x10_0000_0000
    ensures Delivered(size) == size
  {
    DeliveredIsSize(size);
  }

  /** but of a size field that can not be read nothing is: octal_str gives -1, the test for a negative
      value (pax/ustar.cc:133) does not see it in an unsigned field, and the number of records wraps
      around to 0. The next record is taken for a header. */
  lemma UnreadableSize(oct: Octal, z: Ustar, rec: seq<byte>)
    requires oct(Field(rec, 124, 12)) == -1 && HdrOk(oct, rec) && Type(rec) == 8
    ensures Size(oct, rec) == 0xffff_ffff_ffff_ffff && Delivered(Size(oct, rec)) == 0
    ensures var w := HdrRecord(oct, z, rec);
            w.rc == z.rc && w.trace == Emit(z.trace, FileStart(FileOf(oct, rec))) && w.dataBlocks == 0
  {
  }

  /** The counter of bytes runs modulo 2^32, yet it is right when it matters: before the last record
      it counts the bytes of that record. */
  ghost predicate Counting(blocks: nat, bytes: nat, last: nat) {
    0 < last <= REC_SZ && 0 < blocks && bytes == (REC_SZ * (blocks - 1) + last) % UINT
  }

  lemma CountStart(oct: Octal, z: Ustar, rec: seq<byte>)
    requires HdrOk(oct, rec) && Type(rec) == 8 && Blocks(Size(oct, rec)) > 0
    ensures Counting(HdrRecord(oct, z, rec).dataBlocks, HdrRecord(oct, z, rec).dataBytes, LastBytes(Size(oct, rec)))
  {
    var size := Size(oct, rec);
    BlocksAre(size);
    var q := Records(size) / UINT;
    assert size == REC_SZ * (Blocks(size) - 1) + LastBytes(size) + UINT * (REC_SZ * q);
    ModUint(REC_SZ * (Blocks(size) - 1) + LastBytes(size), REC_SZ * q);
  }

  lemma ModUint(x: nat, k: nat)
    ensures (x + UINT * k) % UINT == x % UINT
  {
  }

  lemma CountOn(z: Ustar, last: nat, rec: seq<byte>)
    requires Counting(z.dataBlocks, z.dataBytes, last) && z.dataBlocks > 1
    ensures Counting(DataRecord(z, rec).dataBlocks, DataRecord(z, rec).dataBytes, last)
  {
  }

  lemma FeedRecord(oct: Octal, z: Ustar, rec: seq<byte>, s: seq<byte>)
    requires !Stopped(z) && |rec| == REC_SZ
    ensures Feed(oct, z, rec + s) == Feed(oct, Record(oct, z, rec), s)
  {
    assert (rec + s)[..REC_SZ] == rec && (rec + s)[REC_SZ..] == s;
  }

  /** A member's data after all its records. */
  function Filled(z: Ustar, data: seq<byte>): Ustar {
    z.(dataBlocks := 0, dataBytes := 0, records := z.records + z.dataBlocks, trace := Emit(z.trace, FileData(data)))
  }

  lemma FilledTwice(z: Ustar, rec: seq<byte>, data: seq<byte>)
    requires z.dataBlocks > 1
    ensures Filled(DataRecord(z, rec), data) == Filled(z, rec + data)
  {
    EmitJoins(z.trace, rec, data);
  }

  /** A member's records give it the first Delivered bytes; the padding is dropped. */
  lemma {:induction false} DataRun(oct: Octal, z: Ustar, last: nat, s: seq<byte>)
    requires Counting(z.dataBlocks, z.dataBytes, last) && !Stopped(z) && |s| == REC_SZ * z.dataBlocks
    ensures REC_SZ * (z.dataBlocks - 1) + last <= |s|
    ensures Feed(oct, z, s) == Filled(z, s[..REC_SZ * (z.dataBlocks - 1) + last])
    decreases |s|
  {
    var rec, rest := s[..REC_SZ], s[REC_SZ..];
    assert s == rec + rest;
    FeedRecord(oct, z, rec, rest);
    if z.dataBlocks == 1 {
      assert rest == [] && rec[..last] == s[..last];
    } else {
      var w := DataRecord(z, rec);
      CountOn(z, last, rec);
      DataRun(oct, w, last, rest);
      var n := REC_SZ * (w.dataBlocks - 1) + last;
      FilledTwice(z, rec, rest[..n]);
      assert rec + rest[..n] == s[..REC_SZ + n];
    }
  }

  /** Between two members. */
  ghost predicate AtHeader(z: Ustar) {
    !Stopped(z) && z.dataBlocks == 0 && !z.seenFirstBlock
  }

  /** The state after a regular file's header. */
  lemma HeaderStarts(oct: Octal, z: Ustar, rec: seq<byte>)
    requires AtHeader(z) && !AllZero(rec) && HdrOk(oct, rec) && Type(rec) == 8
    ensures var h := Record(oct, z, rec);
            && !Stopped(h) && !h.seenFirstBlock && h.dataBlocks == Blocks(Size(oct, rec))
            && h.trace == z.trace + [FileStart(FileOf(oct, rec))]
            && (h.dataBlocks > 0 ==> Counting(h.dataBlocks, h.dataBytes, LastBytes(Size(oct, rec))))
  {
    if Blocks(Size(oct, rec)) > 0 {
      CountStart(oct, z, rec);
    }
  }

  /** z is past a regular file's header and the records behind it, and the calls were one start, and the
      file's data, exactly the first Delivered(size) bytes of the records. */
  ghost predicate Took(oct: Octal, z: Ustar, before: seq<Event>, rec: seq<byte>, s: seq<byte>) {
    && AtHeader(z)
    && z.trace == before + [FileStart(FileOf(oct, rec))]
                  + if s == [] then [] else [FileData(Front(s, Delivered(Size(oct, rec))))]
  }

  lemma DataTaken(oct: Octal, h: Ustar, before: seq<Event>, rec: seq<byte>, s: seq<byte>)
    requires !Stopped(h) && !h.seenFirstBlock
    requires h.dataBlocks == Blocks(Size(oct, rec)) > 0 && |s| == REC_SZ * h.dataBlocks
    requires h.trace == before + [FileStart(FileOf(oct, rec))]
    requires Counting(h.dataBlocks, h.dataBytes, LastBytes(Size(oct, rec)))
    ensures Took(oct, Feed(oct, h, s), before, rec, s) && Delivered(Size(oct, rec)) <= |s|
  {
    DeliveredAt(Size(oct, rec), h.dataBlocks);
    DataRunTo(oct, h, LastBytes(Size(oct, rec)), s, Delivered(Size(oct, rec)));
    FilledTook(oct, h, before, rec, s);
  }

  lemma DataRunTo(oct: Octal, z: Ustar, last: nat, s: seq<byte>, n: nat)
    requires Counting(z.dataBlocks, z.dataBytes, last) && !Stopped(z) && |s| == REC_SZ * z.dataBlocks
    requires n == REC_SZ * (z.dataBlocks - 1) + last
    ensures n <= |s| && Feed(oct, z, s) == Filled(z, Front(s, n))
  {
    DataRun(oct, z, last, s);
  }

  lemma DeliveredAt(size: nat, blocks: nat)
    requires blocks == Blocks(size) > 0
    ensures Delivered(size) == REC_SZ * (blocks - 1) + LastBytes(size) <= REC_SZ * blocks
  {
  }

  lemma FilledTook(oct: Octal, h: Ustar, before: seq<Event>, rec: seq<byte>, s: seq<byte>)
    requires !Stopped(h) && !h.seenFirstBlock && s != []
    requires h.trace == before + [FileStart(FileOf(oct, rec))]
    ensures Took(oct, Filled(h, Front(s, Delivered(Size(oct, rec)))), before, rec, s)
  {
    var data := Front(s, Delivered(Size(oct, rec)));
    assert Emit(h.trace, FileData(data)) == h.trace + [FileData(data)];
  }

  lemma MemberDelivered(oct: Octal, z: Ustar, rec: seq<byte>, s: seq<byte>)
    requires AtHeader(z) && |rec| == REC_SZ && !AllZero(rec) && HdrOk(oct, rec) && Type(rec) == 8
    requires |s| == REC_SZ * Blocks(Size(oct, rec))
    ensures Delivered(Size(oct, rec)) <= |s| && Took(oct, Feed(oct, z, rec + s), z.trace, rec, s)
  {
    FeedRecord(oct, z, rec, s);
    HeaderStarts(oct, z, rec);
    var h := Record(oct, z, rec);
    if s == [] {
      assert h.trace + [] == h.trace;
    } else {
      DataTaken(oct, h, z.trace, rec, s);
    }
  }

  // ----- every reachable state -----

  /** data_blocks is data_bytes / 512 rounded up. */
  ghost predicate BlocksMatch(z: Ustar) {
    z.dataBlocks == Records(z.dataBytes)
  }

  /** A header makes the two counters agree exactly if the size, in units of 2^32, is a multiple of
      512: for all sizes below 2^32, and of those a header can hold in octal for no others. */
  lemma HeaderMatches(oct: Octal, z: Ustar, rec: seq<byte>)
    requires HdrOk(oct, rec) && Type(rec) == 8
    ensures BlocksMatch(HdrRecord(oct, z, rec)) <==> Size(oct, rec) / UINT % REC_SZ == 0
  {
    var size := Size(oct, rec);
    var q, r := size / UINT, size % UINT;
    BlocksAre(size);
    assert Records(size) == 0x80_0000 * q + Records(r);
    ModSplit(q, Records(r));
  }

  lemma ModSplit(q: nat, b: nat)
    requires b <= 0x80_0000
    ensures (0x80_0000 * q + b) % UINT == b <==> q % REC_SZ == 0
  {
    var k, m := q / REC_SZ, q % REC_SZ;
    assert 0x80_0000 * q + b == UINT * k + (0x80_0000 * m + b);
    ModUint(0x80_0000 * m + b, k);
  }

  /** The least size for which they do not. */
  lemma FirstMismatch(oct: Octal, z: Ustar, rec: seq<byte>)
    requires HdrOk(oct, rec) && Type(rec) == 8 && Size(oct, rec) == UINT
    ensures var w := HdrRecord(oct, z, rec);
            w.dataBytes == 0 && w.dataBlocks == 0x80_0000 && !BlocksMatch(w)
  {
  }

  /** A data record keeps them in agreement. */
  lemma DataMatches(z: Ustar, rec: seq<byte>)
    requires BlocksMatch(z) && z.dataBlocks > 0 && z.dataBytes < UINT
    ensures BlocksMatch(DataRecord(z, rec))
  {
  }

  /** Record k of an archive. */
  function Rec(s: seq<byte>, k: nat): seq<byte> {
    if REC_SZ * (k + 1) <= |s| then s[REC_SZ * k..REC_SZ * (k + 1)] else []
  }

  /** The state after the first k records. */
  function After(oct: Octal, s: seq<byte>, k: nat): Ustar {
    Feed(oct, START, Front(s, REC_SZ * k))
  }

  lemma AfterNext(oct: Octal, s: seq<byte>, k: nat)
    requires REC_SZ * (k + 1) <= |s|
    ensures After(oct, s, k + 1)
         == if Stopped(After(oct, s, k)) then After(oct, s, k) else Record(oct, After(oct, s, k), Rec(s, k))
  {
    var m, n := REC_SZ * k, REC_SZ * (k + 1);
    var rec := Rec(s, k);
    assert s[..n] == s[..m] + rec;
    FeedConcat(oct, START, s[..m], rec);
    if !Stopped(After(oct, s, k)) {
      assert rec + [] == rec;
      FeedRecord(oct, After(oct, s, k), rec, []);
    }
  }

  /** Record k is taken as the header of a regular file. */
  ghost predicate HeaderAt(oct: Octal, s: seq<byte>, k: nat) {
    && REC_SZ * (k + 1) <= |s| && !Stopped(After(oct, s, k)) && After(oct, s, k).dataBlocks == 0
    && !AllZero(Rec(s, k)) && HdrOk(oct, Rec(s, k)) && Type(Rec(s, k)) == 8
  }

  ghost predicate SizesFit(oct: Octal, s: seq<byte>) {
    forall k :: HeaderAt(oct, s, k) ==> Size(oct, Rec(s, k)) / UINT % REC_SZ == 0
  }

  lemma NextMatches(oct: Octal, s: seq<byte>, k: nat)
    requires REC_SZ * (k + 1) <= |s| && BlocksMatch(After(oct, s, k)) && After(oct, s, k).dataBytes < UINT
    requires HeaderAt(oct, s, k) ==> Size(oct, Rec(s, k)) / UINT % REC_SZ == 0
    ensures BlocksMatch(After(oct, s, k + 1)) && After(oct, s, k + 1).dataBytes < UINT
  {
    var z, rec := After(oct, s, k), Rec(s, k);
    AfterNext(oct, s, k);
    if !Stopped(z) {
      RecordMatches(oct, z, rec);
    }
  }

  lemma RecordMatches(oct: Octal, z: Ustar, rec: seq<byte>)
    requires BlocksMatch(z) && z.dataBytes < UINT
    requires z.dataBlocks == 0 && !AllZero(rec) && HdrOk(oct, rec) && Type(rec) == 8 ==>
               Size(oct, rec) / UINT % REC_SZ == 0
    ensures BlocksMatch(Record(oct, z, rec)) && Record(oct, z, rec).dataBytes < UINT
  {
    if z.dataBlocks > 0 {
      DataMatches(z, rec);
    } else if HdrOk(oct, rec) && Type(rec) == 8 {
      HeaderMatches(oct, z, rec);
    }
  }

  lemma {:induction false} AllMatch(oct: Octal, s: seq<byte>, k: nat)
    requires SizesFit(oct, s) && REC_SZ * k <= |s|
    ensures BlocksMatch(After(oct, s, k)) && After(oct, s, k).dataBytes < UINT
  {
    if k > 0 {
      AllMatch(oct, s, k - 1);
      NextMatches(oct, s, k - 1);
    }
  }

  lemma MatchMeansFit(oct: Octal, s: seq<byte>, k: nat)
    requires HeaderAt(oct, s, k) && BlocksMatch(After(oct, s, k + 1))
    ensures Size(oct, Rec(s, k)) / UINT % REC_SZ == 0
  {
    var z, rec := After(oct, s, k), Rec(s, k);
    AfterNext(oct, s, k);
    HeaderMatches(oct, if z.seenFirstBlock then z.(trace := Emit(z.trace, FileEnd)) else z, rec);
  }

  /** The counters agree in every state of a run if and only if the sizes of its regular files, in
      units of 2^32, are multiples of 512. */
  lemma AlwaysMatch(oct: Octal, s: seq<byte>)
    ensures (forall k: nat :: REC_SZ * k <= |s| ==> BlocksMatch(After(oct, s, k))) <==> SizesFit(oct, s)
  {
    if SizesFit(oct, s) {
      forall k: nat | REC_SZ * k <= |s| ensures BlocksMatch(After(oct, s, k)) {
        AllMatch(oct, s, k);
      }
    } else if forall k: nat :: REC_SZ * k <= |s| ==> BlocksMatch(After(oct, s, k)) {
      var k :| HeaderAt(oct, s, k) && Size(oct, Rec(s, k)) / UINT % REC_SZ != 0;
      MatchMeansFit(oct, s, k);
    }
  }

  /** In particular, if they are all below 2^32. */
  lemma BelowFits(oct: Octal, s: seq<byte>)
    requires forall k :: HeaderAt(oct, s, k) ==> Size(oct, Rec(s, k)) < UINT
    ensures forall k: nat :: REC_SZ * k <= |s| ==> BlocksMatch(After(oct, s, k))
  {
    forall k | HeaderAt(oct, s, k) ensures Size(oct, Rec(s, k)) / UINT % REC_SZ == 0 {
      assert Size(oct, Rec(s, k)) / UINT == 0;
    }
    AlwaysMatch(oct, s);
  }

  /** No file is ever ended: seen_first_block stays false (pax/ustar.cc:67, :244). */
  lemma {:induction false} NeverEnds(oct: Octal, z: Ustar, s: seq<byte>)
    requires FileEnd !in z.trace && !z.seenFirstBlock
    ensures FileEnd !in Feed(oct, z, s).trace && !Feed(oct, z, s).seenFirstBlock
    decreases |s|
  {
    if |s| >= REC_SZ && !Stopped(z) {
      NeverEnds(oct, Record(oct, z, s[..REC_SZ]), s[REC_SZ..]);
    }
  }

  ghost predicate Counted(z: Ustar) {
    z.dataBlocks > 0 ==> exists last :: Counting(z.dataBlocks, z.dataBytes, last)
  }

  lemma CountRecord(oct: Octal, z: Ustar, rec: seq<byte>)
    requires Counted(z)
    ensures Counted(Record(oct, z, rec))
  {
    if z.dataBlocks > 1 {
      var last :| Counting(z.dataBlocks, z.dataBytes, last);
      CountOn(z, last, rec);
    } else if z.dataBlocks == 0 && !AllZero(rec) && HdrOk(oct, rec) && Type(rec) == 8 && Blocks(Size(oct, rec)) > 0 {
      CountStart(oct, z, rec);
    }
  }

  /** Whatever the headers say, the last record of a member is never read past its end: its count of
      data bytes is then between 1 and 512. */
  lemma {:induction false} LastInRecord(oct: Octal, z: Ustar, s: seq<byte>)
    requires Counted(z)
    ensures Counted(Feed(oct, z, s))
    ensures Feed(oct, z, s).dataBlocks == 1 ==> 0 < Feed(oct, z, s).dataBytes <= REC_SZ
    decreases |s|
  {
    if |s| >= REC_SZ && !Stopped(z) {
      CountRecord(oct, z, s[..REC_SZ]);
      LastInRecord(oct, Record(oct, z, s[..REC_SZ]), s[REC_SZ..]);
    }
  }
}
