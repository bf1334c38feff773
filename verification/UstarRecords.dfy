/** What a ustar archive is made of, and that the machine reads exactly that. */
module UstarRecords {
  import opened Bits
  import opened Pax
  import opened UstarSpec
  import opened UstarRun
  import opened Seqs

  /** A header record and the records that hold the file's data. */
  datatype Member = Member(rec: seq<byte>, body: seq<byte>)

  predicate Header(oct: Octal, rec: seq<byte>) {
    |rec| == REC_SZ && !AllZero(rec) && HdrOk(oct, rec)
  }

  function BodyRecords(oct: Octal, rec: seq<byte>): nat {
    if Type(rec) == 8 then Blocks(Size(oct, rec)) else 0
  }

  predicate Sound(oct: Octal, m: Member) {
    Header(oct, m.rec) && |m.body| == REC_SZ * BodyRecords(oct, m.rec)
  }

  function Encode(m: Member): seq<byte> { m.rec + m.body }

  /** Start, and the data at once if there is any. */
  function Calls(oct: Octal, m: Member): seq<Event> {
    [FileStart(FileOf(oct, m.rec))]
    + if m.body == [] then [] else [FileData(Front(m.body, Delivered(Size(oct, m.rec))))]
  }

  predicate AllSound(oct: Octal, ms: seq<Member>) {
    forall m <- ms :: Sound(oct, m)
  }

  function EncodeAll(ms: seq<Member>): seq<byte> {
    if ms == [] then [] else EncodeAll(ms[..|ms| - 1]) + Encode(ms[|ms| - 1])
  }

  function CallsAll(oct: Octal, ms: seq<Member>): seq<Event> {
    if ms == [] then [] else CallsAll(oct, ms[..|ms| - 1]) + Calls(oct, ms[|ms| - 1])
  }

  lemma OneMore(oct: Octal, ms: seq<Member>, m: Member)
    ensures EncodeAll(ms + [m]) == EncodeAll(ms) + Encode(m)
    ensures CallsAll(oct, ms + [m]) == CallsAll(oct, ms) + Calls(oct, m)
    ensures AllSound(oct, ms) && Sound(oct, m) ==> AllSound(oct, ms + [m])
  {
    assert (ms + [m])[..|ms|] == ms;
  }

  // ----- archives of sound members are read to their end -----

  lemma ReadMember(oct: Octal, z: Ustar, m: Member)
    requires AtHeader(z) && Sound(oct, m)
    ensures AtHeader(Feed(oct, z, Encode(m))) && Feed(oct, z, Encode(m)).trace == z.trace + Calls(oct, m)
  {
    if Type(m.rec) == 8 {
      MemberDelivered(oct, z, m.rec, m.body);
      Assoc(z.trace, [FileStart(FileOf(oct, m.rec))], Calls(oct, m)[1..]);
    } else {
      FeedRecord(oct, z, m.rec, m.body);
    }
  }

  lemma MemberLength(oct: Octal, m: Member)
    requires Sound(oct, m)
    ensures |Encode(m)| == REC_SZ * (1 + BodyRecords(oct, m.rec))
  {
  }

  lemma {:induction false} LengthOfAll(oct: Octal, ms: seq<Member>) returns (n: nat)
    requires AllSound(oct, ms)
    ensures |EncodeAll(ms)| == REC_SZ * n
    decreases |ms|
  {
    n := 0;
    if ms != [] {
      n := LengthOfAll(oct, ms[..|ms| - 1]);
      MemberLength(oct, ms[|ms| - 1]);
      n := n + 1 + BodyRecords(oct, ms[|ms| - 1].rec);
    }
  }

  lemma RecordsWhole(oct: Octal, ms: seq<Member>)
    requires AllSound(oct, ms)
    ensures |EncodeAll(ms)| % REC_SZ == 0
  {
    var n := LengthOfAll(oct, ms);
  }

  /** An archive of sound members is read to its end: each member's calls are its start and its data,
      the padding dropped. */
  lemma {:induction false} ReadBack(oct: Octal, ms: seq<Member>)
    requires AllSound(oct, ms)
    ensures AtHeader(Feed(oct, START, EncodeAll(ms))) && Feed(oct, START, EncodeAll(ms)).trace == CallsAll(oct, ms)
    decreases |ms|
  {
    if ms != [] {
      var m := ms[|ms| - 1];
      ReadBack(oct, ms[..|ms| - 1]);
      RecordsWhole(oct, ms[..|ms| - 1]);
      FeedConcat(oct, START, EncodeAll(ms[..|ms| - 1]), Encode(m));
      ReadMember(oct, Feed(oct, START, EncodeAll(ms[..|ms| - 1])), m);
    }
  }

  // ----- and nothing else is -----

  /** The header rec and the records body have been taken, and more of the file's data is to come. */
  ghost predicate Begun(oct: Octal, z: Ustar, before: seq<Event>, rec: seq<byte>, body: seq<byte>) {
    && Header(oct, rec) && Type(rec) == 8
    && z.dataBlocks <= Blocks(Size(oct, rec)) && |body| == REC_SZ * (Blocks(Size(oct, rec)) - z.dataBlocks)
    && Counting(z.dataBlocks, z.dataBytes, LastBytes(Size(oct, rec)))
    && z.trace == before + [FileStart(FileOf(oct, rec))] + if body == [] then [] else [FileData(body)]
  }

  /** The state is inside the member that begins with rec and body; before was the trace when it began.
      Behind the record of zeros that ends the archive nothing is looked at. */
  ghost predicate Inside(oct: Octal, z: Ustar, before: seq<Event>, rec: seq<byte>, body: seq<byte>) {
    if z.dataBlocks > 0 then
      z.inArchive && Begun(oct, z, before, rec, body)
    else
      z.trace == before && body == [] && if z.inArchive then rec == [] else |rec| == REC_SZ && AllZero(rec)
  }

  ghost predicate Accounts(oct: Octal, z: Ustar, bytes: seq<byte>, ms: seq<Member>, rec: seq<byte>, body: seq<byte>) {
    && !z.seenFirstBlock && AllSound(oct, ms)
    && bytes == EncodeAll(ms) + (rec + body) && Inside(oct, z, CallsAll(oct, ms), rec, body)
  }

  /** bytes are whole members and the part of one more that the state is inside of. */
  ghost predicate Accounted(oct: Octal, z: Ustar, bytes: seq<byte>) {
    exists ms, rec, body :: Accounts(oct, z, bytes, ms, rec, body)
  }

  lemma GoesOn(oct: Octal, z: Ustar, before: seq<Event>, rec: seq<byte>, body: seq<byte>, r: seq<byte>)
    requires z.dataBlocks > 1 && Begun(oct, z, before, rec, body) && |r| == REC_SZ
    ensures Begun(oct, DataRecord(z, r), before, rec, body + r)
  {
    CountOn(z, LastBytes(Size(oct, rec)), r);
    EmitInside(z.trace, before, FileStart(FileOf(oct, rec)), body, r);
  }

  lemma LastPart(size: nat, body: seq<byte>, r: seq<byte>)
    requires Blocks(size) > 0 && |body| == REC_SZ * (Blocks(size) - 1) && |r| == REC_SZ
    ensures Front(body + r, Delivered(size)) == body + r[..LastBytes(size)]
  {
  }

  lemma WholeCalls(oct: Octal, rec: seq<byte>, body: seq<byte>, before: seq<Event>, data: seq<byte>)
    requires body != [] && data == Front(body, Delivered(Size(oct, rec)))
    ensures before + [FileStart(FileOf(oct, rec))] + [FileData(data)] == before + Calls(oct, Member(rec, body))
  {
  }

  lemma LastBody(oct: Octal, z: Ustar, before: seq<Event>, rec: seq<byte>, body: seq<byte>, r: seq<byte>)
    requires z.dataBlocks == 1 && Begun(oct, z, before, rec, body) && |r| == REC_SZ
    ensures Sound(oct, Member(rec, body + r)) && z.dataBytes == LastBytes(Size(oct, rec))
  {
    LastCount(z.dataBytes, LastBytes(Size(oct, rec)));
    OneRecordMore(body, r, Blocks(Size(oct, rec)));
  }

  lemma LastCount(bytes: nat, last: nat)
    requires Counting(1, bytes, last)
    ensures bytes == last
  {
  }

  lemma OneRecordMore(body: seq<byte>, r: seq<byte>, blocks: nat)
    requires blocks > 0 && |body| == REC_SZ * (blocks - 1) && |r| == REC_SZ
    ensures |body + r| == REC_SZ * blocks
  {
  }

  /** The last record of a member. */
  lemma Ends(oct: Octal, z: Ustar, before: seq<Event>, rec: seq<byte>, body: seq<byte>, r: seq<byte>)
    requires z.dataBlocks == 1 && Begun(oct, z, before, rec, body) && |r| == REC_SZ
    ensures Sound(oct, Member(rec, body + r))
    ensures DataRecord(z, r).trace == before + Calls(oct, Member(rec, body + r))
  {
    var last := LastBytes(Size(oct, rec));
    LastBody(oct, z, before, rec, body, r);
    EmitInside(z.trace, before, FileStart(FileOf(oct, rec)), body, r[..last]);
    LastPart(Size(oct, rec), body, r);
    WholeCalls(oct, rec, body + r, before, body + r[..last]);
  }

  lemma AccountMember(oct: Octal, z: Ustar, ms: seq<Member>, m: Member)
    requires AtHeader(z) && AllSound(oct, ms) && Sound(oct, m) && z.trace == CallsAll(oct, ms) + Calls(oct, m)
    ensures Accounted(oct, z, EncodeAll(ms) + Encode(m))
  {
    OneMore(oct, ms, m);
    var empty: seq<byte> := [];
    assert EncodeAll(ms + [m]) + (empty + empty) == EncodeAll(ms + [m]);
    assert Accounts(oct, z, EncodeAll(ms) + Encode(m), ms + [m], [], []);
  }

  lemma AccountData(oct: Octal, z: Ustar, bytes: seq<byte>, r: seq<byte>)
    requires !Stopped(z) && z.dataBlocks > 0 && Accounted(oct, z, bytes) && |r| == REC_SZ
    ensures Accounted(oct, DataRecord(z, r), bytes + r)
  {
    var ms, rec, body :| Accounts(oct, z, bytes, ms, rec, body);
    Assoc(rec, body, r);
    Assoc(EncodeAll(ms), rec + body, r);
    if z.dataBlocks > 1 {
      GoesOn(oct, z, CallsAll(oct, ms), rec, body, r);
      assert Accounts(oct, DataRecord(z, r), bytes + r, ms, rec, body + r);
    } else {
      Ends(oct, z, CallsAll(oct, ms), rec, body, r);
      AccountMember(oct, DataRecord(z, r), ms, Member(rec, body + r));
    }
  }

  lemma AccountHeader(oct: Octal, z: Ustar, bytes: seq<byte>, r: seq<byte>)
    requires AtHeader(z) && Accounted(oct, z, bytes) && Header(oct, r)
    ensures Accounted(oct, HdrRecord(oct, z, r), bytes + r)
  {
    var ms, rec, body :| Accounts(oct, z, bytes, ms, rec, body);
    var w, empty: seq<byte> := HdrRecord(oct, z, r), [];
    assert r + empty == r && bytes == EncodeAll(ms);
    var start := FileStart(FileOf(oct, r));
    assert w.trace == z.trace + [start] == z.trace + [start] + [];
    if BodyRecords(oct, r) > 0 {
      CountStart(oct, z, r);
      assert Accounts(oct, w, bytes + r, ms, r, []);
    } else {
      assert Calls(oct, Member(r, [])) == [start];
      AccountMember(oct, w, ms, Member(r, []));
    }
  }

  lemma AccountEnd(oct: Octal, z: Ustar, bytes: seq<byte>, r: seq<byte>)
    requires AtHeader(z) && Accounted(oct, z, bytes) && |r| == REC_SZ && AllZero(r)
    ensures Accounted(oct, Record(oct, z, r), bytes + r)
  {
    var ms, rec, body :| Accounts(oct, z, bytes, ms, rec, body);
    var empty: seq<byte> := [];
    assert r + empty == r && bytes == EncodeAll(ms);
    assert Accounts(oct, Record(oct, z, r), bytes + r, ms, r, []);
  }

  /** One record: it is consumed, or it is a bad header. */
  lemma AccountRecord(oct: Octal, z: Ustar, bytes: seq<byte>, r: seq<byte>)
    requires !Stopped(z) && Accounted(oct, z, bytes) && |r| == REC_SZ
    ensures var w := Record(oct, z, r);
            if w.rc == PXE_NONE then w.records == z.records + 1 && Accounted(oct, w, bytes + r)
            else w.records == z.records && Accounted(oct, w, bytes)
  {
    var ms, rec, body :| Accounts(oct, z, bytes, ms, rec, body);
    if z.dataBlocks > 0 {
      AccountData(oct, z, bytes, r);
    } else if AllZero(r) {
      AccountEnd(oct, z, bytes, r);
    } else if HdrOk(oct, r) {
      AccountHeader(oct, z, bytes, r);
    } else {
      AccountError(oct, z, Record(oct, z, r).rc, bytes);
    }
  }

  lemma AccountError(oct: Octal, z: Ustar, rc: Code, bytes: seq<byte>)
    requires Accounted(oct, z, bytes)
    ensures Accounted(oct, z.(rc := rc), bytes)
  {
    var ms, rec, body :| Accounts(oct, z, bytes, ms, rec, body);
    assert Accounts(oct, z.(rc := rc), bytes, ms, rec, body);
  }

  lemma RecordStep(bytes: seq<byte>, s: seq<byte>, m: nat, n: nat)
    requires n == REC_SZ + m <= |s|
    ensures bytes + s[..REC_SZ] + s[REC_SZ..][..m] == bytes + s[..n]
  {
    assert s[..n] == s[..REC_SZ] + s[REC_SZ..][..m];
  }

  lemma {:induction false} AccountFeed(oct: Octal, z: Ustar, bytes: seq<byte>, s: seq<byte>) returns (n: nat)
    requires Accounted(oct, z, bytes)
    ensures n <= |s| && REC_SZ * Feed(oct, z, s).records == REC_SZ * z.records + n
    ensures Accounted(oct, Feed(oct, z, s), bytes + s[..n]) && (Stopped(Feed(oct, z, s)) || n == |s|)
    decreases |s|
  {
    n := 0;
    assert bytes + s[..0] == bytes;
    if s != [] && !Stopped(z) {
      if |s| < REC_SZ {
        AccountError(oct, z, PXE_TRUNCATED, bytes);
      } else {
        var w := Record(oct, z, s[..REC_SZ]);
        AccountRecord(oct, z, bytes, s[..REC_SZ]);
        if w.rc == PXE_NONE {
          var m := AccountFeed(oct, w, bytes + s[..REC_SZ], s[REC_SZ..]);
          n := REC_SZ + m;
          RecordStep(bytes, s, m, n);
        }
      }
    }
  }

  /** Every run, on any bytes: the records consumed are whole members and the first of one more, or
      the record of zeros; the calls are theirs, start and data, and the first of those of the one
      more, with the data that has come so far. */
  lemma Conservation(oct: Octal, input: seq<byte>) returns (n: nat)
    ensures n == REC_SZ * Feed(oct, START, input).records <= |input|
    ensures Accounted(oct, Feed(oct, START, input), input[..n])
    ensures Stopped(Feed(oct, START, input)) || n == |input|
  {
    assert Accounts(oct, START, [], [], [], []);
    n := AccountFeed(oct, START, [], input);
    assert [] + input[..n] == input[..n];
  }

  /** The input is taken to the end of a member without an error if and only if it is made of sound
      members; the calls are then theirs. */
  lemma Accepted(oct: Octal, input: seq<byte>)
    ensures AtHeader(Feed(oct, START, input)) <==>
            exists ms ::
              AllSound(oct, ms) && EncodeAll(ms) == input && Feed(oct, START, input).trace == CallsAll(oct, ms)
  {
    var z := Feed(oct, START, input);
    if AtHeader(z) {
      var n := Conservation(oct, input);
      var ms, rec, body :| Accounts(oct, z, input[..n], ms, rec, body);
      assert input[..n] == input;
      var empty: seq<byte> := [];
      assert EncodeAll(ms) + (empty + empty) == EncodeAll(ms);
    }
    if ms :| AllSound(oct, ms) && EncodeAll(ms) == input && z.trace == CallsAll(oct, ms) {
      ReadBack(oct, ms);
    }
  }

  ghost predicate EndsIn(oct: Octal, ms: seq<Member>, zeros: seq<byte>, input: seq<byte>) {
    AllSound(oct, ms) && |zeros| == REC_SZ && AllZero(zeros) && EncodeAll(ms) + zeros <= input
  }

  /** The end of the archive is seen if and only if sound members are followed by a record of zeros;
      what follows is not looked at. */
  lemma EndSeen(oct: Octal, input: seq<byte>)
    ensures !Feed(oct, START, input).inArchive <==> exists ms, zeros :: EndsIn(oct, ms, zeros, input)
  {
    var z := Feed(oct, START, input);
    if !z.inArchive {
      SeenEnd(oct, z, input);
    }
    if ms, zeros :| EndsIn(oct, ms, zeros, input) {
      ZerosEnd(oct, ms, zeros, input);
    }
  }

  lemma SeenEnd(oct: Octal, z: Ustar, input: seq<byte>)
    requires z == Feed(oct, START, input) && !z.inArchive
    ensures exists ms, zeros :: EndsIn(oct, ms, zeros, input)
  {
    var n := Conservation(oct, input);
    var ms, rec, body :| Accounts(oct, z, input[..n], ms, rec, body);
    assert z.dataBlocks == 0 && rec + body == rec;
    assert EndsIn(oct, ms, rec, input);
  }

  lemma ZerosEnd(oct: Octal, ms: seq<Member>, zeros: seq<byte>, input: seq<byte>)
    requires EndsIn(oct, ms, zeros, input)
    ensures !Feed(oct, START, input).inArchive && Feed(oct, START, input).trace == CallsAll(oct, ms)
  {
    var rest := input[|EncodeAll(ms) + zeros|..];
    PrefixRest(EncodeAll(ms) + zeros, input);
    Assoc(EncodeAll(ms), zeros, rest);
    ReadBack(oct, ms);
    RecordsWhole(oct, ms);
    FeedConcat(oct, START, EncodeAll(ms), zeros + rest);
    FeedRecord(oct, Feed(oct, START, EncodeAll(ms)), zeros, rest);
  }

  // ----- the order of the calls -----

  ghost predicate OpenAt(t: seq<Event>, i: nat)
    requires i < |t|
  {
    t[i].FileStart? || (t[i].FileData? && i > 0 && t[i - 1].FileStart?)
  }

  /** A start, then its data at once, if any; no end. */
  ghost predicate Opened(t: seq<Event>) {
    forall i :: 0 <= i < |t| ==> OpenAt(t, i)
  }

  lemma OpenedMore(t: seq<Event>, more: seq<Event>)
    requires Opened(t) && Opened(more)
    ensures Opened(t + more)
  {
    forall i | 0 <= i < |t + more| ensures OpenAt(t + more, i) {
      if i < |t| {
        assert OpenAt(t, i);
      } else {
        assert OpenAt(more, i - |t|);
      }
    }
  }

  lemma {:induction false} CallsOpened(oct: Octal, ms: seq<Member>)
    ensures Opened(CallsAll(oct, ms))
  {
    if ms != [] {
      CallsOpened(oct, ms[..|ms| - 1]);
      OpenedMore(CallsAll(oct, ms[..|ms| - 1]), Calls(oct, ms[|ms| - 1]));
    }
  }

  lemma BegunOpened(oct: Octal, z: Ustar, before: seq<Event>, rec: seq<byte>, body: seq<byte>)
    requires Begun(oct, z, before, rec, body) && Opened(before)
    ensures Opened(z.trace)
  {
    var start := FileStart(FileOf(oct, rec));
    OpenedMore(before, [start]);
    if body == [] {
      assert before + [start] + [] == before + [start];
    } else {
      Assoc(before, [start], [FileData(body)]);
      OpenedMore(before, [start] + [FileData(body)]);
    }
  }

  /** The calls of any run: starts, each with at most one stretch of data behind it, and never an end. */
  lemma Grammar(oct: Octal, input: seq<byte>)
    ensures Opened(Feed(oct, START, input).trace)
  {
    var z := Feed(oct, START, input);
    var n := Conservation(oct, input);
    var ms, rec, body :| Accounts(oct, z, input[..n], ms, rec, body);
    var before := CallsAll(oct, ms);
    CallsOpened(oct, ms);
    if z.dataBlocks > 0 {
      BegunOpened(oct, z, before, rec, body);
    }
  }
}
