/** cpio archives are read back, and the trailer is seen exactly when it is stored without a NUL. */
module CpioRoundTrip {
  import opened Bits
  import opened Pax
  import opened CpioSpec
  import opened CpioRun
  import opened CpioRecords
  import opened Seqs

  /** A run, and the steps after its last byte that need no other. */
  function Run(oct: Octal, z: Cpio, s: seq<byte>): Cpio
    requires CpioOk(z)
  {
    Settle(Feed(oct, z, s))
  }

  lemma RunMove(oct: Octal, z: Cpio, s: seq<byte>)
    requires CpioOk(z) && Silent(z)
    ensures CpioOk(Move(z)) && Run(oct, z, s) == Run(oct, Move(z), s)
  {
    MoveRank(z);
    if s != [] {
      FeedMove(oct, z, s);
    }
  }

  lemma RunBlock(oct: Octal, z: Cpio, a: seq<byte>, w: Cpio, s: seq<byte>)
    requires CpioOk(z) && Feed(oct, z, a) == w
    ensures CpioOk(w) && Run(oct, z, a + s) == Run(oct, w, s)
  {
    FeedConcat(oct, z, a, s);
  }

  /** Between two members. */
  ghost predicate AtMember(z: Cpio) {
    CpioOk(z) && z.rc == PXE_NONE && z.st == CS_HDR && z.hdrPos == 0
  }

  lemma RunHdr(oct: Octal, z: Cpio, hdr: seq<byte>, s: seq<byte>) returns (w: Cpio)
    requires AtMember(z) && |hdr| == HDR_LEN && HdrOk(oct, hdr)
    ensures CpioOk(w) && w.rc == PXE_NONE && w.st == CS_NAME && w.namePos == 0 && w.hdr == hdr
    ensures Prepared(oct, w) && w.nameLen == NameSize(oct, hdr) && w.fileBytes == Size(oct, hdr) && w.trace == z.trace
    ensures Run(oct, z, hdr + s) == Run(oct, w, s)
  {
    assert Splice(z.hdr, 0, hdr) == hdr;
    FeedHdr(oct, z, hdr);
    w := TakeHdr(oct, z, hdr);
    RunBlock(oct, z, hdr, w, s);
  }

  lemma RunName(oct: Octal, z: Cpio, name: seq<byte>, s: seq<byte>) returns (w: Cpio)
    requires CpioOk(z) && z.rc == PXE_NONE && z.st == CS_NAME && z.namePos == 0 && |name| == z.nameLen
    ensures w == NameEnd(z.(fi := z.fi.(pathname := name), namePos := |name|, inputBytes := z.inputBytes + |name|))
    ensures CpioOk(w) && Run(oct, z, name + s) == Run(oct, w, s)
  {
    assert Splice(z.fi.pathname, 0, name) == name;
    w := TakeName(z, name);
    if name == [] {
      RunMove(oct, z, s);
      assert name + s == s;
    } else {
      FeedName(oct, z, name);
      RunBlock(oct, z, name, w, s);
    }
  }

  lemma RunData(oct: Octal, z: Cpio, data: seq<byte>, s: seq<byte>) returns (w: Cpio)
    requires CpioOk(z) && z.rc == PXE_NONE && |data| == z.fileBytes
    requires z.st == if data == [] then CS_EOF else CS_DATA
    requires z.trace != [] && z.trace[|z.trace| - 1].FileStart?
    ensures CpioOk(w) && w.rc == PXE_NONE && w.st == CS_EOF
    ensures w.trace == z.trace + if data == [] then [] else [FileData(data)]
    ensures Run(oct, z, data + s) == Run(oct, w, s)
  {
    if data == [] {
      w := z;
      assert data + s == s;
    } else {
      FeedData(oct, z, data);
      w := TakeData(z, data);
      RunBlock(oct, z, data, w, s);
    }
  }

  /** The header and the name of a member. */
  lemma RunHead(oct: Octal, z: Cpio, hdr: seq<byte>, name: seq<byte>, s: seq<byte>) returns (w: Cpio)
    requires AtMember(z) && |hdr| == HDR_LEN && HdrOk(oct, hdr) && |name| == NameSize(oct, hdr)
    ensures CpioOk(w) && w.rc == PXE_NONE && Run(oct, z, hdr + (name + s)) == Run(oct, w, s)
    ensures name == TRAILER ==> w.st == CS_EOA && w.trace == z.trace
    ensures name != TRAILER ==>
              && w.st == (if Size(oct, hdr) > 0 then CS_DATA else CS_EOF) && w.fileBytes == Size(oct, hdr)
              && w.trace == z.trace + [FileStart(FileOf(oct, hdr, name))]
  {
    var z1 := RunHdr(oct, z, hdr, name + s);
    w := RunName(oct, z1, name, s);
  }

  /** The data, if any, and the end. */
  lemma RunBody(oct: Octal, z: Cpio, data: seq<byte>, s: seq<byte>, before: seq<Event>, start: Event) returns (w: Cpio)
    requires CpioOk(z) && z.rc == PXE_NONE && |data| == z.fileBytes
    requires z.st == if data == [] then CS_EOF else CS_DATA
    requires z.trace == before + [start] && start.FileStart?
    ensures AtMember(w) && w.trace == before + ([start] + (if data == [] then [] else [FileData(data)]) + [FileEnd])
    ensures Run(oct, z, data + s) == Run(oct, w, s)
  {
    var z1 := RunData(oct, z, data, s);
    RunMove(oct, z1, s);
    w := Move(z1);
    var d := if data == [] then [] else [FileData(data)];
    Assoc3(before, [start], d, [FileEnd]);
  }

  lemma RunMember(oct: Octal, z: Cpio, m: Member, s: seq<byte>) returns (w: Cpio)
    requires AtMember(z) && Sound(oct, m)
    ensures AtMember(w) && w.trace == z.trace + Calls(oct, m) && Run(oct, z, Encode(m) + s) == Run(oct, w, s)
  {
    Nested(m.hdr, m.name, m.data, s);
    var z1 := RunHead(oct, z, m.hdr, m.name, m.data + s);
    w := RunBody(oct, z1, m.data, s, z.trace, FileStart(FileOf(oct, m.hdr, m.name)));
  }

  lemma {:induction false} RunMembers(oct: Octal, ms: seq<Member>, s: seq<byte>) returns (w: Cpio)
    requires AllSound(oct, ms)
    ensures AtMember(w) && w.trace == CallsAll(oct, ms) && Run(oct, START, EncodeAll(ms) + s) == Run(oct, w, s)
    decreases |ms|
  {
    if ms == [] {
      w := START;
      assert EncodeAll(ms) + s == s;
    } else {
      var m := ms[|ms| - 1];
      var z := RunMembers(oct, ms[..|ms| - 1], Encode(m) + s);
      Assoc(EncodeAll(ms[..|ms| - 1]), Encode(m), s);
      w := RunMember(oct, z, m, s);
    }
  }

  /** Every archive of sound members is read to its end, with the calls of its members. */
  lemma ReadBack(oct: Octal, ms: seq<Member>)
    requires AllSound(oct, ms)
    ensures AtMember(Run(oct, START, EncodeAll(ms))) && Run(oct, START, EncodeAll(ms)).trace == CallsAll(oct, ms)
  {
    var w := RunMembers(oct, ms, []);
    assert EncodeAll(ms) + [] == EncodeAll(ms);
  }

  /** An archive is read to the end of a member without an error, and without a trailer, if and only
      if it is made of sound members; the calls are then theirs. */
  lemma Accepted(oct: Octal, input: seq<byte>)
    ensures AtMember(Run(oct, START, input)) <==>
            exists ms ::
              AllSound(oct, ms) && EncodeAll(ms) == input && Run(oct, START, input).trace == CallsAll(oct, ms)
  {
    if AtMember(Run(oct, START, input)) {
      var n := Conservation(oct, input);
      AccountSettle(oct, Feed(oct, START, input), input[..n]);
      NotStopped(oct, START, input);
      assert input[..n] == input;
      BoundaryMembers(oct, Run(oct, START, input), input);
    }
    if ms :| AllSound(oct, ms) && EncodeAll(ms) == input && Run(oct, START, input).trace == CallsAll(oct, ms) {
      ReadBack(oct, ms);
    }
  }

  lemma NotStopped(oct: Octal, z: Cpio, input: seq<byte>)
    requires CpioOk(z) && !Stopped(Run(oct, z, input))
    ensures Feed(oct, z, input).inputBytes == z.inputBytes + |input|
  {
  }

  lemma BoundaryMembers(oct: Octal, z: Cpio, bytes: seq<byte>)
    requires AtMember(z) && Accounted(oct, z, bytes)
    ensures exists ms :: AllSound(oct, ms) && EncodeAll(ms) == bytes && z.trace == CallsAll(oct, ms)
  {
    var ms, part, d :| Accounts(oct, z, bytes, ms, part, d);
    assert Front(z.hdr, 0) == [] && part == [];
    assert EncodeAll(ms) + [] == EncodeAll(ms);
  }

  /** The archive ms, and a header whose ten-byte name is the trailer's, begin input. */
  ghost predicate EndsIn(oct: Octal, ms: seq<Member>, hdr: seq<byte>, input: seq<byte>) {
    && AllSound(oct, ms) && |hdr| == HDR_LEN && HdrOk(oct, hdr) && NameSize(oct, hdr) == 10
    && EncodeAll(ms) + hdr + TRAILER <= input
  }

  /** The end of the archive is seen if and only if sound members are followed by a header whose
      stored name is TRAILER!!! and nothing else; what follows is not looked at. */
  lemma TrailerSeen(oct: Octal, input: seq<byte>)
    ensures Run(oct, START, input).st == CS_EOA <==> exists ms, hdr :: EndsIn(oct, ms, hdr, input)
  {
    if Run(oct, START, input).st == CS_EOA {
      SeenTrailer(oct, input);
    }
    if ms, hdr :| EndsIn(oct, ms, hdr, input) {
      EndSeen(oct, ms, hdr, input);
    }
  }

  lemma SeenTrailer(oct: Octal, input: seq<byte>)
    requires Run(oct, START, input).st == CS_EOA
    ensures exists ms, hdr :: EndsIn(oct, ms, hdr, input)
  {
    var n := Conservation(oct, input);
    AccountSettle(oct, Feed(oct, START, input), input[..n]);
    var ms := SeenEnds(oct, Run(oct, START, input), input, n);
  }

  lemma EndSeen(oct: Octal, ms: seq<Member>, hdr: seq<byte>, input: seq<byte>)
    requires EndsIn(oct, ms, hdr, input)
    ensures Run(oct, START, input).st == CS_EOA
  {
    var read := EncodeAll(ms) + hdr + TRAILER;
    TrailerStops(oct, ms, hdr, input[|read|..]);
    PrefixRest(read, input);
  }

  lemma SeenEnds(oct: Octal, z: Cpio, input: seq<byte>, n: nat) returns (ms: seq<Member>)
    requires CpioOk(z) && z.st == CS_EOA && n <= |input| && Accounted(oct, z, input[..n])
    ensures EndsIn(oct, ms, z.hdr, input)
  {
    var part, d;
    ms, part, d :| Accounts(oct, z, input[..n], ms, part, d);
    Assoc(EncodeAll(ms), z.hdr, TRAILER);
  }

  lemma TrailerStops(oct: Octal, ms: seq<Member>, hdr: seq<byte>, rest: seq<byte>)
    requires AllSound(oct, ms) && |hdr| == HDR_LEN && HdrOk(oct, hdr) && NameSize(oct, hdr) == 10
    ensures var z := Run(oct, START, EncodeAll(ms) + hdr + TRAILER + rest);
            z.rc == PXE_NONE && z.st == CS_EOA && z.trace == CallsAll(oct, ms)
  {
    Nested(EncodeAll(ms), hdr, TRAILER, rest);
    var z := RunMembers(oct, ms, hdr + (TRAILER + rest));
    var w := RunHead(oct, z, hdr, TRAILER, rest);
    EoaStays(oct, w, rest);
  }

  lemma EoaStays(oct: Octal, z: Cpio, s: seq<byte>)
    requires CpioOk(z) && z.st == CS_EOA
    ensures Run(oct, z, s) == z
  {
  }

  /** A trailer as cpio writes it counts the NUL after the name in c_namesize: it is read as one more
      file, named TRAILER!!! and the NUL. */
  lemma NulTrailerIsAFile(oct: Octal, ms: seq<Member>, hdr: seq<byte>)
    requires AllSound(oct, ms) && |hdr| == HDR_LEN && HdrOk(oct, hdr)
    requires NameSize(oct, hdr) == 11 && Size(oct, hdr) == 0
    ensures var z := Run(oct, START, EncodeAll(ms) + hdr + (TRAILER + [0]));
            && z.st == CS_HDR
            && z.trace == CallsAll(oct, ms) + [FileStart(FileOf(oct, hdr, TRAILER + [0])), FileEnd]
  {
    var m := Member(hdr, TRAILER + [0], []);
    OneMore(oct, ms, m);
    ReadBack(oct, ms + [m]);
    assert EncodeAll(ms) + hdr + (TRAILER + [0]) == EncodeAll(ms) + Encode(m);
    assert Calls(oct, m) == [FileStart(FileOf(oct, hdr, TRAILER + [0])), FileEnd];
  }

  /** A size field that can not be read makes octal_str give -1; the test for a negative value
      (pax/cpio.cc:90) does not see it in an unsigned field. */
  lemma UnreadableSize(oct: Octal, hdr: seq<byte>)
    requires oct(Field(hdr, 65, 11)) == -1
    ensures Size(oct, hdr) == 0xffff_ffff_ffff_ffff
  {
  }

  /** All the rest of such an archive, up to 2^64 - 2 bytes, becomes the data of one member. */
  lemma RestIsOneMember(oct: Octal, ms: seq<Member>, hdr: seq<byte>, name: seq<byte>, rest: seq<byte>)
    requires AllSound(oct, ms) && |hdr| == HDR_LEN && HdrOk(oct, hdr) && oct(Field(hdr, 65, 11)) == -1
    requires |name| == NameSize(oct, hdr) && name != TRAILER && 0 < |rest| < 0xffff_ffff_ffff_ffff
    ensures var z := Run(oct, START, EncodeAll(ms) + (hdr + (name + rest)));
            && z.rc == PXE_NONE && z.st == CS_DATA
            && z.trace == CallsAll(oct, ms) + [FileStart(FileOf(oct, hdr, name))] + [FileData(rest)]
  {
    UnreadableSize(oct, hdr);
    var z := RunMembers(oct, ms, hdr + (name + rest));
    var w := RunHead(oct, z, hdr, name, rest);
    FeedData(oct, w, rest);
    EmitInside(w.trace, z.trace, FileStart(FileOf(oct, hdr, name)), [], rest);
    assert [] + rest == rest && z.trace + [FileStart(FileOf(oct, hdr, name))] + [] == w.trace;
  }

  // ----- the order of the calls -----

  /** A file starts first of all or after an end; data come right after a start; an end comes after
      a start or data. */
  ghost predicate Follows(t: seq<Event>, i: nat)
    requires i < |t|
  {
    match t[i]
    case FileStart(_) => i == 0 || t[i - 1].FileEnd?
    case FileData(_) => i > 0 && t[i - 1].FileStart?
    case FileEnd => i > 0 && !t[i - 1].FileEnd?
  }

  ghost predicate Bracketed(t: seq<Event>) {
    forall i :: 0 <= i < |t| ==> Follows(t, i)
  }

  ghost predicate Closed(t: seq<Event>) {
    Bracketed(t) && (t == [] || t[|t| - 1].FileEnd?)
  }

  lemma BracketMore(t: seq<Event>, more: seq<Event>)
    requires Closed(t) && Bracketed(more)
    ensures Bracketed(t + more)
    ensures Closed(more) ==> Closed(t + more)
  {
    var u := t + more;
    forall i | 0 <= i < |u| ensures Follows(u, i) {
      if i < |t| {
        assert Follows(t, i);
      } else {
        assert Follows(more, i - |t|);
      }
    }
  }

  lemma {:induction false} CallsClosed(oct: Octal, ms: seq<Member>)
    ensures Closed(CallsAll(oct, ms))
  {
    if ms != [] {
      CallsClosed(oct, ms[..|ms| - 1]);
      BracketMore(CallsAll(oct, ms[..|ms| - 1]), Calls(oct, ms[|ms| - 1]));
    }
  }

  lemma InsideCalls(oct: Octal, z: Cpio, part: seq<byte>, before: seq<Event>, d: seq<byte>) returns (more: seq<Event>)
    requires Inside(oct, z, part, before, d)
    ensures z.trace == before + more && Bracketed(more)
  {
    if z.st == CS_DATA || z.st == CS_EOF {
      var data := if d == [] then [] else [FileData(d)];
      more := [FileStart(z.fi)] + data;
      assert before + [FileStart(z.fi)] + data == before + more;
    } else {
      more := [];
      assert before + [] == before;
    }
  }

  /** The calls of any run come in brackets: a start, its data if any, its end. */
  lemma Grammar(oct: Octal, input: seq<byte>)
    ensures Bracketed(Feed(oct, START, input).trace)
  {
    var z := Feed(oct, START, input);
    var n := Conservation(oct, input);
    var ms, part, d :| Accounts(oct, z, input[..n], ms, part, d);
    CallsClosed(oct, ms);
    var more := InsideCalls(oct, z, part, CallsAll(oct, ms), d);
    BracketMore(CallsAll(oct, ms), more);
  }
}
