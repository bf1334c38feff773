/** Archives are read back: the machine takes exactly the archives made of sound records, and makes
    for each the calls of its records, however it is cut. */
module ZipRoundTrip {
  import opened Bits
  import opened Pax
  import opened ZipSpec
  import opened ZipRun
  import opened ZipRecords
  import opened Seqs

  /** A run, and the steps after its last byte that need no other. */
  function Run(z: Zip, s: seq<byte>): Zip
    requires ZipOk(z)
  {
    Settle(Feed(z, s))
  }

  lemma RunMove(z: Zip, s: seq<byte>)
    requires ZipOk(z) && Silent(z)
    ensures ZipOk(Move(z)) && Run(z, s) == Run(Move(z), s)
  {
    MoveRank(z);
    if s != [] {
      FeedMove(z, s);
    }
  }

  lemma RunBlock(z: Zip, a: seq<byte>, w: Zip, s: seq<byte>)
    requires ZipOk(z) && Feed(z, a) == w
    ensures ZipOk(w) && Run(z, a + s) == Run(w, s)
  {
    FeedConcat(z, a, s);
  }

  /** A whole copy. */
  lemma RunCopy(z: Zip, a: seq<byte>, s: seq<byte>)
    requires ZipOk(z) && Copies(z.st) && z.rc == PXE_NONE && z.pos == 0 && |a| == Need(z)
    ensures ZipOk(Copy(z, a)) && Run(z, a + s) == Run(Copy(z, a), s)
  {
    if a == [] {
      RunMove(z, s);
      assert a + s == s;
    } else {
      FeedCopy(z, a);
      RunBlock(z, a, Copy(z, a), s);
    }
  }

  /** All the data of a member. */
  lemma RunStore(z: Zip, a: seq<byte>, s: seq<byte>)
    requires ZipOk(z) && z.st == ZS_DATA && Method(z.bufs.hdr) == 0 && z.rc == PXE_NONE && |a| == z.dataBytes
    ensures ZipOk(Store(z, a)) && Run(z, a + s) == Run(Store(z, a), s)
  {
    if a == [] {
      RunMove(z, s);
      assert a + s == s;
    } else {
      FeedStore(z, a);
      RunBlock(z, a, Store(z, a), s);
    }
  }

  lemma RunSkip(z: Zip, a: seq<byte>, s: seq<byte>)
    requires ZipOk(z) && z.st == ZS_SKIP_BYTES && z.rc == PXE_NONE && |a| == z.skip
    ensures ZipOk(Skip(z, |a|)) && Run(z, a + s) == Run(Skip(z, |a|), s)
  {
    if a == [] {
      RunMove(z, s);
      assert a + s == s;
    } else {
      FeedSkip(z, a);
      RunBlock(z, a, Skip(z, |a|), s);
    }
  }

  /** Between two records. */
  ghost predicate AtRecord(z: Zip) {
    ZipOk(z) && z.rc == PXE_NONE && z.st == ZS_BEGIN_REC && z.pos == 0
  }

  /** w is in state st, nothing copied yet, after n more bytes, with no more calls made. */
  ghost predicate Onward(z: Zip, w: Zip, st: InputState) {
    ZipOk(w) && w.rc == PXE_NONE && w.st == st && w.pos == 0 && w.trace == z.trace
  }

  lemma WholeFill(t: seq<byte>, a: seq<byte>)
    requires |a| == |t|
    ensures Splice(t, 0, a) == a
  {
  }

  lemma RunSig(z: Zip, sig: seq<byte>, s: seq<byte>) returns (w: Zip)
    requires AtRecord(z) && sig in {LOCAL_SIG, CENTRAL_SIG, END_SIG}
    ensures Onward(z, w, if sig == LOCAL_SIG then ZS_FILE_HDR
                         else if sig == CENTRAL_SIG then ZS_CENTRAL_DIR else ZS_END_CENTRAL)
    ensures Run(z, sig + s) == Run(w, s)
  {
    RunCopy(z, sig, s);
    WholeFill(z.bufs.sig, sig);
    SigBytes(sig);
    RunMove(Copy(z, sig), s);
    w := Move(Copy(z, sig));
  }

  lemma RunHdr(z: Zip, hdr: seq<byte>, s: seq<byte>) returns (w: Zip)
    requires Onward(z, z, ZS_FILE_HDR) && |hdr| == 26 && Method(hdr) == 0
    ensures Onward(z, w, ZS_FILE_NAME) && w.bufs.hdr == hdr && Prepared(w)
    ensures Run(z, hdr + s) == Run(w, s)
  {
    RunCopy(z, hdr, s);
    WholeFill(z.bufs.hdr, hdr);
    RunMove(Copy(z, hdr), s);
    w := Move(Copy(z, hdr));
  }

  lemma RunName(z: Zip, name: seq<byte>, s: seq<byte>) returns (w: Zip)
    requires Onward(z, z, ZS_FILE_NAME) && Prepared(z) && |name| == NameLen(z.bufs.hdr)
    ensures Onward(z, w, ZS_EXTRA) && w.bufs.hdr == z.bufs.hdr && w.bufs.name == name && Prepared(w)
    ensures Run(z, name + s) == Run(w, s)
  {
    RunCopy(z, name, s);
    WholeFill(z.bufs.name, name);
    w := Copy(z, name);
  }

  lemma FlushWhole(c: Zip, extra: seq<byte>)
    requires ZipOk(c) && c.rc == PXE_NONE && c.st == ZS_FLUSH_HDR && Prepared(c)
    requires HeadOk(c.bufs.hdr, c.bufs.name, extra) && Extra(c.bufs) == extra
    ensures ZipOk(Move(c)) && Move(c).rc == PXE_NONE && Move(c).st == ZS_DATA && Move(c).pos == 0
    ensures Move(c).bufs == c.bufs && Move(c).crc == 0 && Move(c).dataBytes == SizeU(c.bufs.hdr)
    ensures Move(c).trace == c.trace + [FileStart(FileOf(c.bufs.hdr, c.bufs.name, extra))]
  {
    FlushCalls(c);
  }

  lemma CopyExtra(z: Zip, extra: seq<byte>)
    requires Onward(z, z, ZS_EXTRA) && Prepared(z) && |extra| == ExtraLen(z.bufs.hdr)
    ensures Onward(z, Copy(z, extra), ZS_FLUSH_HDR) && Prepared(Copy(z, extra))
    ensures Copy(z, extra).bufs.hdr == z.bufs.hdr && Copy(z, extra).bufs.name == z.bufs.name
    ensures Extra(Copy(z, extra).bufs) == extra
  {
    SpliceGrows(z.bufs.extra, 0, extra);
    assert Front(z.bufs.extra, 0) + extra == extra;
  }

  lemma RunExtra(z: Zip, extra: seq<byte>, s: seq<byte>) returns (w: Zip)
    requires Onward(z, z, ZS_EXTRA) && Prepared(z) && HeadOk(z.bufs.hdr, z.bufs.name, extra)
    ensures ZipOk(w) && w.rc == PXE_NONE && w.st == ZS_DATA && w.pos == 0
    ensures w.bufs.hdr == z.bufs.hdr && w.crc == 0 && w.dataBytes == SizeU(z.bufs.hdr)
    ensures w.trace == z.trace + [FileStart(FileOf(z.bufs.hdr, z.bufs.name, extra))]
    ensures Run(z, extra + s) == Run(w, s)
  {
    RunCopy(z, extra, s);
    CopyExtra(z, extra);
    var c := Copy(z, extra);
    FlushWhole(c, extra);
    RunMove(c, s);
    w := Move(c);
  }

  lemma RunData(z: Zip, data: seq<byte>, start: Event, s: seq<byte>, before: seq<Event>) returns (w: Zip)
    requires ZipOk(z) && z.rc == PXE_NONE && z.st == ZS_DATA && z.pos == 0 && Method(z.bufs.hdr) == 0
    requires z.crc == 0 && z.dataBytes == |data| && Crc32(0, data) == HdrCrc(z.bufs.hdr)
    requires z.trace == before + [start] && !start.FileData?
    ensures ZipOk(w) && w.rc == PXE_NONE && w.pos == 0 && w.trace == before + [start, FileData(data)]
    ensures w.bufs.hdr == z.bufs.hdr && w.st == if HasDesc(w.bufs.hdr) then ZS_DATA_DESC else ZS_EOR_FILE
    ensures Run(z, data + s) == Run(w, s)
  {
    RunStore(z, data, s);
    EmitMore(z.trace, before, start, [], data);
    assert [] + data == data;
    RunMove(Store(z, data), s);
    w := Move(Store(z, data));
  }

  lemma RunDesc(z: Zip, desc: seq<byte>, s: seq<byte>) returns (w: Zip)
    requires ZipOk(z) && z.rc == PXE_NONE && z.pos == 0
    requires z.st == if HasDesc(z.bufs.hdr) then ZS_DATA_DESC else ZS_EOR_FILE
    requires |desc| == if HasDesc(z.bufs.hdr) then 12 else 0
    ensures AtRecord(w) && w.trace == z.trace + [FileEnd]
    ensures Run(z, desc + s) == Run(w, s)
  {
    if HasDesc(z.bufs.hdr) {
      RunCopy(z, desc, s);
      RunMove(Copy(z, desc), s);
      w := Move(Copy(z, desc));
    } else {
      assert desc + s == s;
      RunMove(z, s);
      w := Move(z);
    }
  }

  /** The header, the name and the extra field of a member. */
  lemma RunHead(z: Zip, hdr: seq<byte>, name: seq<byte>, extra: seq<byte>, s: seq<byte>) returns (w: Zip)
    requires AtRecord(z) && HeadOk(hdr, name, extra)
    ensures ZipOk(w) && w.rc == PXE_NONE && w.st == ZS_DATA && w.pos == 0
    ensures w.bufs.hdr == hdr && w.crc == 0 && w.dataBytes == SizeU(hdr)
    ensures w.trace == z.trace + [FileStart(FileOf(hdr, name, extra))]
    ensures Run(z, LOCAL_SIG + (hdr + (name + (extra + s)))) == Run(w, s)
  {
    var z1 := RunSig(z, LOCAL_SIG, hdr + (name + (extra + s)));
    var z2 := RunHdr(z1, hdr, name + (extra + s));
    var z3 := RunName(z2, name, extra + s);
    w := RunExtra(z3, extra, s);
  }

  /** The data, and the descriptor if there is one. */
  lemma RunBody(z: Zip, data: seq<byte>, desc: seq<byte>, start: Event, s: seq<byte>, before: seq<Event>)
    returns (w: Zip)
    requires ZipOk(z) && z.rc == PXE_NONE && z.st == ZS_DATA && z.pos == 0 && Method(z.bufs.hdr) == 0
    requires z.crc == 0 && z.dataBytes == |data| && Crc32(0, data) == HdrCrc(z.bufs.hdr)
    requires |desc| == if HasDesc(z.bufs.hdr) then 12 else 0
    requires z.trace == before + [start] && !start.FileData?
    ensures AtRecord(w) && w.trace == before + [start, FileData(data), FileEnd]
    ensures Run(z, data + (desc + s)) == Run(w, s)
  {
    var z1 := RunData(z, data, start, desc + s, before);
    w := RunDesc(z1, desc, s);
    assert before + [start, FileData(data)] + [FileEnd] == before + [start, FileData(data), FileEnd];
  }

  lemma Nested6(a: seq<byte>, b: seq<byte>, c: seq<byte>, d: seq<byte>, e: seq<byte>, f: seq<byte>, s: seq<byte>)
    ensures a + b + c + d + e + f + s == a + (b + (c + (d + (e + (f + s)))))
  {
  }

  lemma RunLocal(z: Zip, r: Rec, s: seq<byte>) returns (w: Zip)
    requires AtRecord(z) && Sound(r) && r.Local?
    ensures AtRecord(w) && w.trace == z.trace + Calls(r) && Run(z, Encode(r) + s) == Run(w, s)
  {
    Nested6(LOCAL_SIG, r.hdr, r.name, r.extra, r.data, r.desc, s);
    var z1 := RunHead(z, r.hdr, r.name, r.extra, r.data + (r.desc + s));
    w := RunBody(z1, r.data, r.desc, FileStart(FileOf(r.hdr, r.name, r.extra)), s, z.trace);
  }

  lemma RunTail(z: Zip, tail: seq<byte>, s: seq<byte>) returns (w: Zip)
    requires ZipOk(z) && z.rc == PXE_NONE && z.st == ZS_SKIP_BYTES && z.skip == |tail|
    ensures AtRecord(w) && w.trace == z.trace && Run(z, tail + s) == Run(w, s)
  {
    RunSkip(z, tail, s);
    RunMove(Skip(z, |tail|), s);
    w := Move(Skip(z, |tail|));
  }

  lemma RunCentral(z: Zip, cdh: seq<byte>, s: seq<byte>) returns (w: Zip)
    requires Onward(z, z, ZS_CENTRAL_DIR) && |cdh| == 42
    ensures ZipOk(w) && w.rc == PXE_NONE && w.st == ZS_SKIP_BYTES && w.skip == CentralTail(cdh) && w.trace == z.trace
    ensures Run(z, cdh + s) == Run(w, s)
  {
    RunCopy(z, cdh, s);
    WholeFill(z.bufs.cdh, cdh);
    RunMove(Copy(z, cdh), s);
    w := Move(Copy(z, cdh));
  }

  lemma RunEnd(z: Zip, ecd: seq<byte>, s: seq<byte>) returns (w: Zip)
    requires Onward(z, z, ZS_END_CENTRAL) && |ecd| == 18
    ensures ZipOk(w) && w.rc == PXE_NONE && w.st == ZS_SKIP_BYTES && w.skip == EndTail(ecd) && w.trace == z.trace
    ensures Run(z, ecd + s) == Run(w, s)
  {
    RunCopy(z, ecd, s);
    WholeFill(z.bufs.ecd, ecd);
    RunMove(Copy(z, ecd), s);
    w := Move(Copy(z, ecd));
  }

  lemma RunDirectory(z: Zip, r: Rec, s: seq<byte>) returns (w: Zip)
    requires AtRecord(z) && Sound(r) && r.Central?
    ensures AtRecord(w) && w.trace == z.trace && Run(z, Encode(r) + s) == Run(w, s)
  {
    Nested(CENTRAL_SIG, r.cdh, r.tail, s);
    var z1 := RunSig(z, CENTRAL_SIG, r.cdh + (r.tail + s));
    var z2 := RunCentral(z1, r.cdh, r.tail + s);
    w := RunTail(z2, r.tail, s);
  }

  lemma RunLast(z: Zip, r: Rec, s: seq<byte>) returns (w: Zip)
    requires AtRecord(z) && Sound(r) && r.EndRec?
    ensures AtRecord(w) && w.trace == z.trace && Run(z, Encode(r) + s) == Run(w, s)
  {
    Nested(END_SIG, r.ecd, r.comment, s);
    var z1 := RunSig(z, END_SIG, r.ecd + (r.comment + s));
    var z2 := RunEnd(z1, r.ecd, r.comment + s);
    w := RunTail(z2, r.comment, s);
  }

  lemma RunOne(z: Zip, r: Rec, s: seq<byte>) returns (w: Zip)
    requires AtRecord(z) && Sound(r)
    ensures AtRecord(w) && w.trace == z.trace + Calls(r) && Run(z, Encode(r) + s) == Run(w, s)
  {
    match r
    case Local(_, _, _, _, _) => w := RunLocal(z, r, s);
    case Central(_, _) => w := RunDirectory(z, r, s); assert z.trace + [] == z.trace;
    case EndRec(_, _) => w := RunLast(z, r, s); assert z.trace + [] == z.trace;
  }

  lemma {:induction false} RunRecords(rs: seq<Rec>, s: seq<byte>) returns (w: Zip)
    requires AllSound(rs)
    ensures AtRecord(w) && w.trace == CallsAll(rs) && Run(START, EncodeAll(rs) + s) == Run(w, s)
    decreases |rs|
  {
    if rs == [] {
      w := START;
      assert EncodeAll(rs) + s == s;
    } else {
      var r := rs[|rs| - 1];
      var z := RunRecords(rs[..|rs| - 1], Encode(r) + s);
      Assoc(EncodeAll(rs[..|rs| - 1]), Encode(r), s);
      w := RunOne(z, r, s);
    }
  }

  /** Every archive made of sound records is read to its end, with the calls of its records. */
  lemma ReadBack(rs: seq<Rec>)
    requires AllSound(rs)
    ensures AtRecord(Run(START, EncodeAll(rs))) && Run(START, EncodeAll(rs)).trace == CallsAll(rs)
  {
    var w := RunRecords(rs, []);
    assert EncodeAll(rs) + [] == EncodeAll(rs);
  }

  /** An archive is read to the end of a record without an error if and only if it is made of sound
      records; the calls are then theirs. */
  lemma Accepted(input: seq<byte>)
    ensures AtRecord(Run(START, input)) <==>
            exists rs :: AllSound(rs) && EncodeAll(rs) == input && Run(START, input).trace == CallsAll(rs)
  {
    if AtRecord(Run(START, input)) {
      var n := Conservation(input);
      AccountSettle(Feed(START, input), input[..n]);
      NoErrorAllRead(START, input);
      assert input[..n] == input;
      BoundaryRecords(Run(START, input), input);
    }
    if rs :| AllSound(rs) && EncodeAll(rs) == input && Run(START, input).trace == CallsAll(rs) {
      ReadBack(rs);
    }
  }

  lemma NoErrorAllRead(z: Zip, input: seq<byte>)
    requires ZipOk(z) && Run(z, input).rc == PXE_NONE
    ensures Feed(z, input).total == z.total + |input|
  {
    FeedTotal(z, input);
  }

  lemma BoundaryRecords(z: Zip, bytes: seq<byte>)
    requires AtRecord(z) && Accounted(z, bytes)
    ensures exists rs :: AllSound(rs) && EncodeAll(rs) == bytes && z.trace == CallsAll(rs)
  {
    var rs, part, d :| Accounts(z, bytes, rs, part, d);
    assert Front(z.bufs.sig, 0) == [] && part == [];
    assert EncodeAll(rs) + [] == EncodeAll(rs);
  }

  // ----- the order of the calls -----

  /** Start, data, end, over and over. */
  ghost predicate Bracketed(t: seq<Event>) {
    forall i {:trigger t[i]} :: 0 <= i < |t| ==>
      if i % 3 == 0 then t[i].FileStart? else if i % 3 == 1 then t[i].FileData? else t[i].FileEnd?
  }

  lemma Brackets(start: Event, data: Event, end: Event)
    requires start.FileStart? && data.FileData? && end.FileEnd?
    ensures Bracketed([]) && Bracketed([start]) && Bracketed([start, data]) && Bracketed([start, data, end])
  {
  }

  lemma OneBracketed(r: Rec)
    ensures (Calls(r) == [] || |Calls(r)| == 3) && Bracketed(Calls(r))
  {
    if r.Local? {
      Brackets(Calls(r)[0], Calls(r)[1], Calls(r)[2]);
    }
  }

  lemma {:induction false} CallsBracketed(rs: seq<Rec>)
    ensures |CallsAll(rs)| % 3 == 0 && Bracketed(CallsAll(rs))
  {
    if rs != [] {
      CallsBracketed(rs[..|rs| - 1]);
      OneBracketed(rs[|rs| - 1]);
      BracketMore(CallsAll(rs[..|rs| - 1]), Calls(rs[|rs| - 1]));
    }
  }

  lemma BracketMore(t: seq<Event>, more: seq<Event>)
    requires |t| % 3 == 0 && Bracketed(t) && Bracketed(more)
    ensures Bracketed(t + more)
  {
    var u := t + more;
    forall i | |t| <= i < |u|
      ensures if i % 3 == 0 then u[i].FileStart? else if i % 3 == 1 then u[i].FileData? else u[i].FileEnd?
    {
      assert u[i] == more[i - |t|] && i % 3 == (i - |t|) % 3;
    }
  }

  /** The calls for the record that the state is inside of. */
  lemma InsideTrace(z: Zip, part: seq<byte>, before: seq<Event>, d: seq<byte>)
    requires Inside(z, part, before, d)
    ensures || z.trace == before
            || z.trace == before + [StartOf(z.bufs)]
            || z.trace == before + [StartOf(z.bufs), FileData(d)]
  {
  }

  lemma InsideCalls(z: Zip, part: seq<byte>, before: seq<Event>, d: seq<byte>) returns (more: seq<Event>)
    requires Inside(z, part, before, d)
    ensures z.trace == before + more && Bracketed(more)
  {
    InsideTrace(z, part, before, d);
    Brackets(StartOf(z.bufs), FileData(d), FileEnd);
    more := [];
    if z.trace == before {
      assert before + [] == before;
    } else if z.trace == before + [StartOf(z.bufs)] {
      more := [StartOf(z.bufs)];
    } else {
      more := [StartOf(z.bufs), FileData(d)];
    }
  }

  /** The calls of any run come in brackets: a start, its data, its end. */
  lemma Grammar(input: seq<byte>)
    ensures Bracketed(Feed(START, input).trace)
  {
    var z := Feed(START, input);
    var n := Conservation(input);
    var rs, part, d :| Accounts(z, input[..n], rs, part, d);
    CallsBracketed(rs);
    var more := InsideCalls(z, part, CallsAll(rs), d);
    BracketMore(CallsAll(rs), more);
  }
}
