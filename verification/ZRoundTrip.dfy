/** The end-to-end law of compress/zopen.cc. */
module ZRoundTrip {
  import opened Bits
  import opened ZPack
  import opened ZSpec
  import opened ZStream
  import opened ZEncode
  import opened ZDecode
  import opened Seqs

  /** A file closed with the final code reads back as the input. */
  lemma ReadFinished(e: Enc, input: seq<byte>)
    requires Tracked(e, input)
    ensures EncOk(e) && ReadBack(Finish(e).file) == Some(input) && WellFormed(Finish(e).file)
  {
    var gs, pending, etab, w :| Tracks(e, gs, pending, etab, w, input);
    gs, pending := TrackEmit(e, gs, pending, etab, w, input);
    ReadFiled(e.maxBits, Output(e.maxBits, e.p, e.freeEnt, false, e.ent), gs, pending);
  }

  /** At the end of the last group the reader finds the end of the file, */
  lemma ReadEmpty(d: Dec, s: Src)
    requires DecOk(d) && SrcOk(d, s) && Refills(d, s) && s.rest == []
    ensures DecodeFrom(d, s) == [] && Decodable(d, s)
  {
  }

  /** or the codes that were pending when it was closed. */
  lemma ReadPending(d: Dec, s: Src, buf: seq<byte>, n: nat, pending: seq<nat>)
    requires DecOk(d) && SrcOk(d, s) && Refills(d, s)
    requires InBuffer(buf, n, pending) && 0 < |pending| < 8 && Flows(d, n, pending)
    requires s.rest == buf[..BytesFor(Offset(n, |pending|))]
    ensures DecodeFrom(d, s) == DOut(d, pending) && Decodable(d, s)
  {
    var s' := ReadTail(d, s, buf, n, pending);
    assert DOut(d, pending) + [] == DOut(d, pending);
  }

  /** What is written at the end. */
  lemma EofFile(maxBits: nat, p: Packer, gs: seq<Group>, pending: seq<nat>) returns (tail: seq<byte>)
    requires 1 <= maxBits <= BITS && Filed(maxBits, p, gs, pending)
    ensures OutputEof(maxBits, p).file == Header(maxBits) + Raw(gs) + tail
    ensures tail == if pending == [] then [] else p.buf[..BytesFor(Offset(p.w.bits, |pending|))]
  {
    OffsetNear(p.w.bits, |pending|);
    tail := if p.offset > 0 then p.buf[..BytesFor(p.offset)] else [];
  }

  /** Whatever the writer has sent comes back once the last group is flushed. */
  lemma ReadFiled(maxBits: nat, p: Packer, gs: seq<Group>, pending: seq<nat>)
    requires 1 <= maxBits <= BITS && Filed(maxBits, p, gs, pending)
    ensures ReadBack(OutputEof(maxBits, p).file) == Some(SeenOut(maxBits, gs, pending))
    ensures WellFormed(OutputEof(maxBits, p).file)
  {
    var d := DRun(DecStart(maxBits), Flat(gs));
    var tail := EofFile(maxBits, p, gs, pending);
    var s := ReadFile(maxBits, gs, tail);
    if pending == [] {
      ReadEmpty(d, s);
    } else {
      ReadPending(d, s, p.buf, p.w.bits, pending);
    }
  }

  /** A file closed without the final code reads back as a proper prefix of the input. */
  lemma ReadUnfinished(e: Enc, input: seq<byte>) returns (t: seq<byte>)
    requires Tracked(e, input)
    ensures ReadBack(e.p.file) == Some(t) && WellFormed(e.p.file)
    ensures t < input
  {
    var gs, pending, etab, w :| Tracks(e, gs, pending, etab, w, input);
    t := DOut(DecStart(e.maxBits), Flat(gs));
    assert t < t + (DOut(DRun(DecStart(e.maxBits), Flat(gs)), pending) + w) == input by {
      Assoc(t, DOut(DRun(DecStart(e.maxBits), Flat(gs)), pending), w);
    }
    ReadGroupsOnly(e.maxBits, e.p.file, gs);
  }

  lemma ReadGroupsOnly(maxBits: nat, file: seq<byte>, gs: seq<Group>)
    requires 1 <= maxBits <= BITS && InFile(maxBits, file, gs)
    ensures ReadBack(file) == Some(DOut(DecStart(maxBits), Flat(gs))) && WellFormed(file)
  {
    assert file == file + [];
    var s := ReadFile(maxBits, gs, []);
    var t := DOut(DecStart(maxBits), Flat(gs));
    assert t + [] == t;
  }

  /** One compress_zwrite call per chunk. */
  function WriteChunks(w: Writer, chunks: seq<seq<byte>>): (w': Writer)
    requires WriterOk(w)
    ensures WriterOk(w')
    decreases |chunks|
  {
    if chunks == [] then w else WriteChunks(Write(w, chunks[0]), chunks[1..])
  }

  lemma {:induction false} ChunksDoNotMatter(w: Writer, chunks: seq<seq<byte>>)
    requires WriterOk(w)
    ensures WriteChunks(w, chunks) == Write(w, Concat(chunks))
    decreases |chunks|
  {
    if chunks != [] {
      ChunksDoNotMatter(Write(w, chunks[0]), chunks[1..]);
      WriteConcat(w, chunks[0], Concat(chunks[1..]));
    }
  }

  /** Round trip, for every input, every cut of it into write calls, every maxbits the opener
      accepts, and whatever the ratio check does: reading the closed file delivers the input
      exactly when there was input and the stream had its mode recorded as 'w'. */
  lemma RoundTrip(maxBits: nat, chunks: seq<seq<byte>>, mode: char)
    requires 1 <= maxBits <= BITS
    ensures var file := Close(WriteChunks(Start(maxBits), chunks), mode);
            && (ReadBack(file) == Some(Concat(chunks)) <==> Concat(chunks) != [] && mode == 'w')
            && (Concat(chunks) != [] ==> WellFormed(file))
  {
    ChunksDoNotMatter(Start(maxBits), chunks);
    var input := Concat(chunks);
    if input != [] {
      var e := TrackRun(maxBits, input);
      if mode == 'w' {
        ReadFinished(e, input);
      } else {
        var t := ReadUnfinished(e, input);
      }
    }
  }

  /** compress_zopen never records the mode (compress/zopen.cc:694-720), so zs_mode is 0 when
      compress_zclose tests it: the one-byte input "A" is lost. */
  lemma ModeNeverRecorded()
    ensures Close(Write(Start(16), [65]), '\0') == [0x1F, 0x9D, 0x90]
    ensures ReadBack([0x1F, 0x9D, 0x90]) == Some([])
  {
    assert EncAll(EncStart(16, 65), [65][1..]) == EncStart(16, 65);
  }
}
