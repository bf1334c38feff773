/** The byte stream: codes travel in groups of at most eight of one width, and the reader finds
    the same groups the writer made, because both change width at the same code. */
module ZStream {
  import opened Bits
  import opened ZPack
  import opened ZSpec
  import opened Seqs

  /** Codes that share a buffer, and the bytes that buffer put in the file. */
  datatype Group = Group(width: nat, codes: seq<nat>, bytes: seq<byte>)

  /** The low bits of bytes spell the codes; bits above them may be anything. */
  ghost predicate Spells(bytes: seq<byte>, width: nat, codes: seq<nat>) {
    && 9 <= width <= BITS
    && CodesFit(codes, width)
    && Offset(width, |codes|) <= 8 * |bytes|
    && Low(LE(bytes), Offset(width, |codes|)) == Val(codes, width)
  }

  ghost predicate GroupOk(g: Group) {
    && 1 <= |g.codes| <= 8
    && |g.bytes| <= g.width
    && Spells(g.bytes, g.width, g.codes)
  }

  function Flat(gs: seq<Group>): seq<nat> {
    if gs == [] then [] else gs[0].codes + Flat(gs[1..])
  }

  function Raw(gs: seq<Group>): seq<byte> {
    if gs == [] then [] else gs[0].bytes + Raw(gs[1..])
  }

  ghost predicate LegalRun(d: Dec, codes: seq<nat>)
    decreases |codes|
  {
    codes == [] || (LegalCode(d, codes[0]) && LegalRun(DecCode(d, codes[0]), codes[1..]))
  }

  ghost function DRun(d: Dec, codes: seq<nat>): Dec
    decreases |codes|
  {
    if codes == [] then d else DRun(DecCode(d, codes[0]), codes[1..])
  }

  /** What a decoder in state d makes of the codes. */
  ghost function DOut(d: Dec, codes: seq<nat>): seq<byte>
    decreases |codes|
  {
    if codes == [] then [] else DecOut(d, codes[0]) + DOut(DecCode(d, codes[0]), codes[1..])
  }

  /** A decoder in state d reads all the codes without looking for a new group in between. */
  ghost predicate Together(d: Dec, codes: seq<nat>)
    decreases |codes|
  {
    |codes| > 1 ==> !ForcesRefill(DecCode(d, codes[0])) && Together(DecCode(d, codes[0]), codes[1..])
  }

  /** A group the reader leaves of its own accord: it is full, or the next code needs a refill. */
  ghost predicate Closed(d: Dec, g: Group)
  {
    && GroupOk(g) && g.width == NextWidth(d).bits
    && LegalRun(d, g.codes) && Together(d, g.codes)
    && |g.bytes| == g.width
    && (|g.codes| == 8 || ForcesRefill(DRun(d, g.codes)))
  }

  ghost predicate Sched(d: Dec, gs: seq<Group>)
    decreases |gs|
  {
    gs == [] || (Closed(d, gs[0]) && Sched(DRun(d, gs[0].codes), gs[1..]))
  }

  // ----- concatenation laws -----

  lemma Reassoc<T>(a: seq<T>, b: seq<T>)
    requires a != []
    ensures a + b == [a[0]] + (a[1..] + b)
  {
  }

  lemma RunCons(d: Dec, c: nat, cs: seq<nat>)
    ensures LegalRun(d, [c] + cs) <==> LegalCode(d, c) && LegalRun(DecCode(d, c), cs)
    ensures DRun(d, [c] + cs) == DRun(DecCode(d, c), cs)
    ensures DOut(d, [c] + cs) == DecOut(d, c) + DOut(DecCode(d, c), cs)
  {
    assert ([c] + cs)[0] == c && ([c] + cs)[1..] == cs;
  }

  lemma {:induction false} RunConcat(d: Dec, a: seq<nat>, b: seq<nat>)
    ensures LegalRun(d, a + b) <==> LegalRun(d, a) && LegalRun(DRun(d, a), b)
    ensures DRun(d, a + b) == DRun(DRun(d, a), b)
    ensures DOut(d, a + b) == DOut(d, a) + DOut(DRun(d, a), b)
    decreases |a|
  {
    if a == [] {
      assert a + b == b;
    } else {
      Reassoc(a, b);
      RunConcat(DecCode(d, a[0]), a[1..], b);
      RunCons(d, a[0], a[1..] + b);
    }
  }

  lemma RunOne(d: Dec, c: nat)
    ensures LegalCode(d, c) <==> LegalRun(d, [c])
    ensures DRun(d, [c]) == DecCode(d, c) && DOut(d, [c]) == DecOut(d, c)
  {
    assert [c][1..] == [];
  }

  lemma {:induction false} TogetherSnoc(d: Dec, a: seq<nat>, c: nat)
    requires LegalRun(d, a) && Together(d, a)
    requires LegalCode(DRun(d, a), c)
    requires a != [] ==> !ForcesRefill(DRun(d, a))
    ensures LegalRun(d, a + [c]) && Together(d, a + [c])
    decreases |a|
  {
    RunOne(DRun(d, a), c);
    RunConcat(d, a, [c]);
    if a != [] {
      assert (a + [c])[1..] == a[1..] + [c];
      TogetherSnoc(DecCode(d, a[0]), a[1..], c);
    }
  }

  lemma {:induction false} SchedRun(d: Dec, gs: seq<Group>)
    requires Sched(d, gs)
    ensures LegalRun(d, Flat(gs))
    decreases |gs|
  {
    if gs != [] {
      SchedRun(DRun(d, gs[0].codes), gs[1..]);
      RunConcat(d, gs[0].codes, Flat(gs[1..]));
    }
  }

  lemma {:induction false} FlatSnoc(gs: seq<Group>, g: Group)
    ensures Flat(gs + [g]) == Flat(gs) + g.codes && Raw(gs + [g]) == Raw(gs) + g.bytes
    decreases |gs|
  {
    if gs == [] {
      assert gs + [g] == [g] && [g][1..] == [];
    } else {
      assert (gs + [g])[1..] == gs[1..] + [g];
      FlatSnoc(gs[1..], g);
    }
  }

  lemma SchedCons(d: Dec, g: Group, gs: seq<Group>)
    requires Closed(d, g) && Sched(DRun(d, g.codes), gs)
    ensures Sched(d, [g] + gs)
  {
    assert ([g] + gs)[0] == g && ([g] + gs)[1..] == gs;
  }

  lemma SchedUncons(d: Dec, gs: seq<Group>)
    requires Sched(d, gs) && gs != []
    ensures Closed(d, gs[0]) && Sched(DRun(d, gs[0].codes), gs[1..])
    ensures LegalRun(DRun(d, gs[0].codes), Flat(gs[1..]))
    ensures LegalRun(d, Flat(gs)) && DRun(d, Flat(gs)) == DRun(DRun(d, gs[0].codes), Flat(gs[1..]))
  {
    SchedRun(DRun(d, gs[0].codes), gs[1..]);
    RunConcat(d, gs[0].codes, Flat(gs[1..]));
  }

  lemma {:induction false} SchedSnoc(d: Dec, gs: seq<Group>, g: Group)
    requires Sched(d, gs) && LegalRun(d, Flat(gs))
    requires Closed(DRun(d, Flat(gs)), g)
    ensures Sched(d, gs + [g])
    decreases |gs|
  {
    if gs == [] {
      SchedCons(d, g, []);
      assert gs + [g] == [g] + [];
    } else {
      Reassoc(gs, [g]);
      SchedUncons(d, gs);
      SchedSnoc(DRun(d, gs[0].codes), gs[1..], g);
      SchedCons(d, gs[0], gs[1..] + [g]);
    }
  }

  // ----- the writer's side -----

  /** The groups gs are in the file, after the header. */
  ghost predicate InFile(maxBits: nat, file: seq<byte>, gs: seq<Group>)
    requires maxBits <= BITS
  {
    file == Header(maxBits) + Raw(gs) && Sched(DecStart(maxBits), gs) && LegalRun(DecStart(maxBits), Flat(gs))
  }

  /** The codes pending are in the buffer. */
  ghost predicate InBuffer(buf: seq<byte>, n: nat, pending: seq<nat>) {
    && |buf| == BITS && 9 <= n <= BITS && |pending| <= 8
    && CodesFit(pending, n)
    && LE(buf[..BytesFor(Offset(n, |pending|))]) == Val(pending, n)
  }

  /** A decoder in state d would read the codes pending from one buffer of width n. */
  ghost predicate Flows(d: Dec, n: nat, pending: seq<nat>) {
    && LegalRun(d, pending) && Together(d, pending)
    && (pending != [] ==> n == NextWidth(d).bits)
  }

  /** The writer has filed the groups gs and holds the codes pending in its buffer. */
  ghost predicate Filed(maxBits: nat, p: Packer, gs: seq<Group>, pending: seq<nat>)
    requires maxBits <= BITS
  {
    && PackerOk(maxBits, p)
    && InFile(maxBits, p.file, gs)
    && |pending| < 8 && p.offset == Offset(p.w.bits, |pending|)
    && InBuffer(p.buf, p.w.bits, pending)
    && Flows(DRun(DecStart(maxBits), Flat(gs)), p.w.bits, pending)
    && (pending != [] ==> !ForcesRefill(Seen(maxBits, gs, pending)))
  }

  /** The decoder after everything sent so far. */
  ghost function Seen(maxBits: nat, gs: seq<Group>, pending: seq<nat>): Dec {
    DRun(DRun(DecStart(maxBits), Flat(gs)), pending)
  }

  /** What the decoder has produced from everything sent so far. */
  ghost function SeenOut(maxBits: nat, gs: seq<Group>, pending: seq<nat>): seq<byte> {
    DOut(DecStart(maxBits), Flat(gs)) + DOut(DRun(DecStart(maxBits), Flat(gs)), pending)
  }

  lemma FiledStart(maxBits: nat, c: byte)
    requires 1 <= maxBits <= BITS
    ensures Filed(maxBits, EncStart(maxBits, c).p, [], [])
    ensures Seen(maxBits, [], []) == DecStart(maxBits) && SeenOut(maxBits, [], []) == []
  {
  }

  /** Bytes whose prefix spells the codes spell them too. */
  lemma SpellsPrefix(bytes: seq<byte>, m: nat, width: nat, codes: seq<nat>)
    requires 9 <= width <= BITS && CodesFit(codes, width)
    requires Offset(width, |codes|) <= 8 * m && m <= |bytes|
    requires Low(LE(bytes[..m]), Offset(width, |codes|)) == Val(codes, width)
    ensures Spells(bytes, width, codes)
  {
    LESplit(bytes, m);
    var o := Offset(width, |codes|);
    assert o + (8 * m - o) == 8 * m;
    CatCut(LE(bytes[..m]), o, 8 * m - o, LE(bytes[m..]));
  }

  lemma BufSpells(buf: seq<byte>, n: nat, width: nat, codes: seq<nat>)
    requires 9 <= width <= BITS && CodesFit(codes, width)
    requires BytesFor(Offset(width, |codes|)) <= n <= |buf|
    requires LE(buf[..BytesFor(Offset(width, |codes|))]) == Val(codes, width)
    ensures Spells(buf[..n], width, codes)
  {
    var o := Offset(width, |codes|);
    var m := BytesFor(o);
    ValBound(codes, width);
    LowFits(Val(codes, width), o);
    assert buf[..n][..m] == buf[..m];
    SpellsPrefix(buf[..n], m, width, codes);
  }

  lemma OffsetNear(n: nat, k: nat)
    requires k <= 8
    ensures Offset(n, 1) == n && Offset(n, k) <= 8 * n && (k < 8 ==> Offset(n, k) + n == Offset(n, k + 1) <= 8 * n)
    ensures Offset(n, 8) == 8 * n && (k < 7 ==> Offset(n, k) + n <= 7 * n)
  {
  }

  // The next lemmas have implications where a requires clause would do: a caller then meets the
  // condition as one fact instead of conjunct by conjunct.

  /** Storing a code: the buffer spells one more. */
  lemma BufferPut(buf: seq<byte>, n: nat, pending: seq<nat>, code: nat)
    ensures InBuffer(buf, n, pending) && |pending| < 8 && code < Pow2(n) ==>
              && Offset(n, |pending|) + n <= 8 * BITS
              && InBuffer(PutBits(buf, Offset(n, |pending|), n, code), n, pending + [code])
  {
    if InBuffer(buf, n, pending) && |pending| < 8 && code < Pow2(n) {
      OffsetNear(n, |pending|);
      ValBound(pending, n);
      BufferGrows(buf, n, pending, code, Offset(n, |pending|));
    }
  }

  lemma BufferGrows(buf: seq<byte>, n: nat, pending: seq<nat>, code: nat, r: nat)
    requires InBuffer(buf, n, pending) && |pending| < 8 && code < Pow2(n) && r == Offset(n, |pending|)
    requires r + n <= 8 * BITS && r + n == Offset(n, |pending| + 1) && Val(pending, n) < Pow2(r)
    ensures InBuffer(PutBits(buf, r, n, code), n, pending + [code])
  {
    PutBitsVal(buf, r, n, code);
    ValSnoc(pending, n, code);
    assert |pending + [code]| == |pending| + 1;
  }

  /** One more code after those already seen. */
  lemma SeeOne(maxBits: nat, gs: seq<Group>, pending: seq<nat>, code: nat)
    ensures Seen(maxBits, gs, pending + [code]) == DecCode(Seen(maxBits, gs, pending), code)
    ensures SeenOut(maxBits, gs, pending + [code])
         == SeenOut(maxBits, gs, pending) + DecOut(Seen(maxBits, gs, pending), code)
  {
    RunOne(Seen(maxBits, gs, pending), code);
    RunConcat(DRun(DecStart(maxBits), Flat(gs)), pending, [code]);
  }

  lemma FlowPut(d: Dec, n: nat, pending: seq<nat>, code: nat)
    ensures && Flows(d, n, pending) && LegalCode(DRun(d, pending), code)
            && (if pending == [] then n == NextWidth(d).bits else !ForcesRefill(DRun(d, pending)))
            ==> Flows(d, n, pending + [code])
  {
    if && Flows(d, n, pending) && LegalCode(DRun(d, pending), code)
       && (pending != [] ==> !ForcesRefill(DRun(d, pending))) {
      TogetherSnoc(d, pending, code);
    }
  }

  /** The codes of the buffer make a group of their own. */
  lemma BufferGroup(d: Dec, buf: seq<byte>, n: nat, codes: seq<nat>)
    ensures && InBuffer(buf, n, codes) && codes != [] && Flows(d, n, codes)
            && (|codes| == 8 || ForcesRefill(DRun(d, codes)))
            ==> Closed(d, Group(n, codes, buf[..n]))
  {
    if InBuffer(buf, n, codes) && codes != [] && Flows(d, n, codes) {
      OffsetNear(n, |codes|);
      BufSpells(buf, n, n, codes);
    }
  }

  lemma FileGroup(maxBits: nat, file: seq<byte>, gs: seq<Group>, g: Group)
    requires maxBits <= BITS
    ensures InFile(maxBits, file, gs) && Closed(DRun(DecStart(maxBits), Flat(gs)), g) ==>
              && InFile(maxBits, file + g.bytes, gs + [g])
              && Seen(maxBits, gs + [g], []) == Seen(maxBits, gs, g.codes)
              && SeenOut(maxBits, gs + [g], []) == SeenOut(maxBits, gs, g.codes)
  {
    if InFile(maxBits, file, gs) && Closed(DRun(DecStart(maxBits), Flat(gs)), g) {
      SchedSnoc(DecStart(maxBits), gs, g);
      FlatSnoc(gs, g);
      RunConcat(DecStart(maxBits), Flat(gs), g.codes);
      Assoc(Header(maxBits), Raw(gs), g.bytes);
    }
  }

  /** Output either writes the buffer out or just keeps the code in it. */
  lemma OutputShape(maxBits: nat, p: Packer, freeEnt: nat, clear: bool, code: nat)
    ensures PackerOk(maxBits, p) && freeEnt <= CodeLimit(maxBits) ==>
            var n := p.w.bits;
            var buf := PutBits(p.buf, p.offset, n, code);
            var q := Output(maxBits, p, freeEnt, clear, code);
            if p.offset + n == 8 * n || clear || freeEnt > p.w.maxCode then
              q.file == p.file + buf[..n] && q.offset == 0 && q.buf == buf
            else
              q == p.(buf := buf, offset := p.offset + n)
  {
  }

  /** The writer may send this code: it is legal, fits, and both sides agree on whether the width
      changes after it. */
  ghost predicate CanPut(maxBits: nat, p: Packer, gs: seq<Group>, pending: seq<nat>, freeEnt: nat, clear: bool,
                         code: nat)
    requires maxBits <= BITS
  {
    && Filed(maxBits, p, gs, pending) && freeEnt <= CodeLimit(maxBits)
    && p.w == NextWidth(Seen(maxBits, gs, pending))
    && LegalCode(Seen(maxBits, gs, pending), code) && code < Pow2(p.w.bits)
    && ((clear || freeEnt > p.w.maxCode) <==> ForcesRefill(DecCode(Seen(maxBits, gs, pending), code)))
  }

  lemma FiledGrown(maxBits: nat, p: Packer, q: Packer, gs: seq<Group>, pending: seq<nat>, code: nat)
    requires maxBits <= BITS && Filed(maxBits, p, gs, pending) && |pending| < 7
    requires PackerOk(maxBits, q) && q.w == p.w && q.file == p.file && q.offset == Offset(p.w.bits, |pending| + 1)
    requires InBuffer(q.buf, p.w.bits, pending + [code])
    requires Flows(DRun(DecStart(maxBits), Flat(gs)), p.w.bits, pending + [code])
    requires !ForcesRefill(Seen(maxBits, gs, pending + [code]))
    ensures Filed(maxBits, q, gs, pending + [code])
  {
  }

  lemma OutputHeld(maxBits: nat, p: Packer, freeEnt: nat, pending: seq<nat>, code: nat)
    requires PackerOk(maxBits, p) && freeEnt <= CodeLimit(maxBits) && freeEnt <= p.w.maxCode
    requires |pending| < 7 && p.offset == Offset(p.w.bits, |pending|)
    ensures var n := p.w.bits;
            Output(maxBits, p, freeEnt, false, code)
            == p.(buf := PutBits(p.buf, p.offset, n, code), offset := Offset(n, |pending| + 1))
  {
    OffsetNear(p.w.bits, |pending|);
    OutputShape(maxBits, p, freeEnt, false, code);
  }

  /** The code stays in the buffer. */
  lemma FiledHeld(maxBits: nat, p: Packer, gs: seq<Group>, pending: seq<nat>, freeEnt: nat, code: nat)
    requires maxBits <= BITS && CanPut(maxBits, p, gs, pending, freeEnt, false, code)
    requires |pending| < 7 && freeEnt <= p.w.maxCode
    ensures Filed(maxBits, Output(maxBits, p, freeEnt, false, code), gs, pending + [code])
  {
    OutputHeld(maxBits, p, freeEnt, pending, code);
    BufferPut(p.buf, p.w.bits, pending, code);
    FlowPut(DRun(DecStart(maxBits), Flat(gs)), p.w.bits, pending, code);
    SeeOne(maxBits, gs, pending, code);
    FiledGrown(maxBits, p, Output(maxBits, p, freeEnt, false, code), gs, pending, code);
  }

  lemma FiledEmpty(maxBits: nat, p: Packer, gs: seq<Group>)
    requires maxBits <= BITS
    ensures PackerOk(maxBits, p) && InFile(maxBits, p.file, gs) && p.offset == 0 ==> Filed(maxBits, p, gs, [])
  {
    if PackerOk(maxBits, p) {
      WidthMin(maxBits, p.w);
    }
  }

  /** The code completes a buffer, and the buffer becomes a group of the file. */
  lemma FiledOut(maxBits: nat, p: Packer, gs: seq<Group>, pending: seq<nat>, freeEnt: nat, clear: bool, code: nat)
    returns (gs': seq<Group>)
    requires maxBits <= BITS
    ensures && CanPut(maxBits, p, gs, pending, freeEnt, clear, code)
            && (|pending| == 7 || clear || freeEnt > p.w.maxCode) ==>
              && Filed(maxBits, Output(maxBits, p, freeEnt, clear, code), gs', [])
              && Seen(maxBits, gs', []) == Seen(maxBits, gs, pending + [code])
              && SeenOut(maxBits, gs', []) == SeenOut(maxBits, gs, pending + [code])
  {
    gs' := gs;
    if CanPut(maxBits, p, gs, pending, freeEnt, clear, code) && (|pending| == 7 || clear || freeEnt > p.w.maxCode) {
      var n, codes, d := p.w.bits, pending + [code], DRun(DecStart(maxBits), Flat(gs));
      SeeOne(maxBits, gs, pending, code);
      FlowPut(d, n, pending, code);
      BufferPut(p.buf, n, pending, code);
      var g := Group(n, codes, PutBits(p.buf, p.offset, n, code)[..n]);
      BufferGroup(d, PutBits(p.buf, p.offset, n, code), n, codes);
      FileGroup(maxBits, p.file, gs, g);
      gs' := gs + [g];
      OutputShape(maxBits, p, freeEnt, clear, code);
      OffsetNear(n, |pending|);
      FiledEmpty(maxBits, Output(maxBits, p, freeEnt, clear, code), gs');
    }
  }

  /** Sending a code files it. */
  lemma FiledPut(maxBits: nat, p: Packer, gs: seq<Group>, pending: seq<nat>, freeEnt: nat, clear: bool, code: nat)
    returns (gs': seq<Group>, pending': seq<nat>)
    requires maxBits <= BITS && CanPut(maxBits, p, gs, pending, freeEnt, clear, code)
    ensures Filed(maxBits, Output(maxBits, p, freeEnt, clear, code), gs', pending')
    ensures Seen(maxBits, gs', pending') == DecCode(Seen(maxBits, gs, pending), code)
    ensures SeenOut(maxBits, gs', pending')
         == SeenOut(maxBits, gs, pending) + DecOut(Seen(maxBits, gs, pending), code)
  {
    SeeOne(maxBits, gs, pending, code);
    if |pending| == 7 || clear || freeEnt > p.w.maxCode {
      gs' := FiledOut(maxBits, p, gs, pending, freeEnt, clear, code);
      pending' := [];
    } else {
      FiledHeld(maxBits, p, gs, pending, freeEnt, code);
      gs', pending' := gs, pending + [code];
    }
  }
}
