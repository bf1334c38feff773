/** Whole runs of the writer: whatever the input and wherever the ratio check clears the table,
    what the codes sent so far decode to, plus the string being built, is the input so far. */
module ZEncode {
  import opened Bits
  import opened ZPack
  import opened ZSpec
  import opened ZSim
  import opened ZStream
  import opened Seqs

  /** gs and pending are the codes sent, etab the string table, w the string of the current code. */
  ghost predicate Tracks(e: Enc, gs: seq<Group>, pending: seq<nat>, etab: seq<seq<byte>>, w: seq<byte>,
                         input: seq<byte>)
  {
    && 1 <= e.maxBits <= BITS
    && Sim(e, Seen(e.maxBits, gs, pending), etab, w)
    && Filed(e.maxBits, e.p, gs, pending)
    && SeenOut(e.maxBits, gs, pending) + w == input
  }

  ghost predicate Tracked(e: Enc, input: seq<byte>) {
    exists gs, pending, etab, w :: Tracks(e, gs, pending, etab, w, input)
  }

  lemma TrackStart(maxBits: nat, c: byte)
    requires 1 <= maxBits <= BITS
    ensures Tracked(EncStart(maxBits, c), [c])
  {
    SimStart(maxBits, c);
    FiledStart(maxBits, c);
    assert Tracks(EncStart(maxBits, c), [], [], [], [c], [c]);
  }

  /** The current code may be sent, and once it is, everything consumed has been sent. */
  lemma TrackEmit(e: Enc, gs: seq<Group>, pending: seq<nat>, etab: seq<seq<byte>>, w: seq<byte>, input: seq<byte>)
    returns (gs': seq<Group>, pending': seq<nat>)
    requires Tracks(e, gs, pending, etab, w, input)
    ensures LegalCode(Seen(e.maxBits, gs, pending), e.ent)
    ensures Filed(e.maxBits, Output(e.maxBits, e.p, e.freeEnt, false, e.ent), gs', pending')
    ensures Seen(e.maxBits, gs', pending') == DecCode(Seen(e.maxBits, gs, pending), e.ent)
    ensures SeenOut(e.maxBits, gs', pending') == input
  {
    var d := Seen(e.maxBits, gs, pending);
    EmitLegal(e, d, etab, w);
    EmitCatchUp(e, d, etab, w);
    EntFits(e, d, etab, w);
    assert CanPut(e.maxBits, e.p, gs, pending, e.freeEnt, false, e.ent);
    gs', pending' := FiledPut(e.maxBits, e.p, gs, pending, e.freeEnt, false, e.ent);
  }

  /** The current code fits the current width. */
  lemma EntFits(e: Enc, d: Dec, etab: seq<seq<byte>>, w: seq<byte>)
    requires Sim(e, d, etab, w)
    ensures e.ent < Pow2(e.p.w.bits)
  {
    CodeFits(e.maxBits, e.p.w, e.freeEnt, e.ent);
  }

  /** A miss: the code goes out, and the new string is the byte c. */
  lemma TrackMiss(e: Enc, c: byte, gs: seq<Group>, pending: seq<nat>, etab: seq<seq<byte>>, w: seq<byte>,
                  input: seq<byte>)
    requires Tracks(e, gs, pending, etab, w, input) && (e.ent, c) !in e.dict && !Clears(e)
    ensures Tracked(EncByte(e, c), input + [c])
  {
    var d := Seen(e.maxBits, gs, pending);
    var gs', pending' := TrackEmit(e, gs, pending, etab, w, input);
    SimMiss(e, d, etab, w, c);
    TrackJoin(EncByte(e, c), gs', pending', Grown(e, etab, w, c), [c], input);
  }

  /** A miss that clears: CLEAR goes out too, and both tables start over. */
  lemma TrackMissClear(e: Enc, c: byte, gs: seq<Group>, pending: seq<nat>, etab: seq<seq<byte>>, w: seq<byte>,
                       input: seq<byte>)
    requires Tracks(e, gs, pending, etab, w, input) && (e.ent, c) !in e.dict && Clears(e)
    ensures Tracked(EncByte(e, c), input + [c])
  {
    var d := Seen(e.maxBits, gs, pending);
    var gs', pending' := TrackEmit(e, gs, pending, etab, w, input);
    SimClear(e, d, etab, w, c);
    EmitLegal(e, d, etab, w);
    EmitCatchUp(e, d, etab, w);
    gs', pending' := TrackClear(e, d, gs', pending', c);
    TrackJoin(EncByte(e, c), gs', pending', [], [c], input);
  }

  lemma TrackJoin(e: Enc, gs: seq<Group>, pending: seq<nat>, etab: seq<seq<byte>>, w: seq<byte>, input: seq<byte>)
    ensures && 1 <= e.maxBits <= BITS && Sim(e, Seen(e.maxBits, gs, pending), etab, w)
            && Filed(e.maxBits, e.p, gs, pending) && SeenOut(e.maxBits, gs, pending) == input
            ==> Tracked(e, input + w)
  {
    if 1 <= e.maxBits <= BITS && Sim(e, Seen(e.maxBits, gs, pending), etab, w)
       && Filed(e.maxBits, e.p, gs, pending) && SeenOut(e.maxBits, gs, pending) == input {
      assert Tracks(e, gs, pending, etab, w, input + w);
    }
  }

  /** After the code, CLEAR goes out as well. */
  lemma TrackClear(e: Enc, d: Dec, gs: seq<Group>, pending: seq<nat>, c: byte)
    returns (gs': seq<Group>, pending': seq<nat>)
    requires 1 <= e.maxBits <= BITS && EncOk(e)
    requires var p := Output(e.maxBits, e.p, e.freeEnt, false, e.ent);
             && Filed(e.maxBits, p, gs, pending) && Seen(e.maxBits, gs, pending) == DecCode(d, e.ent)
             && p.w == NextWidth(DecCode(d, e.ent))
    requires LegalCode(DecCode(d, e.ent), CLEAR) && IsClear(DecCode(d, e.ent), CLEAR)
    requires ForcesRefill(DecCode(DecCode(d, e.ent), CLEAR))
    ensures var p := Output(e.maxBits, Output(e.maxBits, e.p, e.freeEnt, false, e.ent), FIRST, true, CLEAR);
            Filed(e.maxBits, p, gs', pending')
    ensures Seen(e.maxBits, gs', pending') == DecCode(DecCode(d, e.ent), CLEAR)
    ensures SeenOut(e.maxBits, gs', pending') == SeenOut(e.maxBits, gs, pending)
  {
    var p := Output(e.maxBits, e.p, e.freeEnt, false, e.ent);
    WidthMin(e.maxBits, p.w);
    SmallPowers();
    Pow2Mono(9, p.w.bits);
    assert CanPut(e.maxBits, p, gs, pending, FIRST, true, CLEAR);
    gs', pending' := FiledPut(e.maxBits, p, gs, pending, FIRST, true, CLEAR);
  }

  lemma TrackByte(e: Enc, c: byte, input: seq<byte>)
    requires Tracked(e, input)
    ensures EncOk(e) && Tracked(EncByte(e, c), input + [c])
  {
    var gs, pending, etab, w :| Tracks(e, gs, pending, etab, w, input);
    if (e.ent, c) in e.dict {
      SimHit(e, Seen(e.maxBits, gs, pending), etab, w, c);
      Assoc(SeenOut(e.maxBits, gs, pending), w, [c]);
      assert Tracks(EncByte(e, c), gs, pending, etab, w + [c], input + [c]);
    } else if Clears(e) {
      TrackMissClear(e, c, gs, pending, etab, w, input);
    } else {
      TrackMiss(e, c, gs, pending, etab, w, input);
    }
  }

  lemma {:induction false} TrackAll(e: Enc, s: seq<byte>, input: seq<byte>)
    requires Tracked(e, input)
    ensures EncOk(e) && Tracked(EncAll(e, s), input + s)
    decreases |s|
  {
    if s == [] {
      assert input + [] == input;
    } else {
      assert input + [s[0]] + s[1..] == input + s;
      TrackByte(e, s[0], input);
      TrackAll(EncByte(e, s[0]), s[1..], input + [s[0]]);
    }
  }

  /** Every run of the writer from the start. */
  lemma TrackRun(maxBits: nat, s: seq<byte>) returns (e: Enc)
    requires 1 <= maxBits <= BITS && s != []
    ensures Write(Start(maxBits), s) == Middle(e) && EncOk(e) && e.maxBits == maxBits
    ensures Tracked(e, s)
  {
    assert [s[0]] + s[1..] == s;
    var e0 := EncStart(maxBits, s[0]);
    e := EncAll(e0, s[1..]);
    MaxBitsFixed(e0, s[1..]);
    assert Tracked(e, s) by {
      TrackStart(maxBits, s[0]);
      TrackAll(e0, s[1..], [s[0]]);
    }
  }

  lemma {:induction false} MaxBitsFixed(e: Enc, s: seq<byte>)
    requires EncOk(e)
    ensures EncAll(e, s).maxBits == e.maxBits
    decreases |s|
  {
    if s != [] {
      MaxBitsFixed(EncByte(e, s[0]), s[1..]);
    }
  }

  /** Cutting the input into several writes makes no difference. */
  lemma {:induction false} WriteConcat(w: Writer, a: seq<byte>, b: seq<byte>)
    requires WriterOk(w)
    ensures Write(Write(w, a), b) == Write(w, a + b)
  {
    if a == [] {
      assert a + b == b;
    } else {
      match w
      case Start(maxBits) =>
        assert (a + b)[1..] == a[1..] + b;
        EncAllConcat(EncStart(maxBits, a[0]), a[1..], b);
      case Middle(e) =>
        EncAllConcat(e, a, b);
    }
    if b == [] {
      assert a + b == a;
    }
  }

  lemma {:induction false} EncAllConcat(e: Enc, a: seq<byte>, b: seq<byte>)
    requires EncOk(e)
    ensures EncAll(EncAll(e, a), b) == EncAll(e, a + b)
    decreases |a|
  {
    if a == [] {
      assert a + b == b;
    } else {
      assert (a + b)[1..] == a[1..] + b;
      EncAllConcat(EncByte(e, a[0]), a[1..], b);
    }
  }
}
