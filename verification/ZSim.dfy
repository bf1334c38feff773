/** Dictionary lock-step: the decoder's table is the encoder's, except for at most one entry
    that the decoder can only complete when it sees the next code. */
module ZSim {
  import opened Bits
  import opened ZPack
  import opened ZSpec

  /** The string of a code under the encoder's table etab. */
  function StrIn(etab: seq<seq<byte>>, code: nat): seq<byte>
    requires IsCode(FIRST + |etab|, code)
  {
    if code < 256 then [code] else etab[code - FIRST]
  }

  ghost predicate DictOk(dict: map<Pair, nat>, etab: seq<seq<byte>>) {
    forall k <- dict ::
      && FIRST <= dict[k] < FIRST + |etab|
      && IsCode(FIRST + |etab|, k.0)
      && StrIn(etab, dict[k]) == StrIn(etab, k.0) + [k.1]
  }

  /** The decoder lacks exactly the newest entry: its previous string and the first byte of w. */
  ghost predicate OneBehind(d: Dec, etab: seq<seq<byte>>, w: seq<byte>) {
    && d.prev != [] && w != []
    && FIRST <= d.freeEnt < Pow2(d.maxBits)
    && etab == d.tab + [d.prev + [w[0]]]
  }

  /** Both tables are the same, and the next code will not make the decoder's grow past the encoder's. */
  ghost predicate InStep(d: Dec, etab: seq<seq<byte>>) {
    && etab == d.tab
    && (d.prev == [] || d.freeEnt == 256 || d.freeEnt >= Pow2(d.maxBits))
    && (d.prev == [] ==> d.freeEnt == FIRST)
  }

  /** e is about to extend the string w, the string of its current code; d has seen every code sent. */
  ghost predicate Sim(e: Enc, d: Dec, etab: seq<seq<byte>>, w: seq<byte>) {
    && EncOk(e) && DecOk(d) && e.maxBits == d.maxBits
    && e.freeEnt == FIRST + |etab|
    && (forall i :: 0 <= i < |etab| ==> etab[i] != [])
    && w == StrIn(etab, e.ent)
    && DictOk(e.dict, etab)
    && (InStep(d, etab) || OneBehind(d, etab, w))
    && e.p.w == NextWidth(d)
  }

  lemma SimStart(maxBits: nat, c: byte)
    requires 1 <= maxBits <= BITS
    ensures Sim(EncStart(maxBits, c), DecStart(maxBits), [], [c])
  {
  }

  /** A table hit only makes the current string longer. */
  lemma SimHit(e: Enc, d: Dec, etab: seq<seq<byte>>, w: seq<byte>, c: byte)
    requires Sim(e, d, etab, w) && (e.ent, c) in e.dict
    ensures Sim(EncByte(e, c), d, etab, w + [c]) && EncByte(e, c).p == e.p
  {
  }

  /** The code the encoder sends is legal, and decodes to the encoder's current string, whether
      the decoder knows it or it is the entry still pending. */
  lemma EmitLegal(e: Enc, d: Dec, etab: seq<seq<byte>>, w: seq<byte>)
    requires Sim(e, d, etab, w)
    ensures LegalCode(d, e.ent) && !IsClear(d, e.ent)
    ensures CodeStr(d, e.ent) == w == DecOut(d, e.ent)
  {
    if OneBehind(d, etab, w) && e.ent == d.freeEnt {
      assert d.prev[..1] == [d.prev[0]];
      assert w == d.prev + [w[0]];
      assert w[0] == d.prev[0];
    }
  }

  /** After one code the decoder has caught up with the encoder's table as it was when the code
      was sent, and both sides agree on whether the width changes. */
  lemma EmitCatchUp(e: Enc, d: Dec, etab: seq<seq<byte>>, w: seq<byte>)
    requires Sim(e, d, etab, w)
    requires LegalCode(d, e.ent) && !IsClear(d, e.ent) && CodeStr(d, e.ent) == w
    ensures var d' := DecCode(d, e.ent);
            && d'.tab == etab && d'.prev == w && !d'.clearFlg
            && (d'.freeEnt == e.freeEnt || (d'.freeEnt == 256 && e.freeEnt == FIRST && Pow2(e.maxBits) <= 256))
            && (ForcesRefill(d') <==> e.freeEnt > e.p.w.maxCode)
            && NextWidth(d') == Output(e.maxBits, e.p, e.freeEnt, false, e.ent).w
            && DecOk(d')
  {
    DecCodeOk(d, e.ent);
    WidthMin(e.maxBits, e.p.w);
    assert w[..1] == [w[0]];
  }

  /** Whether a miss in this state ends in a table clear. */
  ghost predicate Clears(e: Enc)
    requires EncOk(e)
  {
    && e.freeEnt >= Pow2(e.maxBits)
    && e.inCount + 1 >= e.checkpoint
    && Ratio(e.inCount + 1, Output(e.maxBits, e.p, e.freeEnt, false, e.ent).bytesOut) <= e.ratio
  }

  /** The encoder's next table and current string after a miss on byte c. */
  function Grown(e: Enc, etab: seq<seq<byte>>, w: seq<byte>, c: byte): seq<seq<byte>> {
    if e.freeEnt < Pow2(e.maxBits) then etab + [w + [c]] else etab
  }

  lemma DictGrows(dict: map<Pair, nat>, etab: seq<seq<byte>>, k: Pair, s: seq<byte>)
    requires DictOk(dict, etab) && IsCode(FIRST + |etab|, k.0)
    requires s == StrIn(etab, k.0) + [k.1]
    ensures DictOk(dict[k := FIRST + |etab|], etab + [s])
  {
  }

  lemma MissShape(e: Enc, c: byte)
    requires EncOk(e) && (e.ent, c) !in e.dict && !Clears(e)
    ensures var m := EncByte(e, c);
            && EncOk(m) && m.maxBits == e.maxBits && m.ent == c
            && m.p == Output(e.maxBits, e.p, e.freeEnt, false, e.ent)
            && (if e.freeEnt < Pow2(e.maxBits) then
                  m.dict == e.dict[(e.ent, c) := e.freeEnt] && m.freeEnt == e.freeEnt + 1
                else m.dict == e.dict && m.freeEnt == e.freeEnt)
  {
  }

  /** A miss that does not clear the table. */
  lemma SimMiss(e: Enc, d: Dec, etab: seq<seq<byte>>, w: seq<byte>, c: byte)
    requires Sim(e, d, etab, w) && (e.ent, c) !in e.dict && !Clears(e)
    requires LegalCode(d, e.ent)
    ensures EncByte(e, c).p == Output(e.maxBits, e.p, e.freeEnt, false, e.ent)
    ensures Sim(EncByte(e, c), DecCode(d, e.ent), Grown(e, etab, w, c), [c])
  {
    EmitLegal(e, d, etab, w);
    EmitCatchUp(e, d, etab, w);
    MissShape(e, c);
    if e.freeEnt < Pow2(e.maxBits) {
      DictGrows(e.dict, etab, (e.ent, c), w + [c]);
      assert OneBehind(DecCode(d, e.ent), Grown(e, etab, w, c), [c]);
    } else {
      assert InStep(DecCode(d, e.ent), etab);
    }
  }

  /** A miss whose block check clears the table: one more code, CLEAR, and both tables are empty. */
  lemma SimClear(e: Enc, d: Dec, etab: seq<seq<byte>>, w: seq<byte>, c: byte)
    requires Sim(e, d, etab, w) && (e.ent, c) !in e.dict && Clears(e)
    requires LegalCode(d, e.ent)
    ensures EncByte(e, c).p == Output(e.maxBits, Output(e.maxBits, e.p, e.freeEnt, false, e.ent), FIRST, true, CLEAR)
    ensures var d' := DecCode(d, e.ent);
            && LegalCode(d', CLEAR) && IsClear(d', CLEAR) && DecOut(d', CLEAR) == []
            && ForcesRefill(DecCode(d', CLEAR))
            && Sim(EncByte(e, c), DecCode(d', CLEAR), [], [c])
  {
    EmitLegal(e, d, etab, w);
    EmitCatchUp(e, d, etab, w);
    DecCodeOk(DecCode(d, e.ent), CLEAR);
  }
}
