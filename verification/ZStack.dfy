/** How high the output stack of compress_zread can get (compress/zopen.cc:183-197, :524-535). */
module ZStack {
  import opened Bits
  import opened ZPack
  import opened ZSpec
  import opened ZStream
  import ZHash

  /** The string of the i-th entry has at most i + 2 bytes. */
  ghost predicate Short(d: Dec) {
    && (forall i :: 0 <= i < |d.tab| ==> |d.tab[i]| <= i + 2)
    && (d.freeEnt >= FIRST ==> |d.prev| <= |d.tab| + 1)
  }

  lemma ShortStep(d: Dec, code: nat)
    requires DecOk(d) && LegalCode(d, code) && Short(d)
    ensures Short(DecCode(d, code))
  {
    DecCodeOk(d, code);
  }

  lemma {:induction false} ShortRun(d: Dec, codes: seq<nat>)
    requires DecOk(d) && LegalRun(d, codes) && Short(d)
    ensures DecOk(DRun(d, codes)) && Short(DRun(d, codes))
    decreases |codes|
  {
    if codes != [] {
      DecCodeOk(d, codes[0]);
      ShortStep(d, codes[0]);
      ShortRun(DecCode(d, codes[0]), codes[1..]);
    }
  }

  lemma {:induction false} RunKeepsMaxBits(d: Dec, codes: seq<nat>)
    ensures DRun(d, codes).maxBits == d.maxBits
    decreases |codes|
  {
    if codes != [] {
      RunKeepsMaxBits(DecCode(d, codes[0]), codes[1..]);
    }
  }

  /** A legal code stands for one byte, for an entry, or for the entry about to be made. */
  lemma OutShort(d: Dec, code: nat)
    requires DecOk(d) && LegalCode(d, code) && Short(d)
    ensures |DecOut(d, code)| <= 1 || |DecOut(d, code)| <= d.freeEnt - 255
  {
  }

  /** On every stream an encoder can send, no code stands for more than 2^maxbits bytes: the stack
      never holds more, and there is room for that many. */
  lemma StackBound(maxBits: nat, codes: seq<nat>, code: nat)
    requires 1 <= maxBits <= BITS && LegalRun(DecStart(maxBits), codes)
    requires LegalCode(DRun(DecStart(maxBits), codes), code)
    ensures |DecOut(DRun(DecStart(maxBits), codes), code)| <= Pow2(maxBits) <= 65536
    ensures 65536 + |DecOut(DRun(DecStart(maxBits), codes), code)| <= 8 * ZHash.HSIZE
  {
    ShortRun(DecStart(maxBits), codes);
    RunKeepsMaxBits(DecStart(maxBits), codes);
    OutShort(DRun(DecStart(maxBits), codes), code);
    SmallPowers();
    Pow2Mono(maxBits, 16);
  }
}
