/** What the codec of compress/zopen.cc computes: the writer as a function from bytes to the
    bytes of a .Z file, the reader as a textbook LZW decoder over whole strings. */
module ZSpec {
  import opened Bits
  import opened ZPack

  const INIT_BITS: nat := 9
  const FIRST: nat := 257
  const CLEAR: nat := 256
  const CHECK_GAP: nat := 10000

  // ----- code widths, common to both sides (compress/zopen.cc:428-437 and :579-588) -----

  datatype Width = Width(bits: nat, maxCode: nat)

  const INIT_WIDTH := Width(INIT_BITS, 511)

  function Wider(maxBits: nat, w: Width): Width {
    Width(w.bits + 1, if w.bits + 1 == maxBits then Pow2(maxBits) else Pow2(w.bits + 1) - 1)
  }

  /** The four shapes a width can have; with maxBits 9 it still goes to 10 once. */
  predicate WidthOk(maxBits: nat, w: Width) {
    || w == INIT_WIDTH
    || (9 < w.bits < maxBits <= BITS && w.maxCode == Pow2(w.bits) - 1)
    || (9 < w.bits == maxBits <= BITS && w.maxCode == Pow2(maxBits))
    || (w.bits == 10 && maxBits == 9 && w.maxCode == 1023)
  }

  /** One more than the largest code the dictionary can hold. */
  function CodeLimit(maxBits: nat): (m: nat)
    ensures m >= FIRST
  {
    if Pow2(maxBits) > FIRST then Pow2(maxBits) else FIRST
  }

  lemma SmallMaxBits(maxBits: nat)
    requires maxBits < 9
    ensures Pow2(maxBits) <= 256
  {
    Pow2Mono(maxBits, 8);
    SmallPowers();
  }

  lemma WidthMin(maxBits: nat, w: Width)
    requires WidthOk(maxBits, w)
    ensures w.maxCode >= 511 && 9 <= w.bits <= BITS
  {
    SmallPowers();
    Pow2Mono(9, w.bits);
  }

  lemma WiderOk(maxBits: nat, w: Width, freeEnt: nat)
    requires maxBits <= BITS && WidthOk(maxBits, w) && w.maxCode < freeEnt <= CodeLimit(maxBits)
    ensures WidthOk(maxBits, Wider(maxBits, w)) && w.maxCode < Wider(maxBits, w).maxCode
  {
    SmallPowers();
    if maxBits < 9 {
      SmallMaxBits(maxBits);
    }
  }

  /** A code that is already in the dictionary fits the current width. */
  lemma CodeFits(maxBits: nat, w: Width, freeEnt: nat, code: nat)
    requires maxBits <= BITS && WidthOk(maxBits, w)
    requires freeEnt <= CodeLimit(maxBits) && freeEnt <= w.maxCode + 1
    requires code < freeEnt || code <= CLEAR
    ensures code < Pow2(w.bits)
  {
    SmallPowers();
    Pow2Mono(9, w.bits);
  }

  // ----- the writer -----

  /** The output side: current width, bit buffer, and the file written so far. */
  datatype Packer = Packer(w: Width, offset: nat, buf: seq<byte>, file: seq<byte>, bytesOut: nat)

  /** The offset is a whole number of codes, fewer than eight. */
  predicate OffsetOk(n: nat, o: nat) {
    o == 0 || o == n || o == 2 * n || o == 3 * n || o == 4 * n || o == 5 * n || o == 6 * n || o == 7 * n
  }

  predicate PackerOk(maxBits: nat, p: Packer) {
    && maxBits <= BITS
    && WidthOk(maxBits, p.w)
    && OffsetOk(p.w.bits, p.offset)
    && |p.buf| == BITS
    && p.bytesOut == |p.file| >= 3
  }

  function WriteBuf(p: Packer, n: nat): Packer
    requires n <= |p.buf|
  {
    p.(file := p.file + p.buf[..n], bytesOut := p.bytesOut + n, offset := 0)
  }

  /** Store one code; a buffer of eight codes is written out (compress/zopen.cc:380-411). */
  function Put(maxBits: nat, p: Packer, code: nat): (p': Packer)
    requires PackerOk(maxBits, p)
    ensures PackerOk(maxBits, p') && p'.w == p.w
  {
    var q := p.(buf := PutBits(p.buf, p.offset, p.w.bits, code), offset := p.offset + p.w.bits);
    if q.offset == 8 * q.w.bits then WriteBuf(q, q.w.bits) else q
  }

  /** Write a partly filled buffer whole and go on with another width (compress/zopen.cc:416-438). */
  function ChangeWidth(p: Packer, w: Width): Packer
    requires |p.buf| == BITS >= p.w.bits
  {
    (if p.offset > 0 then WriteBuf(p, p.w.bits) else p).(w := w)
  }

  function Output(maxBits: nat, p: Packer, freeEnt: nat, clear: bool, code: nat): (p': Packer)
    requires PackerOk(maxBits, p) && freeEnt <= CodeLimit(maxBits)
    ensures PackerOk(maxBits, p')
    ensures p.w.maxCode + 1 >= freeEnt && clear ==> p'.w == INIT_WIDTH
    ensures !clear ==> p'.w == if freeEnt > p.w.maxCode then Wider(maxBits, p.w) else p.w
    ensures !clear ==> p.w.maxCode <= p'.w.maxCode
  {
    var q := Put(maxBits, p, code);
    if clear then ChangeWidth(q, INIT_WIDTH)
    else if freeEnt > p.w.maxCode then
      WiderOk(maxBits, p.w, freeEnt);
      ChangeWidth(q, Wider(maxBits, p.w))
    else q
  }

  /** At end of input only the used bytes are written (compress/zopen.cc:439-448). */
  function OutputEof(maxBits: nat, p: Packer): Packer
    requires PackerOk(maxBits, p)
  {
    if p.offset > 0 then WriteBuf(p, BytesFor(p.offset)) else p
  }

  /** A prefix code and the byte that follows it. */
  type Pair = (nat, byte)

  datatype Enc = Enc(maxBits: nat, dict: map<Pair, nat>, freeEnt: nat, ent: nat, p: Packer,
                     inCount: nat, checkpoint: nat, ratio: nat)

  predicate IsCode(freeEnt: nat, code: nat) {
    code < 256 || FIRST <= code < freeEnt
  }

  ghost predicate EncOk(e: Enc) {
    && 1 <= e.maxBits <= BITS
    && PackerOk(e.maxBits, e.p)
    && FIRST <= e.freeEnt <= CodeLimit(e.maxBits)
    && e.freeEnt <= e.p.w.maxCode + 1
    && IsCode(e.freeEnt, e.ent)
    && forall k <- e.dict :: FIRST <= e.dict[k] < e.freeEnt && IsCode(e.freeEnt, k.0)
  }

  function Header(maxBits: nat): seq<byte>
    requires maxBits <= BITS
  {
    [0x1F, 0x9D, 0x80 + maxBits]
  }

  /** After the first byte of the input (compress/zopen.cc:256-285). */
  function EncStart(maxBits: nat, c: byte): (e: Enc)
    requires 1 <= maxBits <= BITS
    ensures EncOk(e)
  {
    Enc(maxBits, map[], FIRST, c,
        Packer(INIT_WIDTH, 0, seq(BITS, i => 0), Header(maxBits), 3), 1, CHECK_GAP, 0)
  }

  /** Compression ratio with 8 fractional bits, shifted the other way for long inputs
      (compress/zopen.cc:630-637). */
  function Ratio(inCount: nat, bytesOut: nat): int
    requires bytesOut > 0
  {
    if inCount > 0x007fffff then
      var rat := bytesOut / 256;
      if rat == 0 then 0x7fffffff else inCount / rat
    else
      (inCount * 256) / bytesOut
  }

  /** Block check: keep going while the ratio improves, else clear (compress/zopen.cc:623-649). */
  function ClBlock(e: Enc): (e': Enc)
    requires EncOk(e) && e.ent < 256 && e.freeEnt <= e.p.w.maxCode + 1
    ensures EncOk(e')
  {
    var rat := Ratio(e.inCount, e.p.bytesOut);
    var f := e.(checkpoint := e.inCount + CHECK_GAP);
    if rat > e.ratio then f.(ratio := rat)
    else f.(ratio := 0, dict := map[], freeEnt := FIRST, p := Output(e.maxBits, e.p, FIRST, true, CLEAR))
  }

  /** The current code is sent; c starts a new string. */
  function Sent(e: Enc, c: byte): (g: Enc)
    requires EncOk(e)
    ensures e.freeEnt >= Pow2(e.maxBits) ==> EncOk(g) && g.freeEnt <= g.p.w.maxCode + 1
  {
    e.(p := Output(e.maxBits, e.p, e.freeEnt, false, e.ent), ent := c)
  }

  /** Send the current code and start a new string (compress/zopen.cc:310-321). */
  function EncMiss(e: Enc, c: byte): (e': Enc)
    requires EncOk(e)
    ensures EncOk(e')
  {
    var g := Sent(e, c);
    if e.freeEnt < Pow2(e.maxBits) then
      g.(dict := e.dict[(e.ent, c) := e.freeEnt], freeEnt := e.freeEnt + 1)
    else if g.inCount >= e.checkpoint then
      ClBlock(g)
    else g
  }

  /** The longer string if the table has it, else the current code goes out (compress/zopen.cc:290-321). */
  function EncExtend(e: Enc, c: byte): (e': Enc)
    requires EncOk(e)
    ensures EncOk(e')
  {
    if (e.ent, c) in e.dict then e.(ent := e.dict[(e.ent, c)]) else EncMiss(e, c)
  }

  /** One input byte (compress/zopen.cc:287-322). */
  function EncByte(e: Enc, c: byte): (e': Enc)
    requires EncOk(e)
    ensures EncOk(e')
  {
    EncExtend(e.(inCount := e.inCount + 1), c)
  }

  function EncAll(e: Enc, s: seq<byte>): (e': Enc)
    requires EncOk(e)
    ensures EncOk(e')
    decreases |s|
  {
    if s == [] then e else EncAll(EncByte(e, s[0]), s[1..])
  }

  /** A write stream: nothing written yet, or in the middle. */
  datatype Writer = Start(maxBits: nat) | Middle(e: Enc)

  ghost predicate WriterOk(w: Writer) {
    match w
    case Start(maxBits) => 1 <= maxBits <= BITS
    case Middle(e) => EncOk(e)
  }

  function Write(w: Writer, s: seq<byte>): (w': Writer)
    requires WriterOk(w)
    ensures WriterOk(w')
  {
    if s == [] then w
    else match w
      case Start(maxBits) => Middle(EncAll(EncStart(maxBits, s[0]), s[1..]))
      case Middle(e) => Middle(EncAll(e, s))
  }

  function FileOf(w: Writer): seq<byte> {
    match w
    case Start(_) => []
    case Middle(e) => e.p.file
  }

  /** The file after closing in mode 'w': the pending code and the last partial group go out. */
  function Finish(e: Enc): Packer
    requires EncOk(e)
  {
    OutputEof(e.maxBits, Output(e.maxBits, e.p, e.freeEnt, false, e.ent))
  }

  /** The file after compress_zclose, for the mode letter recorded in the stream
      (compress/zopen.cc:326-348). */
  function Close(w: Writer, mode: char): seq<byte>
    requires WriterOk(w)
  {
    if mode == 'w' && w.Middle? then Finish(w.e).file else FileOf(w)
  }

  // ----- the reader, code by code -----

  /** The decoder's table holds the string of every code from FIRST up; prev is the string of the
      previous code, empty before the first. */
  datatype Dec = Dec(maxBits: nat, tab: seq<seq<byte>>, freeEnt: nat, prev: seq<byte>, w: Width, clearFlg: bool)

  function DecStart(maxBits: nat): Dec {
    Dec(maxBits, [], FIRST, [], INIT_WIDTH, false)
  }

  ghost predicate DecOk(d: Dec) {
    && 1 <= d.maxBits <= BITS
    && WidthOk(d.maxBits, d.w)
    && 256 <= d.freeEnt <= CodeLimit(d.maxBits)
    && |d.tab| == (if d.freeEnt >= FIRST then d.freeEnt - FIRST else 0)
    && d.freeEnt <= d.w.maxCode + 1
    && (forall i :: 0 <= i < |d.tab| ==> d.tab[i] != [])
    && (d.clearFlg ==> d.freeEnt == 256 && d.prev != [])
  }

  /** The next code can not come from the bytes already fetched. */
  predicate ForcesRefill(d: Dec) { d.clearFlg || d.freeEnt > d.w.maxCode }

  function NextWidth(d: Dec): Width {
    if d.clearFlg then INIT_WIDTH else if d.freeEnt > d.w.maxCode then Wider(d.maxBits, d.w) else d.w
  }

  predicate IsClear(d: Dec, code: nat) { code == CLEAR && !d.clearFlg && d.prev != [] }

  /** Codes an encoder can send to a decoder in this state. */
  predicate LegalCode(d: Dec, code: nat) {
    || code < 256
    || (d.prev != [] && FIRST <= code < d.freeEnt)
    || (d.prev != [] && FIRST <= code == d.freeEnt < Pow2(d.maxBits))
    || IsClear(d, code)
  }

  /** The string a code stands for; the KwKwK code is not in the table yet. */
  function CodeStr(d: Dec, code: nat): seq<byte> {
    if code < 256 then [code]
    else if FIRST <= code < FIRST + |d.tab| then d.tab[code - FIRST]
    else d.prev + d.prev[..if d.prev == [] then 0 else 1]
  }

  /** What one code does to the decoder (compress/zopen.cc:503-510 and :512-553). */
  function DecCode(d: Dec, code: nat): Dec {
    var e := d.(w := NextWidth(d), clearFlg := false);
    if d.prev == [] then e.(prev := CodeStr(d, code))
    else if IsClear(d, code) then e.(clearFlg := true, freeEnt := 256, tab := [])
    else
      var s := CodeStr(d, code);
      if d.freeEnt < Pow2(d.maxBits) then
        e.(prev := s, freeEnt := d.freeEnt + 1,
           tab := if d.freeEnt >= FIRST then d.tab + [d.prev + s[..if s == [] then 0 else 1]] else [])
      else e.(prev := s)
  }

  /** The bytes one code contributes to the output. */
  function DecOut(d: Dec, code: nat): seq<byte> {
    if IsClear(d, code) then [] else CodeStr(d, code)
  }

  lemma NextWidthOk(d: Dec)
    requires DecOk(d)
    ensures WidthOk(d.maxBits, NextWidth(d))
    ensures d.freeEnt <= NextWidth(d).maxCode + if ForcesRefill(d) then 0 else 1
  {
    if d.freeEnt > d.w.maxCode {
      WiderOk(d.maxBits, d.w, d.freeEnt);
    }
  }

  lemma DecCodeOk(d: Dec, code: nat)
    requires DecOk(d) && LegalCode(d, code)
    ensures DecOk(DecCode(d, code)) && DecCode(d, code).prev != []
    ensures IsClear(d, code) || CodeStr(d, code) != []
  {
    NextWidthOk(d);
  }
}
