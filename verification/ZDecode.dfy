/** Whole runs of the reader over the bytes of a file. */
module ZDecode {
  import opened Seqs
  import opened Bits
  import opened ZPack
  import opened ZSpec
  import opened ZStream

  /** The input side of the reader: unread file bytes, the group buffer, and the bit cursor in it. */
  datatype Src = Src(rest: seq<byte>, gbuf: seq<byte>, roffset: nat, size: int)

  ghost predicate SrcOk(d: Dec, s: Src) {
    |s.gbuf| == BITS && (s.roffset < s.size ==> s.size + d.w.bits <= 8 * BITS + 1)
  }

  predicate Refills(d: Dec, s: Src) { ForcesRefill(d) || s.roffset >= s.size }

  predicate AtEof(d: Dec, s: Src) { Refills(d, s) && s.rest == [] }

  /** The next bytes of the file replace the front of the buffer (compress/zopen.cc:573-596). */
  function Refill(d: Dec, s: Src): (s': Src)
    requires |s.gbuf| == BITS >= NextWidth(d).bits
    ensures |s'.gbuf| == BITS
  {
    var got := Min(NextWidth(d).bits, |s.rest|);
    Src(s.rest[got..], s.rest[..got] + s.gbuf[got..], 0, 8 * got - (NextWidth(d).bits - 1))
  }

  function Ready(d: Dec, s: Src): (s': Src)
    requires |s.gbuf| == BITS >= NextWidth(d).bits
    ensures |s'.gbuf| == BITS
  {
    if Refills(d, s) then Refill(d, s) else s
  }

  lemma ReadyFits(d: Dec, s: Src)
    requires DecOk(d) && SrcOk(d, s)
    ensures 9 <= NextWidth(d).bits <= BITS
    ensures Ready(d, s).roffset + NextWidth(d).bits <= 8 * BITS
  {
    NextWidthOk(d);
    WidthMin(d.maxBits, NextWidth(d));
  }

  /** The code getcode returns when the file is not at its end. */
  function CodeAt(d: Dec, s: Src): nat
    requires DecOk(d) && SrcOk(d, s)
  {
    ReadyFits(d, s);
    GetBits(Ready(d, s).gbuf, Ready(d, s).roffset, NextWidth(d).bits)
  }

  /** The source after that code. */
  function Past(d: Dec, s: Src): Src
    requires DecOk(d) && SrcOk(d, s)
  {
    ReadyFits(d, s);
    var r := Ready(d, s);
    r.(roffset := r.roffset + NextWidth(d).bits)
  }

  lemma PastOk(d: Dec, s: Src)
    requires DecOk(d) && SrcOk(d, s) && !AtEof(d, s)
    ensures LegalCode(d, CodeAt(d, s)) ==>
              DecOk(DecCode(d, CodeAt(d, s))) && SrcOk(DecCode(d, CodeAt(d, s)), Past(d, s))
    ensures || |Past(d, s).rest| < |s.rest|
            || (Past(d, s).rest == s.rest && Past(d, s).size == s.size > s.roffset && Past(d, s).roffset > s.roffset)
  {
    ReadyFits(d, s);
    if LegalCode(d, CodeAt(d, s)) {
      DecCodeOk(d, CodeAt(d, s));
    }
  }

  /** Everything the reader will deliver from here on, as long as the codes are legal. */
  function DecodeFrom(d: Dec, s: Src): seq<byte>
    requires DecOk(d) && SrcOk(d, s)
    decreases |s.rest|, s.size - s.roffset
  {
    if AtEof(d, s) then []
    else
      PastOk(d, s);
      if LegalCode(d, CodeAt(d, s)) then
        DecOut(d, CodeAt(d, s)) + DecodeFrom(DecCode(d, CodeAt(d, s)), Past(d, s))
      else []
  }

  /** Every code from here to the end of the file is one an encoder can send. */
  ghost predicate Decodable(d: Dec, s: Src)
    requires DecOk(d) && SrcOk(d, s)
    decreases |s.rest|, s.size - s.roffset
  {
    AtEof(d, s) ||
    (PastOk(d, s); LegalCode(d, CodeAt(d, s)) && Decodable(DecCode(d, CodeAt(d, s)), Past(d, s)))
  }

  /** From d and s the reader delivers out and then goes on from d' and s'. */
  ghost predicate Reads(d: Dec, s: Src, out: seq<byte>, d': Dec, s': Src) {
    && DecOk(d) && SrcOk(d, s) && DecOk(d') && SrcOk(d', s')
    && DecodeFrom(d, s) == out + DecodeFrom(d', s')
    && (Decodable(d', s') ==> Decodable(d, s))
  }

  lemma ReadsNothing(d: Dec, s: Src)
    requires DecOk(d) && SrcOk(d, s)
    ensures Reads(d, s, [], d, s)
  {
  }

  lemma ReadsTrans(d: Dec, s: Src, a: seq<byte>, d': Dec, s': Src, b: seq<byte>, d'': Dec, s'': Src)
    ensures Reads(d, s, a, d', s') && Reads(d', s', b, d'', s'') ==> Reads(d, s, a + b, d'', s'')
  {
    if Reads(d, s, a, d', s') && Reads(d', s', b, d'', s'') {
      Assoc(a, b, DecodeFrom(d'', s''));
    }
  }

  lemma ReadOne(d: Dec, s: Src)
    requires DecOk(d) && SrcOk(d, s) && !AtEof(d, s) && LegalCode(d, CodeAt(d, s))
    ensures Reads(d, s, DecOut(d, CodeAt(d, s)), DecCode(d, CodeAt(d, s)), Past(d, s))
  {
    PastOk(d, s);
  }

  /** The i-th code of a buffer that spells the codes. */
  lemma CodeInBuffer(buf: seq<byte>, width: nat, codes: seq<nat>, i: nat)
    requires Spells(buf, width, codes) && i < |codes| && Offset(width, i) + width <= 8 * |buf|
    ensures GetBits(buf, Offset(width, i), width) == codes[i]
  {
    GetBitsVal(buf, Offset(width, i), width);
    CatSplit(LE(buf), Offset(width, |codes|));
    FieldAt(codes, width, Shr(LE(buf), Offset(width, |codes|)), i);
  }

  lemma {:induction false} OffsetMono(n: nat, i: nat, k: nat)
    requires i < k
    ensures Offset(n, i) + n <= Offset(n, k)
    decreases k
  {
    if i < k - 1 {
      OffsetMono(n, i, k - 1);
    }
  }

  /** The reader is inside a group: the codes from the i-th on are all in the buffer. */
  ghost predicate Inside(d: Dec, s: Src, width: nat, codes: seq<nat>, i: nat) {
    && DecOk(d) && SrcOk(d, s) && i <= |codes|
    && Spells(s.gbuf, width, codes) && d.w.bits == width
    && s.roffset == Offset(width, i) && Offset(width, |codes|) <= s.size + width - 1
    && s.size + width <= 8 * BITS + 1
    && LegalRun(d, codes[i..]) && Together(d, codes[i..])
    && (i < |codes| ==> !ForcesRefill(d))
  }

  lemma InsideOne(d: Dec, s: Src, width: nat, codes: seq<nat>, i: nat)
    requires Inside(d, s, width, codes, i) && i < |codes|
    ensures !AtEof(d, s) && CodeAt(d, s) == codes[i] && LegalCode(d, codes[i])
    ensures Past(d, s) == s.(roffset := Offset(width, i + 1))
    ensures Inside(DecCode(d, codes[i]), Past(d, s), width, codes, i + 1)
  {
    OffsetMono(width, i, |codes|);
    CodeInBuffer(s.gbuf, width, codes, i);
    assert codes[i..][1..] == codes[i + 1..];
    DecCodeOk(d, codes[i]);
    if i + 1 < |codes| {
      assert |codes[i..]| > 1;
    }
  }

  lemma {:induction false} ReadInside(d: Dec, s: Src, width: nat, codes: seq<nat>, i: nat)
    requires Inside(d, s, width, codes, i)
    ensures Reads(d, s, DOut(d, codes[i..]), DRun(d, codes[i..]), s.(roffset := Offset(width, |codes|)))
    decreases |codes| - i
  {
    if i < |codes| {
      InsideOne(d, s, width, codes, i);
      ReadOne(d, s);
      var d' := DecCode(d, codes[i]);
      ReadInside(d', Past(d, s), width, codes, i + 1);
      assert codes[i..][1..] == codes[i + 1..];
      ReadsTrans(d, s, DecOut(d, codes[i]), d', Past(d, s), DOut(d', codes[i + 1..]),
                 DRun(d', codes[i + 1..]), s.(roffset := Offset(width, |codes|)));
    } else {
      assert codes[i..] == [];
      ReadsNothing(d, s);
    }
  }

  lemma RefillGroup(d: Dec, s: Src, g: Group, rest': seq<byte>)
    requires |s.gbuf| == BITS >= NextWidth(d).bits && GroupOk(g) && g.width == NextWidth(d).bits
    requires s.rest == g.bytes + rest' && (|g.bytes| == g.width || rest' == [])
    ensures var r := Refill(d, s);
            && Spells(r.gbuf, g.width, g.codes) && r.rest == rest'
            && r.roffset == 0 && r.size == 8 * |g.bytes| - (g.width - 1)
  {
    var r := Refill(d, s);
    assert s.rest[..|g.bytes|] == g.bytes && s.rest[|g.bytes|..] == rest';
    assert r.gbuf == g.bytes + s.gbuf[|g.bytes|..];
    assert r.gbuf[..|g.bytes|] == g.bytes;
    SpellsPrefix(r.gbuf, |g.bytes|, g.width, g.codes);
  }

  /** The first code of a group is the one that refills the buffer. */
  lemma ReadFirst(d: Dec, s: Src, g: Group, rest': seq<byte>)
    requires DecOk(d) && SrcOk(d, s) && Refills(d, s)
    requires GroupOk(g) && g.width == NextWidth(d).bits && LegalRun(d, g.codes) && Together(d, g.codes)
    requires s.rest == g.bytes + rest' && (|g.bytes| == g.width || rest' == [])
    ensures !AtEof(d, s) && CodeAt(d, s) == g.codes[0] && LegalCode(d, g.codes[0])
    ensures Inside(DecCode(d, g.codes[0]), Past(d, s), g.width, g.codes, 1)
    ensures Past(d, s).rest == rest' && Past(d, s).size == 8 * |g.bytes| - (g.width - 1)
  {
    OffsetMono(g.width, 0, |g.codes|);
    RefillGroup(d, s, g, rest');
    CodeInBuffer(Refill(d, s).gbuf, g.width, g.codes, 0);
    DecCodeOk(d, g.codes[0]);
    assert g.codes[1..] == g.codes[0..][1..] && g.codes[0..] == g.codes;
    OffsetNear(g.width, 1);
  }

  lemma ReadGroup(d: Dec, s: Src, g: Group, rest': seq<byte>) returns (s': Src)
    requires DecOk(d) && SrcOk(d, s) && Refills(d, s)
    requires GroupOk(g) && g.width == NextWidth(d).bits && LegalRun(d, g.codes) && Together(d, g.codes)
    requires s.rest == g.bytes + rest' && (|g.bytes| == g.width || rest' == [])
    ensures Reads(d, s, DOut(d, g.codes), DRun(d, g.codes), s')
    ensures s'.rest == rest' && s'.size == 8 * |g.bytes| - (g.width - 1) && s'.roffset == Offset(g.width, |g.codes|)
  {
    ReadFirst(d, s, g, rest');
    ReadOne(d, s);
    var d' := DecCode(d, g.codes[0]);
    s' := Past(d, s).(roffset := Offset(g.width, |g.codes|));
    ReadInside(d', Past(d, s), g.width, g.codes, 1);
    ReadsTrans(d, s, DecOut(d, g.codes[0]), d', Past(d, s), DOut(d', g.codes[1..]), DRun(d', g.codes[1..]), s');
  }

  /** All groups the writer filed come back, code for code. */
  lemma {:induction false} ReadGroups(d: Dec, s: Src, gs: seq<Group>, rest': seq<byte>) returns (s': Src)
    requires DecOk(d) && SrcOk(d, s) && Refills(d, s)
    requires Sched(d, gs) && s.rest == Raw(gs) + rest'
    ensures LegalRun(d, Flat(gs))
    ensures Reads(d, s, DOut(d, Flat(gs)), DRun(d, Flat(gs)), s')
    ensures s'.rest == rest' && Refills(DRun(d, Flat(gs)), s')
    decreases |gs|
  {
    if gs == [] {
      ReadsNothing(d, s);
      s' := s;
      assert [] + rest' == rest';
    } else {
      Assoc(gs[0].bytes, Raw(gs[1..]), rest');
      var s1 := ReadGroup(d, s, gs[0], Raw(gs[1..]) + rest');
      var d1 := DRun(d, gs[0].codes);
      OffsetNear(gs[0].width, |gs[0].codes|);
      s' := ReadGroups(d1, s1, gs[1..], rest');
      RunConcat(d, gs[0].codes, Flat(gs[1..]));
      ReadsTrans(d, s, DOut(d, gs[0].codes), d1, s1, DOut(d1, Flat(gs[1..])), DRun(d1, Flat(gs[1..])), s');
    }
  }

  /** The partly filled buffer written at end of input yields its codes and no phantom code. */
  lemma ReadTail(d: Dec, s: Src, buf: seq<byte>, n: nat, pending: seq<nat>) returns (s': Src)
    requires DecOk(d) && SrcOk(d, s) && Refills(d, s)
    requires InBuffer(buf, n, pending) && 0 < |pending| < 8 && Flows(d, n, pending)
    requires s.rest == buf[..BytesFor(Offset(n, |pending|))]
    ensures Reads(d, s, DOut(d, pending), DRun(d, pending), s')
    ensures AtEof(DRun(d, pending), s')
  {
    OffsetNear(n, |pending|);
    var m := BytesFor(Offset(n, |pending|));
    BufSpells(buf, m, n, pending);
    assert s.rest == buf[..m] + [];
    s' := ReadGroup(d, s, Group(n, pending, buf[..m]), []);
  }

  // ----- files -----

  function Cursor(rest: seq<byte>): Src {
    Src(rest, seq(BITS, i => 0), 0, 0)
  }

  /** compress/zopen.cc:480-494: what makes the reader give up with EINVAL. */
  predicate BadHeader(file: seq<byte>) {
    |file| < 3 || file[0] != 0x1F || file[1] != 0x9D || file[2] % 32 > BITS
  }

  /** A header with the block flag, as compress_zwrite always writes it. */
  predicate BlockHeader(file: seq<byte>) {
    !BadHeader(file) && file[2] >= 0x80 && file[2] % 32 >= 1
  }

  function MaxBitsOf(file: seq<byte>): nat
    requires |file| >= 3
  {
    file[2] % 32
  }

  /** What reading a .Z file to its end delivers; None is the EINVAL error. */
  function ReadBack(file: seq<byte>): Option<seq<byte>> {
    if BlockHeader(file) then Some(DecodeFrom(DecStart(MaxBitsOf(file)), Cursor(file[3..]))) else None
  }

  /** A file an encoder can have written. */
  ghost predicate WellFormed(file: seq<byte>) {
    BlockHeader(file) && Decodable(DecStart(MaxBitsOf(file)), Cursor(file[3..]))
  }

  lemma HeaderRead(maxBits: nat, body: seq<byte>)
    requires 1 <= maxBits <= BITS
    ensures var file := Header(maxBits) + body;
            BlockHeader(file) && MaxBitsOf(file) == maxBits && file[3..] == body
  {
    var file := Header(maxBits) + body;
    assert file[0] == 0x1F && file[1] == 0x9D && file[2] as int == 0x80 + maxBits;
  }

  lemma ReadFile(maxBits: nat, gs: seq<Group>, tail: seq<byte>) returns (s: Src)
    requires 1 <= maxBits <= BITS && Sched(DecStart(maxBits), gs)
    ensures var file := Header(maxBits) + Raw(gs) + tail;
            var d := DRun(DecStart(maxBits), Flat(gs));
            && BlockHeader(file)
            && DecOk(d) && SrcOk(d, s) && Refills(d, s) && s.rest == tail
            && ReadBack(file) == Some(DOut(DecStart(maxBits), Flat(gs)) + DecodeFrom(d, s))
            && (Decodable(d, s) ==> WellFormed(file))
  {
    Assoc(Header(maxBits), Raw(gs), tail);
    HeaderRead(maxBits, Raw(gs) + tail);
    s := ReadGroups(DecStart(maxBits), Cursor(Raw(gs) + tail), gs, tail);
  }
}
