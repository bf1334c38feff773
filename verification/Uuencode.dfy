/** uuencode -m (uuencode/uuencode.cc): a streaming encoder with a buffer for what is left of a group
    between two reads, and a buffer for its output. */
module Uuencode {
  import opened Bits
  import opened Base64
  import opened Seqs

  const UUE_BUF_SZ: nat := 4096
  const CHUNK_SZ: nat := 3
  const LN_MAX: nat := 45

  /** tbl_base64 (uuencode/uuencode.cc:74-82) */
  const TBL_LOW: string := "ABCDEFGHIJKLMNOPQRSTUVWXYZabcdef"
  const TBL_HIGH: string := "ghijklmnopqrstuvwxyz0123456789+/"
  const TBL_BASE64: string := TBL_LOW + TBL_HIGH

  lemma LowIsSym(i: nat)
    requires i < 32
    ensures TBL_LOW[i] == Sym(i)
  {
  }

  lemma HighIsSym(i: nat)
    requires i < 32
    ensures TBL_HIGH[i] == Sym(32 + i)
  {
  }

  /** The table is the alphabet of the standard. */
  lemma TableIsAlphabet(i: nat)
    requires i < 64
    ensures |TBL_BASE64| == 64 && TBL_BASE64[i] == Sym(i)
  {
    if i < 32 {
      LowIsSym(i);
    } else {
      HighIsSym(i - 32);
    }
  }

  // ----- the encoder as a machine that takes one byte at a time -----

  /** The text so far, the bytes the current line encodes, and the bytes of an unfinished group. */
  datatype Enc = Enc(text: string, lineBytes: nat, spill: seq<byte>)

  predicate EncOk(e: Enc) { e.lineBytes < LN_MAX && e.lineBytes % 3 == 0 && |e.spill| < CHUNK_SZ }

  /** A whole group (uuencode/uuencode.cc:130-157). */
  function Chunk(e: Enc, a: byte, b: byte, c: byte): Enc {
    if e.lineBytes + CHUNK_SZ >= LN_MAX then Enc(e.text + Quad(a, b, c) + "\n", 0, e.spill)
    else Enc(e.text + Quad(a, b, c), e.lineBytes + CHUNK_SZ, e.spill)
  }

  function FeedByte(e: Enc, b: byte): Enc {
    if |e.spill| == 2 then Chunk(e.(spill := []), e.spill[0], e.spill[1], b)
    else e.(spill := e.spill + [b])
  }

  function Feed(e: Enc, s: seq<byte>): Enc
    decreases |s|
  {
    if s == [] then e else Feed(FeedByte(e, s[0]), s[1..])
  }

  /** The text after the last byte (uuencode/uuencode.cc:187-196). */
  function Finish(e: Enc): string {
    e.text + (if |e.spill| == 1 || |e.spill| == 2 then Last(e.spill) else []) + "\n"
  }

  lemma {:induction false} FeedConcat(e: Enc, a: seq<byte>, b: seq<byte>)
    ensures Feed(Feed(e, a), b) == Feed(e, a + b)
    decreases |a|
  {
    if a == [] {
      assert a + b == b;
    } else {
      assert (a + b)[1..] == a[1..] + b;
      FeedConcat(FeedByte(e, a[0]), a[1..], b);
    }
  }

  /** A group taken at once (uuencode/uuencode.cc:223-227). */
  lemma FeedChunk(e: Enc, a: byte, b: byte, c: byte, s: seq<byte>)
    requires e.spill == []
    ensures Feed(e, [a, b, c] + s) == Feed(Chunk(e, a, b, c), s)
  {
    var e1 := FeedByte(e, a);
    var e2 := FeedByte(e1, b);
    assert ([a, b, c] + s)[1..] == [b, c] + s && ([b, c] + s)[1..] == [c] + s && ([c] + s)[1..] == s;
    assert Feed(e, [a, b, c] + s) == Feed(e1, [b, c] + s) == Feed(e2, [c] + s);
  }

  // ----- its text -----

  /** The text still to come when lb bytes are on the line, for the data s. */
  function Rest(lb: nat, s: seq<byte>): string
    requires lb < LN_MAX
  {
    if |s| < LN_MAX - lb then Encode(s) + "\n"
    else Encode(s[..LN_MAX - lb]) + "\n" + Wrapped(s[LN_MAX - lb..])
  }

  lemma EncodeChunkFirst(a: byte, b: byte, c: byte, s: seq<byte>)
    ensures Encode([a, b, c] + s) == Quad(a, b, c) + Encode(s)
  {
    assert ([a, b, c] + s)[3..] == s;
  }

  /** A group moves from the data to come to the text. */
  lemma RestChunk(lb: nat, a: byte, b: byte, c: byte, s: seq<byte>)
    requires lb < LN_MAX && lb % 3 == 0
    ensures Rest(lb, [a, b, c] + s)
         == Quad(a, b, c) + if lb + 3 >= LN_MAX then "\n" + Rest(0, s) else Rest(lb + 3, s)
  {
    var g, q := [a, b, c], Quad(a, b, c);
    var n := LN_MAX - lb;
    if |g + s| < n {
      EncodeChunkFirst(a, b, c, s);
      Assoc(q, Encode(s), "\n");
    } else {
      var x, y := s[..n - 3], s[n - 3..];
      assert (g + s)[..n] == g + x && (g + s)[n..] == y;
      EncodeChunkFirst(a, b, c, x);
      Assoc(q, Encode(x) + "\n", Wrapped(y));
      Assoc(q, Encode(x), "\n");
      if n == 3 {
        assert x == [] && y == s && [] + "\n" == "\n";
      }
    }
  }

  /** What a run from e over s leaves behind. */
  ghost predicate Leaves(e: Enc, s: seq<byte>) {
    EncOk(e) && Finish(Feed(e, s)) == e.text + Rest(e.lineBytes, e.spill + s)
  }

  lemma FeedCons(e: Enc, b: byte, s: seq<byte>)
    ensures Feed(e, [b] + s) == Feed(FeedByte(e, b), s)
  {
    assert ([b] + s)[1..] == s;
  }

  lemma ThreeMore(n: nat)
    requires n % 3 == 0
    ensures (n + 3) % 3 == 0
  {
  }

  lemma FedOk(e: Enc, b: byte)
    requires EncOk(e)
    ensures EncOk(FeedByte(e, b))
  {
    ThreeMore(e.lineBytes);
    assert FeedByte(e, b).lineBytes in {e.lineBytes, e.lineBytes + 3, 0};
  }

  lemma LeavesChunk(e: Enc, b: byte, s: seq<byte>)
    requires EncOk(e) && |e.spill| == 2 && Leaves(FeedByte(e, b), s)
    ensures Leaves(e, [b] + s)
  {
    FeedCons(e, b, s);
    var x, y := e.spill[0], e.spill[1];
    assert e.spill + ([b] + s) == [x, y, b] + s && [] + s == s;
    RestChunk(e.lineBytes, x, y, b, s);
    TextMore(e.text, Quad(x, y, b), Rest(0, s));
    if e.lineBytes + 3 < LN_MAX {
      Assoc(e.text, Quad(x, y, b), Rest(e.lineBytes + 3, s));
    }
  }

  lemma LeavesSpill(e: Enc, b: byte, s: seq<byte>)
    requires EncOk(e) && |e.spill| < 2 && Leaves(FeedByte(e, b), s)
    ensures Leaves(e, [b] + s)
  {
    FeedCons(e, b, s);
    assert e.spill + [b] + s == e.spill + ([b] + s);
  }

  lemma RoomForGroup(lb: nat)
    requires lb < LN_MAX && lb % 3 == 0
    ensures lb <= LN_MAX - 3
  {
    assert lb == 3 * (lb / 3);
  }

  lemma RestSpill(lb: nat, spill: seq<byte>)
    requires lb < LN_MAX && lb % 3 == 0 && |spill| < 3
    ensures Rest(lb, spill) == Encode(spill) + "\n"
  {
    RoomForGroup(lb);
  }

  lemma EncodeSpill(spill: seq<byte>)
    requires |spill| < 3
    ensures Encode(spill) == if spill == [] then [] else Last(spill)
  {
  }

  lemma LeavesNothing(e: Enc)
    requires EncOk(e)
    ensures Leaves(e, [])
  {
    var last := if e.spill == [] then [] else Last(e.spill);
    RestSpill(e.lineBytes, e.spill);
    EncodeSpill(e.spill);
    assert e.spill + [] == e.spill;
    assert Finish(Feed(e, [])) == e.text + last + "\n";
    Assoc(e.text, last, "\n");
  }

  lemma {:induction false} FeedText(e: Enc, s: seq<byte>)
    requires EncOk(e)
    ensures Leaves(e, s)
    decreases |s|
  {
    if s == [] {
      LeavesNothing(e);
    } else {
      FedOk(e, s[0]);
      FeedText(FeedByte(e, s[0]), s[1..]);
      assert s == [s[0]] + s[1..];
      if |e.spill| == 2 {
        LeavesChunk(e, s[0], s[1..]);
      } else {
        LeavesSpill(e, s[0], s[1..]);
      }
    }
  }

  lemma TextMore(t: string, q: string, r: string)
    ensures t + q + "\n" + r == t + (q + ("\n" + r))
  {
  }

  /** Whatever the pieces: the text is the encoding of the whole, in lines. */
  lemma TextIsWrapped(header: string, s: seq<byte>)
    ensures Finish(Feed(Enc(header, 0, []), s)) == header + Wrapped(s)
  {
    FeedText(Enc(header, 0, []), s);
    assert [] + s == s;
  }

  // ----- the encoder of the source -----

  class Encoder {
    var written: string            // what write_buf has been given
    const outbuf: array<char>
    var outbufLen: nat
    var lineLen: nat
    var lineBytes: nat
    const spill: array<byte>
    var nSpill: nat

    ghost predicate Valid()
      reads this
    {
      && outbuf.Length == UUE_BUF_SZ && spill.Length == 4
      && outbufLen <= UUE_BUF_SZ && nSpill < CHUNK_SZ
      && lineBytes < LN_MAX && lineBytes % 3 == 0 && lineLen * 3 == lineBytes * 4
    }

    /** Everything pushed so far. */
    ghost function Text(): string
      requires outbufLen <= outbuf.Length
      reads this, outbuf
    {
      written + outbuf[..outbufLen]
    }

    ghost function E(): Enc
      requires Valid()
      reads this, outbuf, spill
    {
      Enc(Text(), lineBytes, spill[..nSpill])
    }

    constructor ()
      ensures Valid() && E() == Enc("", 0, []) && fresh(outbuf) && fresh(spill)
    {
      written, outbufLen, lineLen, lineBytes, nSpill := "", 0, 0, 0, 0;
      outbuf := new char[UUE_BUF_SZ](i => ' ');
      spill := new byte[4](i => 0);
    }

    /** flush_outbuf (uuencode/uuencode.cc:95-101) */
    method FlushOutbuf()
      requires outbufLen <= outbuf.Length
      modifies this`written, this`outbufLen
      ensures outbufLen == 0 && written == old(Text()) && Text() == old(Text())
    {
      if outbufLen > 0 {
        written := written + outbuf[..outbufLen];
        outbufLen := 0;
      }
    }

    /** push_outbuf (uuencode/uuencode.cc:103-115): when it flushes is not seen in the text. */
    method PushOutbuf(s: string)
      requires outbuf.Length == UUE_BUF_SZ && outbufLen <= UUE_BUF_SZ && |s| <= UUE_BUF_SZ
      modifies this`written, this`outbufLen, outbuf
      ensures outbufLen <= UUE_BUF_SZ && Text() == old(Text()) + s
    {
      if outbufLen + |s| > UUE_BUF_SZ {
        FlushOutbuf();
      }
      ghost var before := outbuf[..outbufLen];
      forall i | 0 <= i < |s| {
        outbuf[outbufLen + i] := s[i];
      }
      outbufLen := outbufLen + |s|;
      assert outbuf[..outbufLen] == before + s;
    }

    /** push_line (uuencode/uuencode.cc:117-128) */
    method PushLine()
      requires outbuf.Length == UUE_BUF_SZ && outbufLen <= UUE_BUF_SZ
      modifies this`written, this`outbufLen, this`lineLen, this`lineBytes, outbuf
      ensures outbufLen <= UUE_BUF_SZ && Text() == old(Text()) + "\n" && lineLen == lineBytes == 0
    {
      PushOutbuf("\n");
      lineLen, lineBytes := 0, 0;
    }

    /** The end of encode_chunk (uuencode/uuencode.cc:151-156). */
    method PushSymbols(c: string)
      requires Valid() && |c| == 4
      modifies this`written, this`outbufLen, this`lineLen, this`lineBytes, outbuf
      ensures Valid()
      ensures if old(lineBytes) + CHUNK_SZ >= LN_MAX then Text() == old(Text()) + c + "\n" && lineBytes == 0
              else Text() == old(Text()) + c && lineBytes == old(lineBytes) + CHUNK_SZ
    {
      PushOutbuf(c);
      lineLen := lineLen + 4;
      lineBytes := lineBytes + CHUNK_SZ;
      if lineBytes >= LN_MAX {
        PushLine();
      }
    }

    /** encode_chunk (uuencode/uuencode.cc:130-157) */
    method EncodeChunk(s: seq<byte>)
      requires Valid() && |s| == 3
      modifies this`written, this`outbufLen, this`lineLen, this`lineBytes, outbuf
      ensures Valid() && Enc(Text(), lineBytes, []) == Chunk(Enc(old(Text()), old(lineBytes), []), s[0], s[1], s[2])
    {
      var c := FourSymbols(s);
      PushSymbols(c);
    }

    /** finalize_base64 (uuencode/uuencode.cc:159-178), and the newline after it. */
    method FlushLastLine()
      requires Valid()
      modifies this`written, this`outbufLen, this`lineLen, this`lineBytes, outbuf
      ensures outbufLen <= outbuf.Length && Text() == old(Finish(E()))
    {
      if nSpill > 0 {
        var c := LastSymbols(spill[..nSpill]);
        PushOutbuf(c);
        lineLen := lineLen + 4;
        lineBytes := lineBytes + nSpill;
      }
      PushLine();
    }

    /** The bytes of a read that go to a group begun before (uuencode/uuencode.cc:209-214). */
    method FillSpill(buf: seq<byte>) returns (s: nat)
      requires Valid() && nSpill > 0
      modifies this`nSpill, spill
      ensures s <= |buf| && nSpill == old(nSpill) + s <= CHUNK_SZ && (s == |buf| || nSpill == CHUNK_SZ)
      ensures spill[..nSpill] == old(spill[..nSpill]) + buf[..s]
    {
      s := 0;
      while nSpill < CHUNK_SZ && s < |buf|
        invariant s <= |buf| && nSpill == old(nSpill) + s <= CHUNK_SZ
        invariant spill[..nSpill] == old(spill[..nSpill]) + buf[..s]
      {
        spill[nSpill] := buf[s];
        s, nSpill := s + 1, nSpill + 1;
      }
    }

    /** The whole groups of a read, and what is left of it (uuencode/uuencode.cc:223-232). */
    method PushGroups(buf: seq<byte>)
      requires Valid() && nSpill == 0
      modifies this`written, this`outbufLen, this`lineLen, this`lineBytes, this`nSpill, outbuf, spill
      ensures Valid() && E() == Feed(old(E()), buf)
    {
      ghost var e := E();
      var s := 0;
      assert buf[0..] == buf && spill[..0] == [];
      while |buf| - s >= CHUNK_SZ
        invariant s <= |buf| && Valid() && nSpill == 0
        invariant Feed(Enc(Text(), lineBytes, []), buf[s..]) == Feed(e, buf)
      {
        var k := s + 3;
        assert buf[s..] == [buf[s], buf[s + 1], buf[s + 2]] + buf[k..];
        FeedChunk(Enc(Text(), lineBytes, []), buf[s], buf[s + 1], buf[s + 2], buf[k..]);
        EncodeChunk(buf[s..k]);
        s := k;
      }
      var left := |buf| - s;
      ghost var w := Enc(Text(), lineBytes, []);
      FeedFew(w, buf[s..]);
      forall i | 0 <= i < left {
        spill[i] := buf[s + i];
      }
      nSpill := left;
      assert spill[..left] == buf[s..];
      assert E() == w.(spill := buf[s..]);
    }

    /** push_bytes (uuencode/uuencode.cc:204-233) */
    method PushBytes(buf: seq<byte>)
      requires Valid()
      modifies this`written, this`outbufLen, this`lineLen, this`lineBytes, this`nSpill, outbuf, spill
      ensures Valid() && E() == Feed(old(E()), buf)
    {
      ghost var e := E();
      if nSpill == 0 {
        PushGroups(buf);
        return;
      }
      var s := FillSpill(buf);
      FeedSpill(e, buf, s);
      if nSpill == CHUNK_SZ {
        nSpill := 0;  // after the chunk is encoded in the source
        EncodeChunk(spill[..CHUNK_SZ]);
        PushGroups(buf[s..]);
      }
    }
  }

  /** What read delivers before it delivers nothing. */
  function Stream(bufs: seq<seq<byte>>): seq<byte> {
    if bufs == [] || bufs[0] == [] then [] else bufs[0] + Stream(bufs[1..])
  }

  lemma StreamMore(e: Enc, bufs: seq<seq<byte>>)
    requires bufs != [] && bufs[0] != []
    ensures Feed(e, Stream(bufs)) == Feed(Feed(e, bufs[0]), Stream(bufs[1..]))
  {
    FeedConcat(e, bufs[0], Stream(bufs[1..]));
  }

  const PATH_MAX: nat := 4096

  /** The line of do_header (uuencode/uuencode.cc:235-248): snprintf keeps one byte less than its
      buffer has. mode is three octal digits. */
  function HeaderLine(mode: string, name: string): string {
    Front("begin-base64 " + mode + " " + name + "\n", PATH_MAX + 19)
  }

  /** It fits the output buffer exactly if the name is short enough; push_outbuf does not check. */
  lemma HeaderFits(mode: string, name: string)
    requires |mode| == 3
    ensures |HeaderLine(mode, name)| <= UUE_BUF_SZ <==> |name| <= 4078
    ensures |name| <= 4078 ==> HeaderLine(mode, name) == "begin-base64 " + mode + " " + name + "\n"
    ensures HeaderLine(mode, name) <= "begin-base64 " + mode + " " + name + "\n"
    ensures |HeaderLine(mode, name)| == if |name| <= 4097 then |name| + 18 else 4115
  {
    assert |"begin-base64 " + mode + " " + name + "\n"| == |name| + 18;
  }

  /** do_encode (uuencode/uuencode.cc:250-288): whatever the sizes of the reads, the output is the
      header line, the lines of the encoding, and the end mark. A name that is too long is excluded,
      see HeaderFits. */
  method DoEncode(mode: string, name: string, bufs: seq<seq<byte>>) returns (written: string)
    requires |mode| == 3 && |name| <= 4078
    ensures written == "begin-base64 " + mode + " " + name + "\n" + Wrapped(Stream(bufs)) + "====\n"
  {
    var e := new Encoder();
    var header := HeaderLine(mode, name);
    HeaderFits(mode, name);
    e.PushOutbuf(header);
    assert "" + header == header;
    ghost var start := Enc(header, 0, []);
    TextIsWrapped(header, Stream(bufs));
    assert bufs[0..] == bufs && e.spill[..0] == [];
    var k := 0;
    while k < |bufs| && bufs[k] != []
      invariant k <= |bufs| && e.Valid() && fresh(e) && fresh(e.outbuf) && fresh(e.spill)
      invariant Feed(e.E(), Stream(bufs[k..])) == Feed(start, Stream(bufs))
    {
      assert bufs[k..][1..] == bufs[k + 1..];
      StreamMore(e.E(), bufs[k..]);
      e.PushBytes(bufs[k]);
      k := k + 1;
    }
    assert Stream(bufs[k..]) == [];
    e.FlushLastLine();
    e.PushOutbuf("====\n");
    e.FlushOutbuf();
    written := e.written;
  }

  /** Fewer bytes than a group go to the spill buffer. */
  lemma FeedFew(e: Enc, s: seq<byte>)
    requires e.spill == [] && |s| < CHUNK_SZ
    ensures Feed(e, s) == e.(spill := s)
  {
    if |s| == 1 {
      assert s == [] + [s[0]] && s[1..] == [];
    } else if |s| == 2 {
      var t := s[1..];
      assert t == [s[1]] && t[1..] == [] && [] + [s[0]] + [s[1]] == s;
      assert Feed(e, s) == Feed(FeedByte(e, s[0]), t) == FeedByte(FeedByte(e, s[0]), s[1]);
    }
  }

  lemma FeedFill(e: Enc, t: seq<byte>)
    requires 0 < |e.spill| < CHUNK_SZ && |e.spill| + |t| <= CHUNK_SZ
    ensures var g := e.spill + t;
            Feed(e, t) == if |g| < CHUNK_SZ then e.(spill := g) else Chunk(e.(spill := []), g[0], g[1], g[2])
  {
    assert e.spill + [] == e.spill;
    if |t| == 1 {
      assert t == [t[0]] && t[1..] == [];
    } else if |t| == 2 {
      var u := t[1..];
      assert u == [t[1]] && u[1..] == [] && e.spill + [t[0]] + [t[1]] == e.spill + t;
      assert Feed(e, t) == Feed(FeedByte(e, t[0]), u) == FeedByte(FeedByte(e, t[0]), t[1]);
    }
  }

  lemma FeedSpill(e: Enc, buf: seq<byte>, s: nat)
    requires s <= |buf| && 0 < |e.spill| < CHUNK_SZ && |e.spill| + s <= CHUNK_SZ
    ensures |e.spill| + s < CHUNK_SZ ==> Feed(e, buf[..s]) == e.(spill := e.spill + buf[..s])
    ensures |e.spill| + s == CHUNK_SZ ==>
              var g := e.spill + buf[..s];
              Feed(e, buf) == Feed(Chunk(e.(spill := []), g[0], g[1], g[2]), buf[s..])
  {
    FeedConcat(e, buf[..s], buf[s..]);
    CutAt(buf, s);
    FeedFill(e, buf[..s]);
  }

  /** The shifts and masks of encode_chunk; the bits that are or-ed do not overlap. */
  method FourSymbols(s: seq<byte>) returns (c: string)
    requires |s| == 3
    ensures c == Quad(s[0], s[1], s[2])
  {
    var x: nat, y: nat, z: nat := s[0], s[1], s[2];
    var c0, c1, c2, c3 := x / 4 % 64, x * 16 % 64 + y / 16 % 16, y * 4 % 64 + z / 64 % 4, z % 64;
    SixBits(s[0], s[1], s[2]);
    TableIsAlphabet(c0);
    TableIsAlphabet(c1);
    TableIsAlphabet(c2);
    TableIsAlphabet(c3);
    c := [TBL_BASE64[c0], TBL_BASE64[c1], TBL_BASE64[c2], TBL_BASE64[c3]];
  }

  /** The shifts and masks give the digits of the group. */
  lemma SixBits(a: byte, b: byte, c: byte)
    ensures var n := Group(a, b, c);
            && a / 4 % 64 == Digit(n, 0)
            && (a as nat) * 16 % 64 + b / 16 % 16 == Digit(n, 1)
            && (b as nat) * 4 % 64 + c / 64 % 4 == Digit(n, 2)
            && c % 64 == Digit(n, 3)
  {
    Digits(a, b, c);
    MaskedShift(a);
    MaskedShift(b);
  }

  lemma MaskedShift(x: nat)
    ensures x * 16 % 64 == x % 4 * 16 && x * 4 % 64 == x % 16 * 4
  {
    Over64(x / 4, x % 4 * 16);
    Over64(x / 16, x % 16 * 4);
  }

  /** The symbols for one or two bytes left over (uuencode/uuencode.cc:163-173). */
  method LastSymbols(s: seq<byte>) returns (c: string)
    requires |s| == 1 || |s| == 2
    ensures c == Last(s)
  {
    var c0: nat := s[0] / 4;
    TableIsAlphabet(c0);
    if |s| == 1 {
      var c1: nat := s[0] % 4 * 16;
      TableIsAlphabet(c1);
      Digits(s[0], 0, 0);
      c := [TBL_BASE64[c0], TBL_BASE64[c1], '=', '='];
    } else {
      var c1: nat, c2: nat := s[0] % 4 * 16 + s[1] / 16, s[1] % 16 * 4;
      TableIsAlphabet(c1);
      TableIsAlphabet(c2);
      Digits(s[0], s[1], 0);
      c := [TBL_BASE64[c0], TBL_BASE64[c1], TBL_BASE64[c2], '='];
    }
  }
}
