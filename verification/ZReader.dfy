/** The read half of struct s_zstate (compress/zopen.cc:458-621): prefix and suffix tables, an
    output stack, and resumable reads. */
module ZReader {
  import opened Bits
  import opened ZPack
  import opened ZSpec
  import opened ZSim
  import opened ZDecode
  import opened Seqs

  /** zs_fp, zs_gbuf, zs_roffset, zs_size, zs_n_bits, zs_maxcode and zs_clear_flg. */
  class BitReader {
    var rest: seq<byte>
    var roffset: nat
    var size: int
    var nBits: nat
    var maxCode: nat
    var clearFlg: bool
    const gbuf: array<byte>

    ghost function S(): Src
      reads this, gbuf
    {
      Src(rest, gbuf[..], roffset, size)
    }

    ghost function W(): Width
      reads this
    {
      Width(nBits, maxCode)
    }

    constructor (file: seq<byte>)
      ensures rest == file && gbuf.Length == BITS && gbuf[..] == seq(BITS, i => 0) && fresh(gbuf)
      ensures roffset == 0 && size == 0 && !clearFlg
    {
      rest, roffset, size, nBits, maxCode, clearFlg := file, 0, 0, 0, 0, false;
      gbuf := new byte[BITS](i => 0);
    }

    method SkipHeader()
      requires |rest| >= 3
      modifies this`rest, this`nBits, this`maxCode
      ensures rest == old(rest)[3..] && W() == INIT_WIDTH
    {
      rest := rest[3..];
      nBits := INIT_BITS;
      maxCode := Pow2(nBits) - 1;
      SmallPowers();
    }

    /** Lines 579-589: the width the next code has. */
    method NextCodeWidth(maxBits: nat, freeEnt: nat, ghost d: Dec)
      requires d.maxBits == maxBits && d.freeEnt == freeEnt && d.w == W() && d.clearFlg == clearFlg
      modifies this`nBits, this`maxCode, this`clearFlg
      ensures W() == NextWidth(d) && !clearFlg
    {
      if freeEnt > maxCode {
        nBits := nBits + 1;
        if nBits == maxBits {
          maxCode := Pow2(maxBits);
        } else {
          maxCode := Pow2(nBits) - 1;
        }
      }
      if clearFlg {
        nBits := INIT_BITS;
        maxCode := Pow2(nBits) - 1;
        clearFlg := false;
        SmallPowers();
      }
    }

    /** Lines 590-595: read up to nBits bytes; false at end of file. */
    method Fill() returns (ok: bool)
      requires gbuf.Length == BITS && 9 <= nBits <= BITS
      modifies this`rest, this`roffset, this`size, gbuf
      ensures ok <==> old(rest) != []
      ensures var got := Min(nBits, |old(rest)|);
              ok ==> S() == Src(old(rest)[got..], old(rest)[..got] + old(gbuf[..])[got..], 0, 8 * got - (nBits - 1))
    {
      size := Min(nBits, |rest|);
      if size <= 0 {
        return false;
      }
      forall i | 0 <= i < size {
        gbuf[i] := rest[i];
      }
      rest := rest[size..];
      roffset := 0;
      size := 8 * size - (nBits - 1);
      return true;
    }

    /** The load half of getcode (compress/zopen.cc:597-620). The source also reads the byte after
        the last one when no bits of it are wanted. */
    method LoadCode() returns (gcode: nat)
      requires gbuf.Length == BITS && 9 <= nBits <= BITS && roffset + nBits <= 8 * BITS
      modifies this`roffset
      ensures gcode == GetBits(gbuf[..], old(roffset), nBits) && roffset == old(roffset) + nBits
    {
      var bp, r := roffset / 8, roffset % 8;
      gcode := Shr(gbuf[bp], r);
      var bits, sh := nBits - (8 - r), 8 - r;
      if bits >= 8 {
        CatAssoc(gcode, sh, gbuf[bp + 1], 8, if bits > 8 then Low(gbuf[bp + 2], bits - 8) else 0);
        gcode := Cat(gcode, sh, gbuf[bp + 1]);
        bp, sh, bits := bp + 1, sh + 8, bits - 8;
      }
      ShlZero(sh);
      ShlZero(8);
      if bits > 0 {
        gcode := Cat(gcode, sh, Low(gbuf[bp + 1], bits));
      }
      roffset := roffset + nBits;
    }

    /** getcode (compress/zopen.cc:565-621). */
    method GetCode(maxBits: nat, freeEnt: nat, ghost d: Dec) returns (gcode: int)
      requires gbuf.Length == BITS && DecOk(d) && SrcOk(d, S())
      requires d.maxBits == maxBits && d.freeEnt == freeEnt && d.w == W() && d.clearFlg == clearFlg
      modifies this, gbuf
      ensures AtEof(d, old(S())) ==> gcode == -1
      ensures !AtEof(d, old(S())) ==> gcode == CodeAt(d, old(S())) && S() == Past(d, old(S()))
      ensures !AtEof(d, old(S())) ==> W() == NextWidth(d) && !clearFlg
    {
      ReadyFits(d, S());
      if clearFlg || roffset >= size || freeEnt > maxCode {
        NextCodeWidth(maxBits, freeEnt, d);
        var ok := Fill();
        if !ok {
          return -1;
        }
      }
      gcode := LoadCode();
    }
  }

  function Rev(s: seq<byte>): seq<byte> {
    if s == [] then [] else [s[|s| - 1]] + Rev(s[..|s| - 1])
  }

  lemma RevSnoc(s: seq<byte>, b: byte)
    ensures Rev(s + [b]) == [b] + Rev(s)
  {
    assert (s + [b])[..|s|] == s;
  }

  /** Codes fit an unsigned short. */
  const CODES: nat := 65536

  /** The room in zs_htab after the suffixes, 69001 longs of 8 bytes less 2^16 (compress/zopen.cc:195-197). */
  const STACK_ROOM: nat := 8 * 69001 - CODES

  /** tab_prefix, tab_suffix and de_stack. The source overlays them on the writer's arrays. */
  class StringTable {
    const prefix: array<nat>
    const suffix: array<byte>
    const stack: array<byte>
    var stackp: nat

    ghost predicate Shape()
      reads this
    {
      prefix.Length == suffix.Length == CODES && stack.Length == STACK_ROOM && stackp <= STACK_ROOM
    }

    /** Every entry is a shorter string and one more byte, and chains go down from 257 up. */
    ghost predicate Entry(tab: seq<seq<byte>>, k: nat)
      requires prefix.Length == suffix.Length == CODES && k < |tab| <= CODES - FIRST
      reads prefix, suffix
    {
      var c := FIRST + k;
      IsCode(c, prefix[c]) && tab[k] == StrIn(tab, prefix[c]) + [suffix[c]]
    }

    ghost predicate Holds(tab: seq<seq<byte>>)
      requires prefix.Length == suffix.Length == CODES
      reads prefix, suffix
    {
      && |tab| <= CODES - FIRST
      && (forall c :: 0 <= c < 256 ==> suffix[c] == c)
      && (forall k :: 0 <= k < |tab| ==> Entry(tab, k))
    }

    constructor ()
      ensures Shape() && stackp == 0 && fresh(prefix) && fresh(suffix) && fresh(stack)
    {
      prefix := new nat[CODES];
      suffix := new byte[CODES](i => 0);
      stack := new byte[STACK_ROOM](i => 0);
      stackp := 0;
    }

    /** Lines 497-500. */
    method InitLiterals()
      requires Shape()
      modifies prefix, suffix
      ensures Holds([])
    {
      var code: int := 255;
      while code >= 0
        invariant -1 <= code <= 255
        invariant forall c :: code < c < 256 ==> suffix[c] == c
      {
        prefix[code] := 0;
        suffix[code] := code;
        code := code - 1;
      }
    }

    /** Lines 515-516. The suffixes of the single bytes stay. */
    method ClearPrefixes(ghost tab: seq<seq<byte>>)
      requires Shape() && Holds(tab)
      modifies prefix
      ensures Holds([])
    {
      var code: int := 255;
      while code >= 0
        invariant -1 <= code <= 255
      {
        prefix[code] := 0;
        code := code - 1;
      }
    }

    method Push(b: byte)
      requires Shape() && stackp < STACK_ROOM
      modifies this, stack
      ensures Shape() && stackp == old(stackp) + 1 && Rev(stack[..stackp]) == [b] + Rev(old(stack[..stackp]))
    {
      RevSnoc(stack[..stackp], b);
      stack[stackp] := b;
      stackp := stackp + 1;
      assert stack[..stackp] == old(stack[..stackp]) + [b];
    }

    /** Lines 531-535: the string of a code, last byte first, onto the stack. */
    method Expand(start: nat, ghost tab: seq<seq<byte>>) returns (finchar: byte)
      requires Shape() && Holds(tab) && IsCode(FIRST + |tab|, start) && stackp <= 1
      modifies this, stack
      ensures Shape() && Holds(tab) && stackp > 0
      ensures Rev(stack[..stackp]) == StrIn(tab, start) + Rev(old(stack[..stackp]))
      ensures StrIn(tab, start) != [] && finchar == StrIn(tab, start)[0]
      ensures stackp <= old(stackp) + start + 1
    {
      var code: nat := start;
      ghost var below := Rev(stack[..stackp]);
      while code >= 256
        invariant Shape() && Holds(tab) && IsCode(FIRST + |tab|, code) && code <= start
        invariant stackp + code <= old(stackp) + start
        invariant StrIn(tab, code) + Rev(stack[..stackp]) == StrIn(tab, start) + below
        decreases code
      {
        assert Entry(tab, code - FIRST);
        Assoc(StrIn(tab, prefix[code]), [suffix[code]], Rev(stack[..stackp]));
        Push(suffix[code]);
        code := prefix[code];
      }
      finchar := suffix[code];
      Push(finchar);
      assert start >= 256 ==> Entry(tab, start - FIRST);
      assert (StrIn(tab, start) + below)[0] == finchar;
    }

    /** Lines 545-549: the entry for code, the previous string and the first byte of the new one.
        Entry 256, made once after each CLEAR, is never looked up. */
    method AddEntry(code: nat, oldcode: nat, finchar: byte, ghost tab: seq<seq<byte>>)
      requires Shape() && Holds(tab) && 256 <= code < CODES
      requires if code == 256 then tab == [] else |tab| == code - FIRST && IsCode(code, oldcode)
      modifies prefix, suffix
      ensures code == 256 ==> Holds([])
      ensures code > 256 ==> Holds(tab + [StrIn(tab, oldcode) + [finchar]])
    {
      prefix[code] := oldcode;
      suffix[code] := finchar;
      if code > 256 {
        ghost var tab' := tab + [StrIn(tab, oldcode) + [finchar]];
        forall k | 0 <= k < |tab'| ensures Entry(tab', k) {
          if k < |tab| {
            assert old(Entry(tab, k));
          }
        }
      }
    }

    /** *--stackp */
    method Pop() returns (b: byte)
      requires Shape() && stackp > 0
      modifies this
      ensures Shape() && stackp == old(stackp) - 1
      ensures Rev(stack[..old(stackp)]) == [b] + Rev(stack[..stackp])
    {
      stackp := stackp - 1;
      b := stack[stackp];
      assert stack[..stackp + 1] == stack[..stackp] + [b];
      RevSnoc(stack[..stackp], b);
    }
  }

  /** One data code, with the new entry spelled out; the code has become an entry of the table. */
  lemma DecNext(d: Dec, code: nat)
    requires DecOk(d) && d.prev != [] && LegalCode(d, code) && !IsClear(d, code) && CodeStr(d, code) != []
    ensures var d', s := DecCode(d, code), CodeStr(d, code);
            && DecOk(d') && d'.prev == s && !d'.clearFlg && d'.w == NextWidth(d) && d'.maxBits == d.maxBits
            && d'.freeEnt == (if d.freeEnt < Pow2(d.maxBits) then d.freeEnt + 1 else d.freeEnt)
            && d'.tab == (if FIRST <= d.freeEnt < Pow2(d.maxBits) then d.tab + [d.prev + [s[0]]] else d.tab)
            && (d'.freeEnt >= FIRST ==> IsCode(d'.freeEnt, code) && s == StrIn(d'.tab, code))
  {
    DecCodeOk(d, code);
    var s := CodeStr(d, code);
    assert s[..1] == [s[0]] && d.prev[..1] == [d.prev[0]];
  }

  datatype ZState = S_START | S_MIDDLE | S_EOF

  /** The stream returned by compress_zopen for reading. */
  class Decompressor {
    var state: ZState
    var maxBits: nat
    var freeEnt: nat
    var finchar: byte
    var oldcode: nat
    var incode: nat
    const bits: BitReader
    const tbl: StringTable
    ghost var dec: Dec         // the decoder before incode, as a value
    ghost var todo: seq<byte>  // what the codes not yet read stand for

    constructor (file: seq<byte>)
      ensures state == S_START && Allocated() && bits.rest == file && !bits.clearFlg
      ensures bits.roffset == 0 && bits.size == 0 && bits.gbuf[..] == seq(BITS, i => 0) && tbl.stackp == 0
      ensures fresh(bits) && fresh(bits.gbuf)
      ensures fresh(tbl) && fresh(tbl.prefix) && fresh(tbl.suffix) && fresh(tbl.stack)
    {
      state, maxBits, freeEnt, finchar, oldcode, incode := S_START, 0, 0, 0, 0, 0;
      bits := new BitReader(file);
      tbl := new StringTable();
      dec, todo := DecStart(1), [];
    }

    ghost predicate Allocated()
      reads tbl
    {
      bits.gbuf.Length == BITS && tbl.Shape()
    }

    /** The fields agree with dec, which has nothing pending. */
    ghost predicate Settled()
      reads this, bits, bits.gbuf, tbl, tbl.prefix, tbl.suffix
    {
      && Allocated()
      && DecOk(dec) && dec.prev != [] && dec.maxBits == maxBits && dec.freeEnt == freeEnt
      && dec.w == bits.W() && dec.clearFlg == bits.clearFlg
      && tbl.Holds(dec.tab) && finchar == dec.prev[0]
      && (freeEnt >= FIRST ==> IsCode(freeEnt, oldcode) && dec.prev == StrIn(dec.tab, oldcode))
      && SrcOk(dec, bits.S()) && Decodable(dec, bits.S()) && todo == DecodeFrom(dec, bits.S())
    }

    /** The string of incode is on the stack, wholly or in part, and its entry is still to be made. */
    ghost predicate Loaded()
      reads this, bits, bits.gbuf, tbl, tbl.prefix, tbl.suffix
    {
      && Allocated()
      && DecOk(dec) && dec.prev != [] && dec.maxBits == maxBits && dec.freeEnt == freeEnt
      && NextWidth(dec) == bits.W() && !bits.clearFlg
      && LegalCode(dec, incode) && !IsClear(dec, incode) && CodeStr(dec, incode) != []
      && tbl.Holds(dec.tab) && finchar == CodeStr(dec, incode)[0]
      && (freeEnt >= FIRST ==> IsCode(freeEnt, oldcode) && dec.prev == StrIn(dec.tab, oldcode))
      && DecOk(DecCode(dec, incode))
      && SrcOk(DecCode(dec, incode), bits.S()) && Decodable(DecCode(dec, incode), bits.S())
      && todo == DecodeFrom(DecCode(dec, incode), bits.S())
    }

    /** What is on the stack, in the order it comes off. */
    ghost function Stacked(): seq<byte>
      requires Allocated()
      reads tbl, tbl.stack
    {
      Rev(tbl.stack[..tbl.stackp])
    }

    /** Lines 545-549: make the entry, while there is room. */
    method MakeEntry()
      requires Loaded()
      modifies this`freeEnt, tbl.prefix, tbl.suffix
      ensures freeEnt == DecCode(dec, incode).freeEnt && tbl.Holds(DecCode(dec, incode).tab)
    {
      SmallPowers();
      Pow2Mono(maxBits, 16);
      DecNext(dec, incode);
      if freeEnt < Pow2(maxBits) {
        tbl.AddEntry(freeEnt, oldcode, finchar, dec.tab);
        freeEnt := freeEnt + 1;
      }
    }

    /** Lines 545-552: make the entry, remember the code. */
    method Settle()
      requires Loaded()
      modifies this, tbl.prefix, tbl.suffix
      ensures Settled() && todo == old(todo) && state == old(state)
    {
      DecNext(dec, incode);
      MakeEntry();
      oldcode := incode;
      dec := DecCode(dec, incode);
    }

    /** The code has been read from the input, and nothing else has been done about it. */
    ghost predicate Got(code: nat)
      reads this, bits, bits.gbuf, tbl, tbl.prefix, tbl.suffix
    {
      && Allocated()
      && DecOk(dec) && dec.prev != [] && dec.maxBits == maxBits && dec.freeEnt == freeEnt
      && NextWidth(dec) == bits.W() && !bits.clearFlg
      && LegalCode(dec, code)
      && tbl.Holds(dec.tab) && finchar == dec.prev[0]
      && (freeEnt >= FIRST ==> IsCode(freeEnt, oldcode) && dec.prev == StrIn(dec.tab, oldcode))
      && DecOk(DecCode(dec, code))
      && SrcOk(DecCode(dec, code), bits.S()) && Decodable(DecCode(dec, code), bits.S())
      && todo == DecodeFrom(DecCode(dec, code), bits.S())
    }

    /** Lines 524-535: the string of a code onto the stack; the KwKwK case. */
    method PushString(gcode: nat) returns (first: byte)
      requires Got(gcode) && !IsClear(dec, gcode) && tbl.stackp == 0
      modifies tbl, tbl.stack
      ensures Allocated() && tbl.Holds(dec.tab) && tbl.stackp > 0
      ensures Stacked() == CodeStr(dec, gcode) != [] && first == CodeStr(dec, gcode)[0]
    {
      var code := gcode;
      assert dec.prev[..1] == [dec.prev[0]];
      SmallPowers();
      Pow2Mono(maxBits, 16);
      if code >= freeEnt {
        tbl.Push(finchar);
        code := oldcode;
      }
      first := tbl.Expand(code, dec.tab);
    }

    /** Lines 522-535: remember the code, then put its string on the stack. */
    method Unpack(gcode: nat)
      requires Got(gcode) && !IsClear(dec, gcode) && tbl.stackp == 0
      modifies this`finchar, this`incode, tbl, tbl.stack
      ensures Loaded() && tbl.stackp > 0 && Stacked() == CodeStr(dec, gcode)
    {
      finchar := PushString(gcode);
      incode := gcode;
    }

    method GetOne() returns (code: int)
      requires Settled()
      modifies this`todo, bits, bits.gbuf
      ensures code == -1 ==> old(todo) == []
      ensures code != -1 ==> code >= 0 && Got(code) && old(todo) == DecOut(dec, code) + todo
    {
      ghost var s := bits.S();
      code := bits.GetCode(maxBits, freeEnt, dec);
      if code != -1 {
        PastOk(dec, s);
        todo := DecodeFrom(DecCode(dec, code), bits.S());
      }
    }

    /** Lines 515-518. */
    method Clear()
      requires Got(CLEAR) && IsClear(dec, CLEAR)
      modifies this`freeEnt, this`dec, bits`clearFlg, tbl.prefix
      ensures Settled() && dec == old(DecCode(dec, CLEAR))
    {
      tbl.ClearPrefixes(dec.tab);
      bits.clearFlg := true;
      freeEnt := FIRST - 1;
      dec := DecCode(dec, CLEAR);
    }

    /** After a CLEAR the very next code is taken as it is. */
    method ClearAndGetOne() returns (code: int)
      requires Got(CLEAR) && IsClear(dec, CLEAR)
      modifies this`freeEnt, this`dec, this`todo, bits, bits.gbuf, tbl.prefix
      ensures code == -1 ==> old(todo) == []
      ensures code != -1 ==> code >= 0 && Got(code) && !IsClear(dec, code) && old(todo) == DecOut(dec, code) + todo
    {
      Clear();
      code := GetOne();
    }

    /** One code out of the input, past a CLEAR if there is one (compress/zopen.cc:512-522). */
    method NextCode() returns (code: int)
      requires Settled()
      modifies this`freeEnt, this`dec, this`todo, bits, bits.gbuf, tbl.prefix
      ensures code == -1 ==> old(todo) == []
      ensures code != -1 ==> code >= 0 && Got(code) && !IsClear(dec, code) && old(todo) == CodeStr(dec, code) + todo
    {
      code := GetOne();
      if code == CLEAR {
        code := ClearAndGetOne();
      }
    }

    /** Lines 538-542: bytes off the stack until it is empty or the caller has enough. */
    method Drain(count: nat) returns (out: seq<byte>)
      requires Loaded()
      modifies tbl
      ensures Loaded() && |out| <= count && (tbl.stackp == 0 || |out| == count)
      ensures old(tbl.stackp) > 0 && count > 0 ==> |out| > 0
      ensures old(Stacked()) == out + Stacked()
    {
      out := [];
      ghost var all := Stacked();
      while tbl.stackp > 0 && |out| < count
        invariant tbl.Shape() && tbl.stackp <= old(tbl.stackp) && |out| <= count
        invariant tbl.stackp == old(tbl.stackp) || |out| > 0
        invariant all == out + Stacked()
      {
        var b := tbl.Pop();
        Assoc(out, [b], Stacked());
        out := out + [b];
      }
    }

    ghost predicate Valid()
      reads this, bits, bits.gbuf, tbl, tbl.prefix, tbl.suffix
    {
      && Allocated()
      && match state
         case S_START =>
           && bits.S() == Src(bits.rest, seq(BITS, i => 0), 0, 0) && !bits.clearFlg && tbl.stackp == 0
           && (BadHeader(bits.rest) || WellFormed(bits.rest))
         case S_MIDDLE => Loaded() && tbl.stackp > 0
         case S_EOF => true
    }

    /** The bytes the stream has yet to deliver. */
    ghost function Remaining(): seq<byte>
      requires Valid()
      reads this, bits, bits.gbuf, tbl, tbl.prefix, tbl.suffix, tbl.stack
    {
      match state
      case S_START => if BadHeader(bits.rest) then [] else ReadBack(bits.rest).value
      case S_MIDDLE => Stacked() + todo
      case S_EOF => []
    }

    /** Lines 480-501: the header and the tables. */
    method ReadHeader()
      requires Valid() && state == S_START && !BadHeader(bits.rest)
      modifies this, bits, tbl.prefix, tbl.suffix
      ensures state == S_MIDDLE && Allocated() && tbl.Holds([]) && tbl.stackp == 0
      ensures dec == DecStart(maxBits) && DecOk(dec) && SrcOk(dec, bits.S()) && Decodable(dec, bits.S())
      ensures todo == DecodeFrom(dec, bits.S()) == old(Remaining())
      ensures freeEnt == FIRST && bits.W() == INIT_WIDTH && !bits.clearFlg
    {
      var m := MaxBitsOf(bits.rest);
      bits.SkipHeader();
      tbl.InitLiterals();
      state, freeEnt, maxBits := S_MIDDLE, FIRST, m;
      dec := DecStart(m);
      todo := DecodeFrom(dec, bits.S());
    }

    /** Lines 503-508: the first code is a byte. */
    method FirstCode() returns (code: int)
      requires Allocated() && tbl.Holds([]) && DecOk(dec) && dec == DecStart(maxBits)
      requires freeEnt == FIRST && bits.W() == INIT_WIDTH && !bits.clearFlg
      requires SrcOk(dec, bits.S()) && Decodable(dec, bits.S()) && todo == DecodeFrom(dec, bits.S())
      modifies this`finchar, this`oldcode, this`dec, this`todo, bits, bits.gbuf
      ensures code == -1 ==> old(todo) == []
      ensures code != -1 ==> 0 <= code < 256 && Settled() && old(todo) == [code as byte] + todo
    {
      ghost var s := bits.S();
      code := bits.GetCode(maxBits, freeEnt, dec);
      if code != -1 {
        PastOk(dec, s);
        finchar, oldcode := code, code;
        dec := DecCode(dec, code);
        todo := DecodeFrom(dec, bits.S());
      }
    }

    /** Lines 480-508. */
    method Begin() returns (code: int)
      requires Valid() && state == S_START && !BadHeader(bits.rest)
      modifies this, bits, bits.gbuf, tbl.prefix, tbl.suffix
      ensures state == S_MIDDLE && tbl.stackp == 0
      ensures code == -1 ==> old(Remaining()) == []
      ensures code != -1 ==> 0 <= code < 256 && Settled() && old(Remaining()) == [code as byte] + todo
    {
      ReadHeader();
      code := FirstCode();
    }

    /** Lines 512-535: the next code's string on the stack, or end of file. */
    method Fetch() returns (eof: bool)
      requires Settled() && tbl.stackp == 0
      modifies this`freeEnt, this`dec, this`todo, this`finchar, this`incode, bits, bits.gbuf, tbl, tbl.prefix, tbl.stack
      ensures eof ==> Allocated() && old(todo) == []
      ensures !eof ==> Loaded() && tbl.stackp > 0 && old(todo) == Stacked() + todo
    {
      var code := NextCode();
      eof := code == -1;
      if !eof {
        Unpack(code);
      }
    }

    /** Lines 538-552: the stack out to the caller, and the entry made once it is empty. */
    method Deliver(count: nat) returns (out: seq<byte>)
      requires Loaded() && tbl.stackp > 0
      modifies this, tbl, tbl.prefix, tbl.suffix
      ensures |out| <= count && state == old(state)
      ensures if tbl.stackp == 0 then Settled() && |out| > 0 else Loaded() && |out| == count
      ensures Allocated() && old(Stacked() + todo) == out + (Stacked() + todo)
    {
      out := Drain(count);
      Assoc(out, Stacked(), todo);
      if tbl.stackp == 0 {
        Settle();
      }
    }

    /** The loop (compress/zopen.cc:512-553), got having been delivered before. A string stays on
        the stack when the caller wants no more of it. */
    method Loop(num: nat, got: seq<byte>) returns (out: seq<byte>)
      requires Settled() && tbl.stackp == 0 && state == S_MIDDLE && |got| <= num
      modifies this, bits, bits.gbuf, tbl, tbl.prefix, tbl.suffix, tbl.stack
      ensures Valid() && state != S_START && |out| <= num && (|out| == num || state == S_EOF)
      ensures got + old(todo) == out + Remaining()
    {
      out := got;
      ghost var all := got + todo;
      while true
        invariant Settled() && tbl.stackp == 0 && state == S_MIDDLE && |out| <= num
        invariant all == out + todo
        decreases num - |out|
      {
        var eof := Fetch();
        if eof {
          state := S_EOF;
          return;
        }
        var more := Deliver(num - |out|);
        Assoc(out, more, Stacked() + todo);
        out := out + more;
        if tbl.stackp > 0 {
          return;
        }
        assert Stacked() == [] && [] + todo == todo;
      }
    }

    /** compress_zread (compress/zopen.cc:458-556). rc -1 is the EINVAL of a bad header. A file with
        a header and no code, which no encoder that records its mode writes, leaves nothing to resume. */
    method ZRead(num: nat) returns (rc: int, out: seq<byte>)
      requires Valid()
      modifies this, bits, bits.gbuf, tbl, tbl.prefix, tbl.suffix, tbl.stack
      ensures rc == -1 <==> num > 0 && old(state) == S_START && BadHeader(old(bits.rest))
      ensures rc != -1 ==> rc == |out| && out == old(Remaining())[..Min(num, |old(Remaining())|)]
      ensures rc > 0 ==> state != S_START
      ensures old(state) != S_START ==> state != S_START
      ensures rc != -1 && (rc > 0 || num == 0 || old(state) != S_START) ==>
                Valid() && Remaining() == old(Remaining())[rc..]
    {
      out := [];
      if num == 0 || state == S_EOF {
        return 0, [];
      }
      if state == S_START {
        if BadHeader(bits.rest) {
          return -1, [];
        }
        var code := Begin();
        if code == -1 {
          return 0, [];
        }
        out := [code];
      } else {
        out := Deliver(num);
        if tbl.stackp > 0 {
          return num, out;
        }
        assert Stacked() == [] && [] + todo == todo;
      }
      out := Loop(num, out);
      rc := |out|;
    }
  }
}
