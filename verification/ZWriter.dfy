/** The write half of struct s_zstate and the functions that update it (compress/zopen.cc:107-147,
    :239-450, :623-721). The struct's fields are spread over three objects, the bit buffer, the
    hash table and the rest. Files are the bytes handed to fwrite, which always succeeds. */
module ZWriter {
  import opened Bits
  import opened ZPack
  import opened ZSpec
  import opened ZHash

  /** zs_fp, zs_n_bits, zs_maxcode, zs_offset, zs_bytes_out, zs_clear_flg and zs_buf. */
  class BitWriter {
    var file: seq<byte>
    var nBits: nat
    var maxCode: nat
    var offset: nat
    var bytesOut: nat
    var clearFlg: bool
    const buf: array<byte>
    const maxBits: nat

    ghost function P(): Packer
      reads this, buf
    {
      Packer(Width(nBits, maxCode), offset, buf[..], file, bytesOut)
    }

    constructor (maxBits: nat)
      ensures this.maxBits == maxBits && file == [] && !clearFlg && fresh(buf)
      ensures buf.Length == BITS && buf[..] == seq(BITS, i => 0)
    {
      this.maxBits := maxBits;
      file, nBits, maxCode, offset, bytesOut, clearFlg := [], 0, 0, 0, 0, false;
      buf := new byte[BITS](i => 0);
    }

    /** The store half of output (compress/zopen.cc:380-400). */
    method StoreCode(code: nat)
      requires buf.Length == BITS && 9 <= nBits <= BITS && offset + nBits <= 8 * BITS
      modifies buf
      ensures buf[..] == PutBits(old(buf[..]), offset, nBits, code)
    {
      var bp, r := offset / 8, offset % 8;
      PutBytes(buf[..], offset, nBits, code);
      FirstByte(Low(buf[bp], r), r, code);
      buf[bp] := Low(buf[bp], r) + FirstHunk(r, code);
      bp := bp + 1;
      var bits, rest := nBits - (8 - r), Shr(code, 8 - r);
      if bits >= 8 {
        buf[bp] := rest % 256;
        bp, rest, bits := bp + 1, rest / 256, bits - 8;
      }
      if bits > 0 {
        buf[bp] := rest % 256;
      }
    }

    /** Store a code and write the buffer when it is full (compress/zopen.cc:380-411). */
    method PutCode(code: nat)
      requires buf.Length == BITS && PackerOk(maxBits, P())
      modifies this, buf
      ensures P() == Put(maxBits, old(P()), code) && clearFlg == old(clearFlg)
    {
      StoreCode(code);
      offset := offset + nBits;
      if offset == 8 * nBits {
        bytesOut := bytesOut + nBits;
        file := file + buf[..nBits];
        offset := 0;
      }
    }

    /** Write what is in the buffer, whole, and change the width (compress/zopen.cc:416-438). */
    method ChangeCodeWidth()
      requires buf.Length == BITS && PackerOk(maxBits, P())
      modifies this
      ensures P() == ChangeWidth(old(P()), if old(clearFlg) then INIT_WIDTH else Wider(maxBits, old(P()).w))
      ensures !clearFlg
    {
      if offset > 0 {
        file := file + buf[..nBits];
        bytesOut := bytesOut + nBits;
      }
      offset := 0;
      if clearFlg {
        nBits := INIT_BITS;
        maxCode := Pow2(nBits) - 1;
        clearFlg := false;
        SmallPowers();
      } else {
        nBits := nBits + 1;
        if nBits == maxBits {
          maxCode := Pow2(maxBits);
        } else {
          maxCode := Pow2(nBits) - 1;
        }
      }
    }

    /** output (compress/zopen.cc:370-450); ocode -1 is end of input. */
    method Output(ocode: int, freeEnt: nat)
      requires buf.Length == BITS && PackerOk(maxBits, P()) && freeEnt <= CodeLimit(maxBits)
      modifies this, buf
      ensures ocode >= 0 ==> P() == ZSpec.Output(maxBits, old(P()), freeEnt, old(clearFlg), ocode) && !clearFlg
      ensures ocode < 0 ==> P() == OutputEof(maxBits, old(P())) && clearFlg == old(clearFlg)
    {
      if ocode >= 0 {
        PutCode(ocode);
        if freeEnt > maxCode || clearFlg {
          ChangeCodeWidth();
        }
      } else {
        if offset > 0 {
          offset := BytesFor(offset);
          file := file + buf[..offset];
          bytesOut := bytesOut + offset;
        }
        offset := 0;
      }
    }

    /** The header and the first settings (compress/zopen.cc:259-273). */
    method Begin()
      requires buf.Length == BITS && 1 <= maxBits <= BITS && file == []
      modifies this
      ensures P() == Packer(INIT_WIDTH, 0, buf[..], Header(maxBits), 3) && !clearFlg
    {
      file := file + [0x1F, 0x9D];
      file := file + [0x80 + maxBits];
      offset, bytesOut, clearFlg := 0, 3, false;
      nBits := INIT_BITS;
      maxCode := Pow2(nBits) - 1;
      SmallPowers();
    }
  }

  /** zs_htab and zs_codetab, and the map from (prefix code, byte) to code they stand for. */
  class HashTable {
    const htab: array<int>
    const codetab: array<nat>
    const maxBits: nat
    ghost var dict: map<Pair, nat>
    ghost var used: set<nat>

    ghost predicate Valid()
      reads this, htab, codetab
    {
      htab.Length == codetab.Length == HSIZE && TableOk(htab[..], codetab[..], maxBits, dict, used)
    }

    constructor (maxBits: nat)
      ensures this.maxBits == maxBits && htab.Length == codetab.Length == HSIZE && fresh(htab) && fresh(codetab)
    {
      this.maxBits := maxBits;
      htab := new int[HSIZE];
      codetab := new nat[HSIZE];
    }

    /** cl_hash (compress/zopen.cc:651-681): sixteen slots a pass, then what is left one by one. */
    method ClHash()
      requires htab.Length == codetab.Length == HSIZE
      modifies this, htab
      ensures Valid() && dict == map[] && used == {}
    {
      var p := HSIZE;
      var i: int := HSIZE - 16;
      while i >= 0  // tested after each pass in the source; the first test can not fail
        invariant p == i + 16 >= 0 && p <= HSIZE
        invariant forall k :: p <= k < HSIZE ==> htab[k] == -1
      {
        forall k | p - 16 <= k < p {
          htab[k] := -1;
        }
        p, i := p - 16, i - 16;
      }
      i := i + 16;
      while i > 0
        invariant p == i >= 0 && p <= HSIZE
        invariant forall k :: p <= k < HSIZE ==> htab[k] == -1
      {
        p := p - 1;
        htab[p] := -1;
        i := i - 1;
      }
      dict, used := map[], {};
      TableEmpty(htab[..], codetab[..], maxBits);
    }

    /** A search for k has passed J slots in use by other keys and stands at an empty one. */
    ghost predicate EndsAt(k: Pair, i: nat, J: nat)
      reads htab
    {
      && htab.Length == HSIZE && k.0 < 65536
      && i == Probe(Hash(k), J) && htab[i] < 0 && Passes(htab[..], maxBits, k, J)
    }

    /** Lines 290-309: probe until a slot holds the code for k, or is empty. J counts the misses. */
    method Search(k: Pair) returns (i: nat, hit: bool, ghost J: nat)
      requires htab.Length == codetab.Length == HSIZE
      requires Searching(htab[..], codetab[..], maxBits, dict, used, k, 0)
      ensures i < HSIZE && (hit <==> k in dict)
      ensures hit ==> codetab[i] == dict[k]
      ensures !hit ==> EndsAt(k, i, J)
    {
      var fcode := Fcode(maxBits, k);
      J := SearchEnds(htab[..], codetab[..], maxBits, dict, used, k, 0);
      i := Hash(k);
      var disp := Disp(i);
      ghost var j := 0;
      while htab[i] != fcode && htab[i] >= 0
        invariant 0 <= j <= J && i == Probe(Hash(k), j)
        decreases J - j
      {
        i := Next(i, disp);
        j := j + 1;
      }
      hit := htab[i] == fcode;
    }

    /** Lines 315-316: the slot a missed search ended on takes the next code. */
    method Fill(k: Pair, i: nat, code: nat, ghost J: nat)
      requires Valid() && KeyOk(maxBits, k) && k !in dict
      requires EndsAt(k, i, J)
      modifies this, htab, codetab
      ensures Valid() && dict == old(dict)[k := code] && |used| == old(|used|) + 1
    {
      InsertIsRight(htab[..], codetab[..], maxBits, dict, used, k, J, code);
      ghost var h, ct := htab[..], codetab[..];
      codetab[i] := code;
      htab[i] := Fcode(maxBits, k);
      dict, used := dict[k := code], used + {i};
      assert htab[..] == h[i := Fcode(maxBits, k)] && codetab[..] == ct[i := code];
    }
  }

  /** The stream returned by compress_zopen for writing. */
  class Compressor {
    const mode: char           // zs_mode; nothing assigns it after the opener
    var started: bool          // zs_state: S_START or S_MIDDLE
    var freeEnt: nat
    var ratio: nat
    var checkpoint: nat
    var inCount: nat
    var ent: nat
    const maxBits: nat
    const bits: BitWriter
    const table: HashTable

    ghost function E(): Enc
      reads this, bits, bits.buf, table
    {
      Enc(maxBits, table.dict, freeEnt, ent, bits.P(), inCount, checkpoint, ratio)
    }

    /** The stream as a value: nothing written yet, or in the middle. */
    ghost function Model(): Writer
      reads this, bits, bits.buf, table
    {
      if started then Middle(E()) else Start(maxBits)
    }

    ghost predicate Allocated() {
      && 1 <= maxBits == bits.maxBits == table.maxBits <= BITS
      && bits.buf.Length == BITS && table.htab.Length == table.codetab.Length == HSIZE
    }

    ghost predicate Running()
      reads this`freeEnt, bits`clearFlg, table, table.htab, table.codetab
    {
      && Allocated() && !bits.clearFlg
      && table.Valid() && |table.used| + FIRST <= freeEnt
    }

    ghost predicate Valid()
      reads this, bits, bits.buf, table, table.htab, table.codetab
    {
      && Allocated()
      && if started then Running() && EncOk(E()) else bits.file == [] && bits.buf[..] == seq(BITS, i => 0)
    }

    /** compress_zopen for a mode and bits it accepts: zs_mode keeps the 0 of calloc
        (compress/zopen.cc:694-720). */
    constructor (b: nat)
      requires b <= BITS
      ensures Valid() && Model() == Start(if b == 0 then BITS else b) && mode == '\0'
      ensures fresh(bits) && fresh(bits.buf) && fresh(table) && fresh(table.htab) && fresh(table.codetab)
    {
      var m := if b == 0 then BITS else b;
      maxBits := m;
      bits := new BitWriter(m);
      table := new HashTable(m);
      mode, started := '\0', false;
      freeEnt, ratio, checkpoint, inCount, ent := 0, 0, CHECK_GAP, 1, 0;
    }

    /** The opener the field's own comment describes, "r or w" (compress/zopen.cc:109): it records the mode. */
    constructor RecordingMode(b: nat, m: char)
      requires b <= BITS
      ensures Valid() && Model() == Start(if b == 0 then BITS else b) && mode == m
      ensures fresh(bits) && fresh(bits.buf) && fresh(table) && fresh(table.htab) && fresh(table.codetab)
    {
      var n := if b == 0 then BITS else b;
      maxBits := n;
      bits := new BitWriter(n);
      table := new HashTable(n);
      mode, started := m, false;
      freeEnt, ratio, checkpoint, inCount, ent := 0, 0, CHECK_GAP, 1, 0;
    }

    method RatioNow() returns (rat: int)
      requires bits.bytesOut > 0
      ensures rat == Ratio(inCount, bits.bytesOut)
    {
      if inCount > 0x007fffff {
        rat := bits.bytesOut / 256;
        if rat == 0 {
          rat := 0x7fffffff;
        } else {
          rat := inCount / rat;
        }
      } else {
        rat := (inCount * 256) / bits.bytesOut;
      }
    }

    /** cl_block (compress/zopen.cc:623-649). */
    method ClBlock()
      requires Running() && EncOk(E()) && ent < 256 && freeEnt <= bits.maxCode + 1
      modifies this, bits, bits.buf, table, table.htab
      ensures Running() && E() == ZSpec.ClBlock(old(E())) && started == old(started)
    {
      checkpoint := inCount + CHECK_GAP;
      var rat := RatioNow();
      if rat > ratio {
        ratio := rat;
      } else {
        ratio := 0;
        table.ClHash();
        freeEnt := FIRST;
        bits.clearFlg := true;
        bits.Output(CLEAR, freeEnt);
      }
    }

    method Send(c: byte)
      requires Running() && EncOk(E())
      modifies this`ent, bits, bits.buf
      ensures Running() && E() == Sent(old(E()), c) && (freeEnt >= Pow2(maxBits) ==> EncOk(E()))
    {
      bits.Output(ent, freeEnt);
      ent := c;
    }

    /** The miss branch of the loop (compress/zopen.cc:310-321); slot i is where the search ended. */
    method Miss(c: byte, i: nat, ghost J: nat)
      requires Running() && EncOk(E()) && (ent, c) !in table.dict && ent < 65536
      requires freeEnt < Pow2(maxBits) ==> KeyOk(maxBits, (ent, c))
      requires table.EndsAt((ent, c), i, J)
      modifies this, bits, bits.buf, table, table.htab, table.codetab
      ensures Running() && E() == EncMiss(old(E()), c) && started == old(started)
    {
      var k := (ent, c);
      Send(c);
      if freeEnt < Pow2(maxBits) {
        table.Fill(k, i, freeEnt, J);
        freeEnt := freeEnt + 1;
      } else if inCount >= checkpoint {
        ClBlock();
      }
    }

    /** Lines 290-321: the longer string if the table has it, else send the code. */
    method Extend(c: byte, ghost next: Enc)
      requires Running() && EncOk(E()) && next == EncExtend(E(), c)
      modifies this, bits, bits.buf, table, table.htab, table.codetab
      ensures Running() && E() == next && started == old(started)
    {
      EntIsKey(E(), c);
      var i, hit, J := table.Search((ent, c));
      if hit {
        ent := table.codetab[i];
      } else {
        Miss(c, i, J);
      }
    }

    /** One turn of the loop of compress_zwrite (compress/zopen.cc:287-322). */
    method AddByte(c: byte)
      requires Running() && EncOk(E())
      modifies this, bits, bits.buf, table, table.htab, table.codetab
      ensures Running() && E() == EncByte(old(E()), c) && started == old(started)
    {
      ghost var next := EncByte(E(), c);
      Count();
      Extend(c, next);
    }

    method Count()
      requires Running() && EncOk(E())
      modifies this`inCount
      ensures Running() && E() == old(E()).(inCount := old(E()).inCount + 1) && EncOk(E()) && started == old(started)
    {
      inCount := inCount + 1;
    }

    /** The S_START branch: header, settings, first byte, empty table (compress/zopen.cc:256-285). */
    method Begin(c: byte)
      requires Valid() && !started
      modifies this, bits, table, table.htab
      ensures Running() && started && E() == EncStart(maxBits, c)
    {
      started := true;
      bits.Begin();
      ratio, inCount, checkpoint := 0, 1, CHECK_GAP;
      freeEnt, ent := FIRST, c;
      table.ClHash();
    }

    /** The loop of compress_zwrite (compress/zopen.cc:287-322). */
    method AddBytes(bp: seq<byte>)
      requires Running() && EncOk(E()) && started
      modifies this, bits, bits.buf, table, table.htab, table.codetab
      ensures Running() && E() == EncAll(old(E()), bp) && started
    {
      var i := 0;
      ghost var end := EncAll(E(), bp);
      assert bp[0..] == bp;
      while i < |bp|
        invariant 0 <= i <= |bp| && Running() && EncOk(E()) && started
        invariant EncAll(E(), bp[i..]) == end
      {
        assert bp[i..][1..] == bp[i + 1..];
        AddByte(bp[i]);
        i := i + 1;
      }
      assert bp[i..] == [];
    }

    /** compress_zwrite (compress/zopen.cc:239-324). */
    method ZWrite(bp: seq<byte>) returns (rc: nat)
      requires Valid()
      modifies this, bits, bits.buf, table, table.htab, table.codetab
      ensures Valid() && Model() == Write(old(Model()), bp) && rc == |bp|
    {
      if |bp| == 0 {
        return 0;
      }
      if started {
        AddBytes(bp);
      } else {
        Begin(bp[0]);
        AddBytes(bp[1..]);
      }
      return |bp|;
    }

    /** compress_zclose (compress/zopen.cc:326-348): the pending code goes out in mode 'w' only.
        With nothing written yet the width is still 0, so the stores reach no file. */
    method ZClose() returns (written: seq<byte>)
      requires Valid()
      modifies this, bits, bits.buf
      ensures written == Close(old(Model()), mode)
    {
      if mode == 'w' && started {
        bits.Output(ent, freeEnt);
        bits.Output(-1, freeEnt);
      }
      written := bits.file;
    }
  }

  /** A current code fits the table, and can be searched for. */
  lemma EntIsKey(e: Enc, c: byte)
    requires EncOk(e)
    ensures e.ent < 65536 && e.freeEnt <= 65536
    ensures e.dict != map[] ==> KeyOk(e.maxBits, (e.ent, c))
    ensures e.freeEnt < Pow2(e.maxBits) ==> KeyOk(e.maxBits, (e.ent, c))
  {
    SmallPowers();
    Pow2Mono(e.maxBits, 16);
    if e.dict != map[] {
      var k :| k in e.dict;
      assert e.dict[k] < e.freeEnt;
    }
  }
}
