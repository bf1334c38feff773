/** split -b (split/split.cc:178-308). Files are the bytes written to them; opening, writing and
    closing do not fail, and the input is read without error. */
module Split {
  import opened Bits
  import opened Seqs
  import Suffix

  datatype File = File(name: string, bytes: seq<byte>)

  function Joined(files: seq<File>): seq<byte> {
    if files == [] then [] else Joined(files[..|files| - 1]) + files[|files| - 1].bytes
  }

  lemma JoinedMore(files: seq<File>, f: File)
    ensures Joined(files + [f]) == Joined(files) + f.bytes
  {
    assert (files + [f])[..|files|] == files;
  }

  /** The pieces have size bytes, and the names count up from a. */
  ghost predicate Full(files: seq<File>, size: nat) {
    forall k :: 0 <= k < |files| ==> |files[k].bytes| == size
  }

  ghost predicate Named(files: seq<File>, prefix: string, n: nat) {
    forall k :: 0 <= k < |files| ==> files[k].name == prefix + Suffix.Of(k, n)
  }

  lemma {:induction false} FullLength(files: seq<File>, size: nat)
    requires Full(files, size)
    ensures |Joined(files)| == |files| * size
  {
    if files != [] {
      FullLength(files[..|files| - 1], size);
      assert |files| * size == (|files| - 1) * size + size;
    }
  }

  /** The files after a write to the last one. */
  function Append(files: seq<File>, buf: seq<byte>): (r: seq<File>)
    requires files != []
    ensures |r| == |files|
  {
    var n := |files| - 1;
    files[..n] + [File(files[n].name, files[n].bytes + buf)]
  }

  lemma AppendJoined(files: seq<File>, buf: seq<byte>)
    requires files != []
    ensures Joined(Append(files, buf)) == Joined(files) + buf
  {
    var n := |files| - 1;
    var x, y := Joined(files[..n]), files[n].bytes;
    JoinedMore(files[..n], File(files[n].name, y + buf));
    assert x + (y + buf) == x + y + buf;
  }

  lemma AppendShape(files: seq<File>, buf: seq<byte>, size: nat, prefix: string, n: nat)
    requires files != [] && Full(files[..|files| - 1], size) && Named(files, prefix, n)
    ensures Full(Append(files, buf)[..|files| - 1], size) && Named(Append(files, buf), prefix, n)
    ensures Append(files, buf)[|files| - 1].name == files[|files| - 1].name
    ensures |Append(files, buf)[|files| - 1].bytes| == |files[|files| - 1].bytes| + |buf|
    ensures |files[|files| - 1].bytes + buf| == size ==> Full(Append(files, buf), size)
  {
    assert Append(files, buf)[..|files| - 1] == files[..|files| - 1];
  }

  lemma NewShape(files: seq<File>, name: string, size: nat, prefix: string, n: nat)
    requires Full(files, size) && Named(files, prefix, n) && name == prefix + Suffix.Of(|files|, n)
    ensures var r := files + [File(name, [])];
            && Full(r[..|r| - 1], size) && Named(r, prefix, n) && Joined(r) == Joined(files)
  {
    var r := files + [File(name, [])];
    assert r[..|r| - 1] == files;
    JoinedMore(files, File(name, []));
    assert Joined(files) + [] == Joined(files);
  }

  lemma MoreDone(before: seq<byte>, buf: seq<byte>, p: nat, q: nat)
    requires p <= q <= |buf|
    ensures before + buf[..p] + buf[p..][..q - p] == before + buf[..q]
  {
    assert buf[..p] + buf[p..][..q - p] == buf[..q];
    assert before + buf[..p] + buf[p..][..q - p] == before + (buf[..p] + buf[p..][..q - p]);
  }

  class Splitter {
    const prefix: string
    const suffixLen: nat
    const pieceSize: nat
    var suffix: string
    var outputCount: nat
    var outputOpen: bool      // output_fd >= 0
    var outputFn: string
    var files: seq<File>      // in the order they were opened; the last one is the open one

    ghost predicate Settings() {
      suffixLen >= 1 && pieceSize >= 1
    }

    /** Where the suffix stands. */
    ghost predicate SuffixOk()
      reads this
    {
      && |files| <= Suffix.Pow26(suffixLen)
      && suffix == if files == [] then "" else Suffix.Of(|files| - 1, suffixLen)
    }

    ghost predicate Closed()
      reads this
    {
      !outputOpen && outputCount == 0 && outputFn == "" && Full(files, pieceSize) && Named(files, prefix, suffixLen)
    }

    ghost predicate Open()
      reads this
    {
      && outputOpen && files != [] && outputCount < pieceSize && outputFn == files[|files| - 1].name
      && |files[|files| - 1].bytes| == outputCount
      && Full(files[..|files| - 1], pieceSize) && Named(files, prefix, suffixLen)
    }

    ghost predicate Valid()
      reads this
    {
      Settings() && SuffixOk() && (Closed() || (Open() && outputCount > 0))
    }

    constructor (prefix: string, suffixLen: nat, pieceSize: nat)
      requires suffixLen >= 1 && pieceSize >= 1
      ensures Valid() && files == []
      ensures this.prefix == prefix && this.suffixLen == suffixLen && this.pieceSize == pieceSize
    {
      this.prefix, this.suffixLen, this.pieceSize := prefix, suffixLen, pieceSize;
      suffix, outputCount, outputOpen, outputFn, files := "", 0, false, "", [];
    }

    /** incr_suffix (split/split.cc:157-176); false when it has run over. */
    method IncrSuffix() returns (ok: bool)
      requires suffix == "" || |suffix| == suffixLen
      requires forall c <- suffix :: 'a' <= c <= 'z'
      modifies this`suffix
      ensures old(suffix) == "" && suffixLen > 0 ==> ok && suffix == Suffix.Of(0, suffixLen)
      ensures old(suffix) != "" ==> (!ok, suffix) == Suffix.Incr(old(suffix))
    {
      if suffix == "" {
        suffix := seq(suffixLen, i => 'a');
        AllA(suffixLen);
        return true;
      }
      var i := suffixLen - 1;
      ghost var s := suffix;
      Suffix.CarryStart(s);
      while i >= 0
        invariant -1 <= i < suffixLen && Suffix.Carried(s, i + 1, suffix)
      {
        Suffix.SameLetter(s, i + 1, suffix);
        if suffix[i] != 'z' {
          Suffix.CarryStop(s, i + 1, suffix);
          suffix := suffix[i := (suffix[i] as int + 1) as char];
          return true;
        }
        Suffix.CarryOn(s, i + 1, suffix);
        suffix := suffix[i := 'a'];
        i := i - 1;
      }
      Suffix.CarryOut(s, suffix);
      return false;
    }

    /** The next name (split/split.cc:183), false when there is none. */
    method NextSuffix() returns (ok: bool)
      requires Settings() && SuffixOk()
      modifies this`suffix
      ensures ok <==> |files| < Suffix.Pow26(suffixLen)
      ensures ok ==> suffix == Suffix.Of(|files|, suffixLen)
    {
      if |files| > 0 {
        Suffix.IncrCounts(|files| - 1, suffixLen);
      }
      ok := IncrSuffix();
    }

    /** open_output (split/split.cc:178-203); false when the suffixes have run out. */
    method OpenOutput() returns (ok: bool)
      requires Valid()
      modifies this`suffix, this`outputOpen, this`outputFn, this`files
      ensures ok ==> SuffixOk() && Open() && Joined(files) == Joined(old(files))
      ensures !ok ==> files == old(files) && RanOut()
    {
      if outputOpen {
        return true;
      }
      ok := NextSuffix();
      if ok {
        NewShape(files, prefix + suffix, pieceSize, prefix, suffixLen);
        outputFn, outputOpen := prefix + suffix, true;
        files := files + [File(outputFn, [])];
      }
    }

    /** write_fd to the open piece, of no more than it still takes. */
    method WriteFd(buf: seq<byte>)
      requires Open() && outputCount + |buf| <= pieceSize
      modifies this`files
      ensures |files| == |old(files)| && Joined(files) == Joined(old(files)) + buf
      ensures Full(files[..|files| - 1], pieceSize) && Named(files, prefix, suffixLen)
      ensures outputFn == files[|files| - 1].name && |files[|files| - 1].bytes| == outputCount + |buf|
      ensures outputCount + |buf| == pieceSize ==> Full(files, pieceSize)
    {
      var n := |files| - 1;
      AppendJoined(files, buf);
      AppendShape(files, buf, pieceSize, prefix, suffixLen);
      files := files[..n] + [File(files[n].name, files[n].bytes + buf)];
    }

    /** close_output (split/split.cc:205-222) */
    method CloseOutput()
      modifies this`outputOpen, this`outputFn, this`outputCount
      ensures if old(outputOpen) then !outputOpen && outputFn == "" && outputCount == 0
              else outputOpen == old(outputOpen) && outputFn == old(outputFn) && outputCount == old(outputCount)
    {
      if !outputOpen {
        return;
      }
      outputOpen, outputFn, outputCount := false, "", 0;
    }

    /** incr_output (split/split.cc:224-235) */
    method IncrOutput(incr: nat)
      modifies this`outputOpen, this`outputFn, this`outputCount
      ensures if old(outputCount) + incr != pieceSize then
                outputCount == old(outputCount) + incr && outputOpen == old(outputOpen) && outputFn == old(outputFn)
              else if old(outputOpen) then !outputOpen && outputFn == "" && outputCount == 0
              else outputCount == pieceSize && !outputOpen && outputFn == old(outputFn)
    {
      outputCount := outputCount + incr;
      if outputCount == pieceSize {
        CloseOutput();
      }
    }

    /** The write of one turn of the loop of output_bytes (split/split.cc:248-264). */
    method Put(buf: seq<byte>) returns (wlen: nat)
      requires Settings() && SuffixOk() && Open() && buf != []
      modifies this`files, this`outputOpen, this`outputFn, this`outputCount
      ensures Valid() && 0 < wlen <= |buf| && Joined(files) == Joined(old(files)) + buf[..wlen]
    {
      var dist := pieceSize - outputCount;
      wlen := if dist < |buf| then dist else |buf|;
      WriteFd(buf[..wlen]);
      IncrOutput(wlen);
    }

    /** One turn of the loop of output_bytes (split/split.cc:243-265). */
    method OutputSome(buf: seq<byte>) returns (ok: bool, wlen: nat)
      requires Valid() && buf != []
      modifies this
      ensures ok ==> Valid() && 0 < wlen <= |buf| && Joined(files) == Joined(old(files)) + buf[..wlen]
      ensures !ok ==> files == old(files) && RanOut()
    {
      wlen := 0;
      ok := OpenOutput();
      if ok {
        wlen := Put(buf);
      }
    }

    /** All the names are used up, by whole pieces. */
    ghost predicate RanOut()
      reads this
    {
      |files| == Suffix.Pow26(suffixLen) && Full(files, pieceSize) && Named(files, prefix, suffixLen)
    }

    /** The turn at place p of buf, of which all before p has been written. */
    method OutputAt(buf: seq<byte>, p: nat, ghost before: seq<byte>) returns (ok: bool, next: nat)
      requires Valid() && p < |buf| && Joined(files) == before + buf[..p]
      modifies this
      ensures ok ==> Valid() && p < next <= |buf| && Joined(files) == before + buf[..next]
      ensures !ok ==> next == p && files == old(files) && RanOut()
    {
      var wlen;
      next := p;
      ok, wlen := OutputSome(buf[p..]);
      if ok {
        next := p + wlen;
        MoreDone(before, buf, p, next);
      }
    }

    /** output_bytes (split/split.cc:237-268); done is how much of buf has been written. */
    method OutputBytes(buf: seq<byte>) returns (ok: bool, ghost done: nat)
      requires Valid()
      modifies this
      ensures done <= |buf| && Joined(files) == Joined(old(files)) + buf[..done]
      ensures ok ==> Valid() && done == |buf|
      ensures !ok ==> RanOut() && done < |buf|
    {
      ok := true;
      var p := 0;
      ghost var before := Joined(files);
      assert before + buf[..0] == before;
      while p < |buf|
        invariant p <= |buf| && Valid() && Joined(files) == before + buf[..p]
      {
        ok, p := OutputAt(buf, p, before);
        if !ok {
          return false, p;
        }
      }
      done := p;
    }
  }

  lemma {:induction false} ConcatPrefix(bufs: seq<seq<byte>>, k: nat, n: nat)
    requires k < |bufs| && n <= |bufs[k]|
    ensures Concat(bufs[..k]) + bufs[k][..n] <= Concat(bufs)
    ensures n < |bufs[k]| ==> |Concat(bufs[..k]) + bufs[k][..n]| < |Concat(bufs)|
    decreases k
  {
    if k == 0 {
      assert Concat(bufs[..0]) + bufs[0][..n] == bufs[0][..n];
    } else {
      assert bufs[..k][1..] == bufs[1..][..k - 1] && bufs[..k][0] == bufs[0];
      ConcatPrefix(bufs[1..], k - 1, n);
      Assoc(bufs[0], Concat(bufs[1..][..k - 1]), bufs[k][..n]);
    }
  }

  lemma JoinedLength(files: seq<File>, size: nat, most: nat)
    requires LastOk(files, size) && |files| <= most
    ensures |Joined(files)| <= most * size
  {
    if files != [] {
      FullLength(files[..|files| - 1], size);
      assert |files| * size == (|files| - 1) * size + size;
    }
    MulMono(|files|, most, size);
  }

  lemma MulMono(a: nat, b: nat, c: nat)
    requires a <= b
    ensures a * c <= b * c
  {
  }

  /** split -b over the reads of the input: the pieces make up the input, all but the last have the
      size asked for, the last is not empty, and the k-th name ends in k in base 26. split_bytes fails
      if and only if the input needs more pieces than there are names, and then every name is in use.
      (execute_split returns EXIT_FAILURE either way, split/split.cc:360.) */
  method SplitBytes(prefix: string, suffixLen: nat, pieceSize: nat, bufs: seq<seq<byte>>)
    returns (ok: bool, files: seq<File>)
    requires suffixLen >= 1 && pieceSize >= 1
    ensures ok <==> |Concat(bufs)| <= Suffix.Pow26(suffixLen) * pieceSize
    ensures ok ==> Joined(files) == Concat(bufs) && LastOk(files, pieceSize)
    ensures !ok ==> Joined(files) <= Concat(bufs) && Full(files, pieceSize) && |files| == Suffix.Pow26(suffixLen)
    ensures Named(files, prefix, suffixLen) && |files| <= Suffix.Pow26(suffixLen)
  {
    var s := new Splitter(prefix, suffixLen, pieceSize);
    ok := true;
    var k := 0;
    while k < |bufs|
      invariant k <= |bufs| && fresh(s) && s.Valid() && Joined(s.files) == Concat(bufs[..k])
      invariant s.prefix == prefix && s.suffixLen == suffixLen && s.pieceSize == pieceSize
    {
      ghost var done;
      ok, done := s.OutputBytes(bufs[k]);
      files := s.files;
      if !ok {
        ConcatPrefix(bufs, k, done);
        FullLength(files, pieceSize);
        return;
      }
      assert bufs[k][..done] == bufs[k];
      ConcatNext(bufs, k);
      k := k + 1;
    }
    assert bufs[..k] == bufs;
    files := s.files;
    s.CloseOutput();
    JoinedLength(files, pieceSize, Suffix.Pow26(suffixLen));
  }

  const EXIT_FAILURE: int := 1

  /** execute_split (split/split.cc:322-361) in byte mode: a split that has written every byte of the
      input is reported as a failure too. */
  method ExecuteSplit(prefix: string, suffixLen: nat, pieceSize: nat, bufs: seq<seq<byte>>)
    returns (status: int, files: seq<File>)
    requires suffixLen >= 1 && pieceSize >= 1
    ensures status == 1
    ensures |Concat(bufs)| <= Suffix.Pow26(suffixLen) * pieceSize ==>
              Joined(files) == Concat(bufs) && LastOk(files, pieceSize)
    ensures |Concat(bufs)| > Suffix.Pow26(suffixLen) * pieceSize ==>
              Joined(files) <= Concat(bufs) && Full(files, pieceSize) && |files| == Suffix.Pow26(suffixLen)
    ensures Named(files, prefix, suffixLen)
  {
    var ok;
    ok, files := SplitBytes(prefix, suffixLen, pieceSize, bufs);
    return EXIT_FAILURE, files;
  }

  /** The last piece has at least one byte and at most as many as the others. */
  ghost predicate LastOk(files: seq<File>, size: nat) {
    files != [] ==> 0 < |files[|files| - 1].bytes| <= size && Full(files[..|files| - 1], size)
  }

  lemma {:induction false} AllA(n: nat)
    ensures Suffix.Of(0, n) == seq(n, i => 'a')
  {
    if n > 0 {
      AllA(n - 1);
      assert 0 / 26 == 0 && 0 % 26 == 0;
    }
  }
}
