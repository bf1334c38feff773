/** The two halves of the codec run against each other. */
module ZCodec {
  import opened Bits
  import opened ZPack
  import opened ZSpec
  import opened ZRoundTrip
  import opened ZWriter
  import opened ZReader
  import opened Seqs

  function Sum(sizes: seq<nat>): nat {
    if sizes == [] then 0 else sizes[0] + Sum(sizes[1..])
  }

  lemma {:induction false} SumNext(sizes: seq<nat>, i: nat)
    requires i < |sizes|
    ensures Sum(sizes[..i + 1]) == Sum(sizes[..i]) + sizes[i]
  {
    if i > 0 {
      assert sizes[..i + 1][1..] == sizes[1..][..i] && sizes[..i][1..] == sizes[1..][..i - 1];
      SumNext(sizes[1..], i - 1);
    }
  }

  lemma {:induction false} ChunksSnoc(w: Writer, chunks: seq<seq<byte>>, c: seq<byte>)
    requires WriterOk(w)
    ensures WriteChunks(w, chunks + [c]) == Write(WriteChunks(w, chunks), c)
    decreases |chunks|
  {
    if chunks == [] {
      assert [] + [c] == [c] && [c][1..] == [];
    } else {
      assert (chunks + [c])[1..] == chunks[1..] + [c];
      ChunksSnoc(Write(w, chunks[0]), chunks[1..], c);
    }
  }

  /** One write call per chunk, close, one read call per size: the reads deliver the input, as far
      as they ask for it. */
  method WriteThenRead(b: nat, chunks: seq<seq<byte>>, sizes: seq<nat>) returns (out: seq<byte>)
    requires b <= BITS && Concat(chunks) != []
    requires forall i :: 0 <= i < |sizes| ==> sizes[i] > 0
    ensures out == Concat(chunks)[..Min(Sum(sizes), |Concat(chunks)|)]
  {
    var z := new Compressor.RecordingMode(b, 'w');
    ghost var w := z.Model();
    for i := 0 to |chunks|
      invariant z.Valid() && z.Model() == WriteChunks(w, chunks[..i])
      invariant fresh(z) && fresh(z.bits) && fresh(z.bits.buf)
      invariant fresh(z.table) && fresh(z.table.htab) && fresh(z.table.codetab)
    {
      ChunksSnoc(w, chunks[..i], chunks[i]);
      assert chunks[..i + 1] == chunks[..i] + [chunks[i]];
      var _ := z.ZWrite(chunks[i]);
    }
    assert chunks[..|chunks|] == chunks;
    var file := z.ZClose();
    ghost var input := Concat(chunks);
    RoundTrip(w.maxBits, chunks, 'w');
    var r := new Decompressor(file);
    out := ReadAll(r, sizes, input);
  }

  /** The reads so far have delivered out. */
  ghost predicate Delivered(r: Decompressor, input: seq<byte>, out: seq<byte>)
    reads r, r.bits, r.bits.gbuf, r.tbl, r.tbl.prefix, r.tbl.suffix, r.tbl.stack
  {
    && r.Valid() && (r.state == S_START ==> out == [])
    && out <= input && r.Remaining() == input[|out|..]
  }

  method ReadMore(r: Decompressor, n: nat, ghost input: seq<byte>, out: seq<byte>) returns (out': seq<byte>)
    requires Delivered(r, input, out) && input != [] && n > 0
    modifies r, r.bits, r.bits.gbuf, r.tbl, r.tbl.prefix, r.tbl.suffix, r.tbl.stack
    ensures Delivered(r, input, out') && |out'| == Min(|out| + n, |input|)
  {
    ghost var rest := input[|out|..];
    var rc, more := r.ZRead(n);
    assert rest[|more|..] == input[|out + more|..];
    out' := out + more;
  }

  /** One read call per size. */
  method ReadAll(r: Decompressor, sizes: seq<nat>, ghost input: seq<byte>) returns (out: seq<byte>)
    requires Delivered(r, input, []) && input != []
    requires forall i :: 0 <= i < |sizes| ==> sizes[i] > 0
    modifies r, r.bits, r.bits.gbuf, r.tbl, r.tbl.prefix, r.tbl.suffix, r.tbl.stack
    ensures out == input[..Min(Sum(sizes), |input|)]
  {
    out := [];
    for i := 0 to |sizes|
      invariant Delivered(r, input, out) && |out| == Min(Sum(sizes[..i]), |input|)
    {
      SumNext(sizes, i);
      out := ReadMore(r, sizes[i], input, out);
    }
    assert sizes[..|sizes|] == sizes;
  }
}
