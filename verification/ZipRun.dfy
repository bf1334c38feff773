/** Runs of the ZIP machine: they do not see how the archive is cut into buffers, and blocks of bytes
    may be consumed at once. */
module ZipRun {
  import opened Bits
  import opened Pax
  import opened ZipSpec
  import opened Seqs

  lemma {:induction false} FeedConcat(z: Zip, a: seq<byte>, b: seq<byte>)
    requires ZipOk(z)
    ensures Feed(Feed(z, a), b) == Feed(z, a + b)
    decreases |a|
  {
    if a == [] {
      assert a + b == b;
    } else if z.rc == PXE_NONE {
      assert (a + b)[1..] == a[1..] + b;
      FeedConcat(Feed1(z, a[0]), a[1..], b);
    }
  }

  /** One call per buffer. */
  function FeedEach(z: Zip, bufs: seq<seq<byte>>): Zip
    requires ZipOk(z)
    decreases |bufs|
  {
    if bufs == [] then z else FeedEach(Feed(z, bufs[0]), bufs[1..])
  }

  /** Any two ways of cutting an archive into buffers give the same trace, the same final state, and
      an error, if any, at the same byte. */
  lemma CutsDoNotMatter(z: Zip, bufs: seq<seq<byte>>, bufs': seq<seq<byte>>)
    requires ZipOk(z) && Concat(bufs) == Concat(bufs')
    ensures FeedEach(z, bufs) == FeedEach(z, bufs')
  {
    FeedWhole(z, bufs);
    FeedWhole(z, bufs');
  }

  lemma {:induction false} FeedWhole(z: Zip, bufs: seq<seq<byte>>)
    requires ZipOk(z)
    ensures FeedEach(z, bufs) == Feed(z, Concat(bufs))
    decreases |bufs|
  {
    if bufs != [] {
      FeedWhole(Feed(z, bufs[0]), bufs[1..]);
      FeedConcat(z, bufs[0], Concat(bufs[1..]));
    }
  }

  /** A turn that consumes nothing may be taken early, if there is a next byte. */
  lemma FeedMove(z: Zip, s: seq<byte>)
    requires ZipOk(z) && Silent(z) && s != []
    ensures ZipOk(Move(z)) && Feed(Move(z), s) == Feed(z, s)
  {
    MoveRank(z);
    assert Settle(z) == Settle(Move(z));
    if Move(z).rc != PXE_NONE {
      assert Settle(Move(z)) == Move(z);
    }
  }

  lemma FillTwice(b: Bufs, st: InputState, pos: nat, a: seq<byte>, s: seq<byte>)
    requires pos + |a| + |s| <= |Target(b, st)|
    ensures Fill(Fill(b, st, pos, a), st, pos + |a|, s) == Fill(b, st, pos, a + s)
  {
    SpliceTwice(Target(b, st), pos, a, s);
  }

  lemma CopiedTwice(z: Zip, a: seq<byte>, s: seq<byte>)
    requires z.pos + |a| + |s| <= |Target(z.bufs, z.st)|
    ensures Copied(Copied(z, a), s) == Copied(z, a + s)
  {
    FillTwice(z.bufs, z.st, z.pos, a, s);
  }

  lemma NeedFits(z: Zip)
    requires ZipOk(z) && Copies(z.st)
    ensures Need(z) <= |Target(z.bufs, z.st)|
  {
  }

  lemma CopyOne(z: Zip, a: byte)
    requires ZipOk(z) && Copies(z.st) && z.rc == PXE_NONE && z.pos + 1 < Need(z)
    ensures var w := Copied(z, [a]);
            ZipOk(w) && w.st == z.st && w.rc == PXE_NONE && w.pos == z.pos + 1 && Need(w) == Need(z)
    ensures Feed1(z, a) == Copy(z, [a]) == Copied(z, [a])
  {
  }

  /** A copy consumes a block as it would byte by byte. */
  lemma {:induction false} FeedCopy(z: Zip, s: seq<byte>)
    requires ZipOk(z) && Copies(z.st) && z.rc == PXE_NONE && s != [] && z.pos + |s| <= Need(z)
    ensures Feed(z, s) == Copy(z, s)
    decreases |s|
  {
    if |s| == 1 {
      assert s == [s[0]] && s[1..] == [];
    } else {
      CopyOne(z, s[0]);
      FeedCopy(Copied(z, [s[0]]), s[1..]);
      NeedFits(z);
      CopiedTwice(z, [s[0]], s[1..]);
      assert [s[0]] + s[1..] == s;
    }
  }

  lemma StoredTwice(z: Zip, a: seq<byte>, s: seq<byte>)
    requires |a| + |s| <= z.dataBytes
    ensures Stored(Stored(z, a), s) == Stored(z, a + s)
  {
    Crc32Concat(z.crc, a, s);
    EmitJoins(z.trace, a, s);
  }

  /** So does stored data. */
  lemma {:induction false} FeedStore(z: Zip, s: seq<byte>)
    requires ZipOk(z) && z.st == ZS_DATA && Method(z.bufs.hdr) == 0 && z.rc == PXE_NONE && s != [] && |s| <= z.dataBytes
    ensures Feed(z, s) == Store(z, s)
    decreases |s|
  {
    if |s| == 1 {
      assert s == [s[0]] && s[1..] == [];
    } else {
      FeedStore(Stored(z, [s[0]]), s[1..]);
      StoredTwice(z, [s[0]], s[1..]);
      assert [s[0]] + s[1..] == s;
    }
  }

  /** And a skip. */
  lemma {:induction false} FeedSkip(z: Zip, s: seq<byte>)
    requires ZipOk(z) && z.st == ZS_SKIP_BYTES && z.rc == PXE_NONE && s != [] && |s| <= z.skip
    ensures Feed(z, s) == Skip(z, |s|)
    decreases |s|
  {
    if |s| == 1 {
      assert s == [s[0]] && s[1..] == [];
    } else {
      FeedSkip(Skip(z, 1), s[1..]);
    }
  }

  lemma TakeTotal(z: Zip, b: byte)
    requires ZipOk(z) && !Silent(z) && z.rc == PXE_NONE
    ensures Take(z, b).total == z.total + 1
  {
  }

  lemma Feed1Total(z: Zip, b: byte)
    requires ZipOk(z)
    ensures z.total <= Feed1(z, b).total <= z.total + 1
    ensures Feed1(z, b).rc == PXE_NONE ==> Feed1(z, b).total == z.total + 1
  {
    if Settle(z).rc == PXE_NONE {
      TakeTotal(Settle(z), b);
    }
  }

  /** The error, if any, is inside what was fed; without one every byte is consumed. */
  lemma {:induction false} FeedTotal(z: Zip, s: seq<byte>)
    requires ZipOk(z)
    ensures z.total <= Feed(z, s).total <= z.total + |s|
    ensures Feed(z, s).rc == PXE_NONE ==> Feed(z, s).total == z.total + |s|
    decreases |s|
  {
    if s != [] && z.rc == PXE_NONE {
      Feed1Total(z, s[0]);
      FeedTotal(Feed1(z, s[0]), s[1..]);
    }
  }
}
