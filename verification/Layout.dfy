/** Structures on file: fields one after the other, each with its width. */
module Layout {
  import opened Bits
  import opened Pax
  import opened Seqs

  /** Where field k begins. */
  function Begins(fs: seq<seq<byte>>, k: nat): nat {
    if k == 0 || k > |fs| then 0 else Begins(fs, k - 1) + |fs[k - 1]|
  }

  lemma {:induction false} BeginsIs(fs: seq<seq<byte>>, k: nat)
    requires k <= |fs|
    ensures Begins(fs, k) == |Concat(fs[..k])|
  {
    if k > 0 {
      BeginsIs(fs, k - 1);
      ConcatNext(fs, k - 1);
    }
  }

  lemma {:induction false} ConcatSplit(fs: seq<seq<byte>>, k: nat)
    requires k <= |fs|
    ensures Concat(fs) == Concat(fs[..k]) + Concat(fs[k..])
  {
    if k == 0 {
      assert fs[..0] == [] && fs[0..] == fs;
    } else {
      assert fs[..k][1..] == fs[1..][..k - 1] && fs[1..][k - 1..] == fs[k..];
      ConcatSplit(fs[1..], k - 1);
      Assoc(fs[0], Concat(fs[1..][..k - 1]), Concat(fs[k..]));
    }
  }

  lemma Middle(a: seq<byte>, f: seq<byte>, b: seq<byte>, s: seq<byte>, at: nat, len: nat)
    requires s == a + (f + b) && at == |a| && len == |f|
    ensures at + len <= |s| && s[at..at + len] == f
  {
  }

  /** Field k is found at its offset. */
  lemma FieldIs(fs: seq<seq<byte>>, k: nat, at: nat, len: nat)
    requires k < |fs| && at == Begins(fs, k) && len == |fs[k]|
    ensures at + len <= |Concat(fs)| && Field(Concat(fs), at, len) == fs[k] == Concat(fs)[at..at + len]
  {
    BeginsIs(fs, k);
    ConcatSplit(fs, k);
    assert fs[k..][1..] == fs[k + 1..];
    Middle(Concat(fs[..k]), fs[k], Concat(fs[k + 1..]), Concat(fs), at, len);
  }

  lemma LengthIs(fs: seq<seq<byte>>)
    ensures |Concat(fs)| == Begins(fs, |fs|)
  {
    BeginsIs(fs, |fs|);
    assert fs[..|fs|] == fs;
  }

  predicate LiesAt(f: seq<byte>, s: seq<byte>, at: nat) {
    at + |f| <= |s| && s[at..at + |f|] == f
  }

  predicate AllLie(fs: seq<seq<byte>>, s: seq<byte>, k: nat)
    requires k <= |fs|
  {
    forall j {:trigger LiesAt(fs[j], s, Begins(fs, j))} :: 0 <= j < k ==> LiesAt(fs[j], s, Begins(fs, j))
  }

  lemma RejoinNext(fs: seq<seq<byte>>, s: seq<byte>, k: nat, at: nat)
    requires k < |fs| && at == Begins(fs, k) <= |s| && Concat(fs[..k]) == s[..at] && LiesAt(fs[k], s, at)
    ensures Begins(fs, k + 1) <= |s| && Concat(fs[..k + 1]) == s[..Begins(fs, k + 1)]
  {
    ConcatNext(fs, k);
    JoinSlices(s, at, fs[k]);
  }

  /** Fields that lie where s has them spell s. */
  lemma {:induction false} Rejoined(fs: seq<seq<byte>>, s: seq<byte>, k: nat)
    requires k <= |fs| && AllLie(fs, s, k)
    ensures Begins(fs, k) <= |s| && Concat(fs[..k]) == s[..Begins(fs, k)]
  {
    if k == 0 {
      assert fs[..0] == [] && s[..0] == [];
    } else {
      Rejoined(fs, s, k - 1);
      assert LiesAt(fs[k - 1], s, Begins(fs, k - 1));
      RejoinNext(fs, s, k - 1, Begins(fs, k - 1));
    }
  }

  lemma WholeIs(fs: seq<seq<byte>>, s: seq<byte>)
    requires Begins(fs, |fs|) == |s| && AllLie(fs, s, |fs|)
    ensures Concat(fs) == s
  {
    Rejoined(fs, s, |fs|);
    assert fs[..|fs|] == fs && s[..|s|] == s;
  }

  /** One field behind another. */
  lemma BeginsNext(fs: seq<seq<byte>>, k: nat, at: nat)
    requires k < |fs| && at == Begins(fs, k)
    ensures Begins(fs, k + 1) == at + |fs[k]|
  {
  }

  lemma OneField(f: seq<byte>)
    ensures Concat([f]) == f
  {
    assert [f][1..] == [] && f + [] == f;
  }

  lemma JoinSlices(s: seq<byte>, at: nat, f: seq<byte>)
    requires LiesAt(f, s, at)
    ensures s[..at] + f == s[..at + |f|]
  {
  }

  // ----- little-endian numbers -----

  type u16 = x: int | 0 <= x < 0x10000
  type u32 = x: int | 0 <= x < 0x1_0000_0000

  function LE16(v: u16): (s: seq<byte>)
    ensures |s| == 2
  {
    [v % 256, v / 256]
  }

  function LE32(v: u32): (s: seq<byte>)
    ensures |s| == 4
  {
    LE16(v % 0x10000) + LE16(v / 0x10000)
  }

  lemma Word16(s: seq<byte>, at: nat, v: u16)
    requires Field(s, at, 2) == LE16(v)
    ensures U16(s, at) == v
  {
    assert Field(s, at, 2)[0] == v % 256 && Field(s, at, 2)[1] == v / 256;
    assert at + 2 <= |s|;
    assert s[at..at + 2][0] == s[at] && s[at..at + 2][1] == s[at + 1];
  }

  lemma Word32(s: seq<byte>, at: nat, v: u32)
    requires Field(s, at, 4) == LE32(v)
    ensures U32(s, at) == v
  {
    assert at + 4 <= |s| && Field(s, at, 4) == s[at..at + 4];
    assert s[at..at + 2] == s[at..at + 4][..2] == LE16(v % 0x10000);
    assert s[at + 2..at + 4] == s[at..at + 4][2..] == LE16(v / 0x10000);
    Word16(s, at, v % 0x10000);
    Word16(s, at + 2, v / 0x10000);
  }

  /** Any two octets are a number, */
  lemma Spells16(s: seq<byte>, at: nat)
    requires at + 2 <= |s|
    ensures LiesAt(LE16(U16(s, at)), s, at)
  {
    assert s[at..at + 2] == [s[at], s[at + 1]];
  }

  /** and any four. */
  lemma Spells32(s: seq<byte>, at: nat)
    requires at + 4 <= |s|
    ensures U32(s, at) < 0x1_0000_0000 && LiesAt(LE32(U32(s, at)), s, at)
  {
    Spells16(s, at);
    Spells16(s, at + 2);
    var v := U32(s, at);
    assert v % 0x10000 == U16(s, at) && v / 0x10000 == U16(s, at + 2);
    assert s[at..at + 4] == s[at..at + 2] + s[at + 2..at + 4];
  }

  /** Field k is the number v; the next field is two further on. */
  lemma At16(fs: seq<seq<byte>>, k: nat, at: nat, v: u16)
    requires k < |fs| && at == Begins(fs, k) && fs[k] == LE16(v)
    ensures U16(Concat(fs), at) == v && Begins(fs, k + 1) == at + 2
  {
    FieldIs(fs, k, at, 2);
    Word16(Concat(fs), at, v);
  }

  lemma At32(fs: seq<seq<byte>>, k: nat, at: nat, v: u32)
    requires k < |fs| && at == Begins(fs, k) && fs[k] == LE32(v)
    ensures U32(Concat(fs), at) == v && Begins(fs, k + 1) == at + 4
  {
    FieldIs(fs, k, at, 4);
    Word32(Concat(fs), at, v);
  }
}
