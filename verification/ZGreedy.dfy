/** LZW is greedy: the writer of compress/zopen.cc sends the number of the longest string in its
    table that the rest of the input begins with. */
module ZGreedy {
  import opened Bits
  import opened ZSpec
  import opened ZSim
  import opened ZStream
  import opened ZEncode
  import opened ZDecode
  import opened ZRoundTrip
  import opened Seqs

  /** Every number handed out is the number of a pair whose prefix has a smaller one. */
  ghost predicate Complete(dict: map<Pair, nat>, n: nat) {
    forall i :: 0 <= i < n ==> Numbered(dict, i)
  }

  ghost predicate Numbered(dict: map<Pair, nat>, i: nat) {
    exists k <- dict :: dict[k] == FIRST + i && IsCode(FIRST + i, k.0)
  }

  /** The table etab is the dictionary's, entry for entry. */
  ghost predicate Table(e: Enc, etab: seq<seq<byte>>) {
    && EncOk(e)
    && e.freeEnt == FIRST + |etab|
    && DictOk(e.dict, etab)
    && Complete(e.dict, |etab|)
  }

  /** The pair behind an entry. */
  lemma EntryPair(dict: map<Pair, nat>, etab: seq<seq<byte>>, i: nat) returns (k: Pair)
    requires DictOk(dict, etab) && Complete(dict, |etab|) && i < |etab|
    ensures k in dict && dict[k] == FIRST + i && IsCode(FIRST + i, k.0)
    ensures etab[i] == StrIn(etab, k.0) + [k.1]
  {
    assert Numbered(dict, i);
    k :| k in dict && dict[k] == FIRST + i && IsCode(FIRST + i, k.0);
  }

  lemma {:induction false} NotEmpty(dict: map<Pair, nat>, etab: seq<seq<byte>>, code: nat)
    requires DictOk(dict, etab) && Complete(dict, |etab|) && IsCode(FIRST + |etab|, code)
    ensures StrIn(etab, code) != []
  {
    if code >= 256 {
      var k := EntryPair(dict, etab, code - FIRST);
    }
  }

  /** An entry is longer than a byte. */
  lemma EntryLong(dict: map<Pair, nat>, etab: seq<seq<byte>>, code: nat)
    requires DictOk(dict, etab) && Complete(dict, |etab|) && IsCode(FIRST + |etab|, code)
    ensures |StrIn(etab, code)| == 1 <==> code < 256
  {
    if code >= 256 {
      var k := EntryPair(dict, etab, code - FIRST);
      NotEmpty(dict, etab, k.0);
    }
  }

  /** No string has two numbers. */
  lemma {:induction false} OneNumber(dict: map<Pair, nat>, etab: seq<seq<byte>>, a: nat, b: nat)
    requires DictOk(dict, etab) && Complete(dict, |etab|)
    requires IsCode(FIRST + |etab|, a) && IsCode(FIRST + |etab|, b) && StrIn(etab, a) == StrIn(etab, b)
    ensures a == b
    decreases a
  {
    EntryLong(dict, etab, a);
    EntryLong(dict, etab, b);
    if a >= 256 {
      var j := EntryPair(dict, etab, a - FIRST);
      var k := EntryPair(dict, etab, b - FIRST);
      var s, t := StrIn(etab, j.0), StrIn(etab, k.0);
      LastCut(s, j.1, t, k.1);
      OneNumber(dict, etab, j.0, k.0);
    }
  }

  lemma LastCut(s: seq<byte>, b: byte, t: seq<byte>, c: byte)
    requires s + [b] == t + [c]
    ensures s == t && b == c
  {
    assert |s| == |t|;
    assert (s + [b])[..|s|] == s && (t + [c])[..|t|] == t;
    assert (s + [b])[|s|] == b && (t + [c])[|t|] == c;
  }

  /** A string that is not found with the current one in front is nowhere in the table, not even
      as the beginning of an entry. */
  lemma {:induction false} NowhereElse(e: Enc, etab: seq<seq<byte>>, c: byte, code: nat)
    requires Table(e, etab) && (e.ent, c) !in e.dict && IsCode(e.freeEnt, code)
    ensures !(StrIn(etab, e.ent) + [c] <= StrIn(etab, code))
    decreases code
  {
    var w := StrIn(etab, e.ent);
    NotEmpty(e.dict, etab, e.ent);
    if code >= 256 && w + [c] <= StrIn(etab, code) {
      var k := EntryPair(e.dict, etab, code - FIRST);
      var p := StrIn(etab, k.0);
      if |p| == |w| {
        LastCut(w, c, p, k.1);
        OneNumber(e.dict, etab, e.ent, k.0);
      } else {
        assert w + [c] <= p;
        NowhereElse(e, etab, c, k.0);
      }
    }
  }

  // ----- kept by every byte -----

  lemma TableHit(e: Enc, etab: seq<seq<byte>>, c: byte)
    requires Table(e, etab) && (e.ent, c) in e.dict
    ensures Table(EncByte(e, c), etab)
  {
  }

  lemma CompleteGrows(dict: map<Pair, nat>, k: Pair, n: nat)
    requires Complete(dict, n) && k !in dict && IsCode(FIRST + n, k.0)
    ensures Complete(dict[k := FIRST + n], n + 1)
  {
    var m := dict[k := FIRST + n];
    forall i | 0 <= i < n + 1
      ensures Numbered(m, i)
    {
      if i < n {
        assert Numbered(dict, i);
        var j :| j in dict && dict[j] == FIRST + i && IsCode(FIRST + i, j.0);
        assert j in m && m[j] == FIRST + i;
      } else {
        assert k in m && m[k] == FIRST + i;
      }
    }
  }

  lemma TableMiss(e: Enc, etab: seq<seq<byte>>, c: byte)
    requires Table(e, etab) && (e.ent, c) !in e.dict && !Clears(e)
    ensures Table(EncByte(e, c), Grown(e, etab, StrIn(etab, e.ent), c))
  {
    MissShape(e, c);
    if e.freeEnt < Pow2(e.maxBits) {
      DictGrows(e.dict, etab, (e.ent, c), StrIn(etab, e.ent) + [c]);
      CompleteGrows(e.dict, (e.ent, c), |etab|);
    }
  }

  lemma TableByte(e: Enc, etab: seq<seq<byte>>, c: byte) returns (etab': seq<seq<byte>>)
    requires Table(e, etab)
    ensures Table(EncByte(e, c), etab')
  {
    if (e.ent, c) in e.dict {
      TableHit(e, etab, c);
      etab' := etab;
    } else if Clears(e) {
      etab' := [];
    } else {
      TableMiss(e, etab, c);
      etab' := Grown(e, etab, StrIn(etab, e.ent), c);
    }
  }

  lemma {:induction false} TableAll(e: Enc, etab: seq<seq<byte>>, s: seq<byte>) returns (etab': seq<seq<byte>>)
    requires Table(e, etab)
    ensures Table(EncAll(e, s), etab')
    decreases |s|
  {
    if s == [] {
      etab' := etab;
    } else {
      etab' := TableByte(e, etab, s[0]);
      etab' := TableAll(EncByte(e, s[0]), etab', s[1..]);
    }
  }

  /** After any input s the codes sent so far, once flushed, read back as all of s but its end, the
      string of the current code; and if the next byte makes the writer send that code, no string in
      the table begins with that string and that byte. */
  lemma LongestMatch(maxBits: nat, s: seq<byte>, c: byte)
    returns (e: Enc, etab: seq<seq<byte>>, sent: seq<byte>)
    requires 1 <= maxBits <= 16 && s != []
    ensures Write(Start(maxBits), s) == Middle(e) && e.maxBits == maxBits && Table(e, etab)
    ensures s == sent + StrIn(etab, e.ent) && ReadBack(OutputEof(e.maxBits, e.p).file) == Some(sent)
    ensures EncByte(e, c).p == e.p || forall code :: IsCode(e.freeEnt, code) ==>
              !(StrIn(etab, e.ent) + [c] <= StrIn(etab, code))
  {
    e := TrackRun(maxBits, s);
    var gs, pending, tab, w :| Tracks(e, gs, pending, tab, w, s);
    etab := TableAll(EncStart(maxBits, s[0]), [], s[1..]);
    SameTable(e, etab, tab);
    sent := SeenOut(maxBits, gs, pending);
    ReadFiled(maxBits, e.p, gs, pending);
    if (e.ent, c) !in e.dict {
      forall code | IsCode(e.freeEnt, code)
        ensures !(StrIn(etab, e.ent) + [c] <= StrIn(etab, code))
      {
        NowhereElse(e, etab, c, code);
      }
    }
  }

  /** The dictionary fixes its table. */
  lemma SameTable(e: Enc, etab: seq<seq<byte>>, tab: seq<seq<byte>>)
    requires Table(e, etab) && e.freeEnt == FIRST + |tab| && DictOk(e.dict, tab)
    ensures etab == tab
  {
    if |etab| > 0 {
      SameEntries(e.dict, etab, tab, |etab|);
    }
  }

  lemma {:induction false} SameEntries(dict: map<Pair, nat>, etab: seq<seq<byte>>, tab: seq<seq<byte>>, n: nat)
    requires DictOk(dict, etab) && Complete(dict, |etab|) && DictOk(dict, tab) && |tab| == |etab| >= n
    ensures forall i :: 0 <= i < n ==> etab[i] == tab[i]
  {
    if n > 0 {
      SameEntries(dict, etab, tab, n - 1);
      var k := EntryPair(dict, etab, n - 1);
    }
  }
}
