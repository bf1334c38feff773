/** The hash table of compress_zwrite: xor hashing with a secondary probe, over a prime table size
    (compress/zopen.cc:287-316). */
module ZHash {
  import opened Bits
  import opened ZSpec

  const HSIZE: nat := 69001

  // ----- 69001 is prime -----

  lemma SmallDivisors(d: nat, q: nat)
    requires 2 <= d < 264
    ensures d * q != HSIZE
  {
  }

  lemma MulLeft(a: int, b: int, c: int)
    requires 0 <= a && b <= c
    ensures a * b <= a * c
  {
  }

  lemma HsizePrime(q: nat, k: nat)
    requires k * q == HSIZE && 1 < k
    ensures q == 1
  {
    if q > 1 {
      if k < 264 {
        SmallDivisors(k, q);
      } else if q < 264 {
        SmallDivisors(q, k);
      } else {
        MulLeft(k, 264, q);
      }
      assert false;
    }
  }

  // ----- probing visits every slot -----

  /** No positive multiple of disp below HSIZE * disp is a multiple of HSIZE. */
  lemma {:induction false} NoShortCycle(k: nat, disp: nat, m: nat)
    requires 0 < k < HSIZE && 0 < disp < HSIZE
    ensures k * disp != m * HSIZE
    decreases k
  {
    if k * disp == m * HSIZE {
      var q, r := HSIZE / k, HSIZE % k;
      assert HSIZE == k * q + r;
      assert r * disp == (disp - q * m) * HSIZE by {
        assert r * disp == HSIZE * disp - (k * q) * disp;
        assert (k * q) * disp == q * (k * disp);
        assert q * (m * HSIZE) == (q * m) * HSIZE;
      }
      if r > 0 {
        assert r * disp > 0;
        if disp - q * m < 0 {
          MulLeft(HSIZE, disp - q * m, 0);
          assert false;
        }
        NoShortCycle(r, disp, disp - q * m);
        assert false;
      } else if k > 1 {
        HsizePrime(q, k);
        assert false;
      } else {
        if m > 0 {
          MulLeft(HSIZE, 1, m);
        }
        assert false;
      }
    }
  }

  /** One step of the secondary probe (compress/zopen.cc:301-302). */
  function Next(i: nat, disp: nat): (j: nat)
    requires i < HSIZE && 0 < disp < HSIZE
    ensures j < HSIZE
  {
    if i >= disp then i - disp else i + HSIZE - disp
  }

  /** The secondary hash (compress/zopen.cc:298-300). */
  function Disp(i: nat): (d: nat)
    requires i < HSIZE
    ensures 0 < d < HSIZE
  {
    if i == 0 then 1 else HSIZE - i
  }

  /** The slot looked at after k misses, starting from slot i. */
  function Probe(i: nat, k: nat): (j: nat)
    requires i < HSIZE
    ensures j < HSIZE
  {
    if k == 0 then i else Next(Probe(i, k - 1), Disp(i))
  }

  /** After a first miss at slot i the slot 2i is looked at, or the last one if i is 0. */
  lemma SecondProbe(i: nat)
    requires i < 69001
    ensures Probe(i, 1) == if i == 0 then 69000 else 2 * i % 69001
  {
    assert Probe(i, 1) == Next(Probe(i, 0), Disp(i));
  }

  lemma {:induction false} ProbeSum(i: nat, k: nat) returns (m: nat)
    requires i < HSIZE
    ensures Probe(i, k) == i - k * Disp(i) + m * HSIZE
  {
    if k == 0 {
      m := 0;
    } else {
      m := ProbeSum(i, k - 1);
      assert k * Disp(i) == (k - 1) * Disp(i) + Disp(i);
      if Probe(i, k - 1) < Disp(i) {
        m := m + 1;
      }
    }
  }

  /** Probing does not come back to a slot before it has seen all of them. */
  lemma ProbeInjective(i: nat, a: nat, b: nat)
    requires i < HSIZE && a < b < HSIZE
    ensures Probe(i, a) != Probe(i, b)
  {
    var ma := ProbeSum(i, a);
    var mb := ProbeSum(i, b);
    if Probe(i, a) == Probe(i, b) {
      var d := Disp(i);
      assert (b - a) * d == (mb - ma) * HSIZE by {
        assert (b - a) * d == b * d - a * d;
      }
      if mb < ma {
        MulLeft(d, 0, b - a);
        assert false;
      }
      NoShortCycle(b - a, d, mb - ma);
      assert false;
    }
  }

  ghost function Probed(i: nat, k: nat): set<nat>
    requires i < HSIZE
  {
    if k == 0 then {} else Probed(i, k - 1) + {Probe(i, k - 1)}
  }

  lemma {:induction false} ProbedIs(i: nat, k: nat, j: nat) returns (a: nat)
    requires i < HSIZE && j in Probed(i, k)
    ensures a < k && j == Probe(i, a)
  {
    if j == Probe(i, k - 1) {
      a := k - 1;
    } else {
      a := ProbedIs(i, k - 1, j);
    }
  }

  lemma {:induction false} ProbedSize(i: nat, k: nat)
    requires i < HSIZE && k <= HSIZE
    ensures |Probed(i, k)| == k
  {
    if k > 0 {
      ProbedSize(i, k - 1);
      if Probe(i, k - 1) in Probed(i, k - 1) {
        var a := ProbedIs(i, k - 1, Probe(i, k - 1));
        ProbeInjective(i, a, k - 1);
        assert false;
      }
    }
  }

  /** If the first k slots probed are all in use, k slots are in use. */
  lemma ProbedBound(i: nat, k: nat, used: set<nat>)
    requires i < HSIZE && k <= HSIZE
    requires forall a: nat :: a < k ==> Probe(i, a) in used
    ensures k <= |used|
  {
    ProbedSize(i, k);
    forall j | j in Probed(i, k) ensures j in used {
      var a := ProbedIs(i, k, j);
    }
    SubsetSize(Probed(i, k), used);
  }

  lemma SubsetSize(a: set<nat>, b: set<nat>)
    requires a <= b
    ensures |a| <= |b|
  {
    assert b == a + (b - a);
  }

  // ----- the table refines a map from (prefix code, byte) to code -----

  /** (c << hshift) ^ ent, hshift being 8 for a table of HSIZE slots (compress/zopen.cc:279-291). */
  function Hash(k: Pair): (i: nat)
    requires k.0 < 65536
    ensures i < HSIZE
  {
    ((k.1 * 256) as bv16 ^ k.0 as bv16) as int
  }

  /** (c << maxbits) + ent, what a used slot holds. */
  function Fcode(maxBits: nat, k: Pair): nat {
    Cat(k.0, maxBits, k.1)
  }

  lemma FcodeInjective(maxBits: nat, k: Pair, k': Pair)
    requires k.0 < Pow2(maxBits) && k'.0 < Pow2(maxBits) && Fcode(maxBits, k) == Fcode(maxBits, k')
    ensures k == k'
  {
    CatFields(k.0, maxBits, k.1);
    CatFields(k'.0, maxBits, k'.1);
  }

  /** The slots before the j-th that k probes are all in use, by other keys. */
  ghost predicate Passes(h: seq<int>, maxBits: nat, k: Pair, j: nat)
    requires |h| == HSIZE && k.0 < 65536
  {
    forall a: nat :: a < j ==> h[Probe(Hash(k), a)] >= 0 && h[Probe(Hash(k), a)] != Fcode(maxBits, k)
  }

  /** The j-th slot that k probes holds k. */
  ghost predicate Holds(h: seq<int>, ct: seq<nat>, maxBits: nat, k: Pair, code: nat, j: nat)
    requires |h| == |ct| == HSIZE && k.0 < 65536
  {
    var i := Probe(Hash(k), j);
    h[i] == Fcode(maxBits, k) && ct[i] == code && Passes(h, maxBits, k, j)
  }

  ghost predicate KeyOk(maxBits: nat, k: Pair) {
    k.0 < 65536 && k.0 < Pow2(maxBits)
  }

  /** A search for k ends on it. */
  ghost predicate Found(h: seq<int>, ct: seq<nat>, maxBits: nat, k: Pair, code: nat)
    requires |h| == |ct| == HSIZE
  {
    KeyOk(maxBits, k) && exists j :: Holds(h, ct, maxBits, k, code, j)
  }

  ghost predicate Keyed(maxBits: nat, dict: map<Pair, nat>, x: int) {
    exists k :: k in dict && x == Fcode(maxBits, k)
  }

  ghost predicate SlotsOk(h: seq<int>, maxBits: nat, dict: map<Pair, nat>, used: set<nat>) {
    && (forall i: nat :: i < |h| ==> h[i] >= -1 && (h[i] >= 0 <==> i in used))
    && (forall i: nat {:trigger Keyed(maxBits, dict, h[i])} :: i < |h| && h[i] >= 0 ==> Keyed(maxBits, dict, h[i]))
  }

  ghost predicate KeysOk(h: seq<int>, ct: seq<nat>, maxBits: nat, dict: map<Pair, nat>)
    requires |h| == |ct| == HSIZE
  {
    forall k <- dict :: Found(h, ct, maxBits, k, dict[k])
  }

  ghost predicate TableOk(h: seq<int>, ct: seq<nat>, maxBits: nat, dict: map<Pair, nat>, used: set<nat>) {
    |h| == |ct| == HSIZE && SlotsOk(h, maxBits, dict, used) && KeysOk(h, ct, maxBits, dict)
  }

  /** A search for k has passed j slots of a table in order. */
  ghost predicate Searching(h: seq<int>, ct: seq<nat>, maxBits: nat, dict: map<Pair, nat>, used: set<nat>,
                            k: Pair, j: nat)
  {
    && TableOk(h, ct, maxBits, dict, used) && |used| + 1 < HSIZE
    && k.0 < 65536 && (dict != map[] ==> KeyOk(maxBits, k))
    && Passes(h, maxBits, k, j) && j < HSIZE
  }

  lemma TableEmpty(h: seq<int>, ct: seq<nat>, maxBits: nat)
    requires |h| == |ct| == HSIZE && forall i :: 0 <= i < HSIZE ==> h[i] == -1
    ensures TableOk(h, ct, maxBits, map[], {})
  {
  }

  lemma SlotOf(h: seq<int>, ct: seq<nat>, maxBits: nat, dict: map<Pair, nat>, used: set<nat>, k: Pair) returns (j: nat)
    requires TableOk(h, ct, maxBits, dict, used) && k in dict
    ensures k.0 < 65536 && Holds(h, ct, maxBits, k, dict[k], j)
  {
    assert Found(h, ct, maxBits, k, dict[k]);
    j :| Holds(h, ct, maxBits, k, dict[k], j);
  }

  lemma KeyOf(h: seq<int>, ct: seq<nat>, maxBits: nat, dict: map<Pair, nat>, used: set<nat>, i: nat) returns (k: Pair)
    requires TableOk(h, ct, maxBits, dict, used) && i < HSIZE && h[i] >= 0
    ensures k in dict && KeyOk(maxBits, k) && h[i] == Fcode(maxBits, k)
  {
    assert Keyed(maxBits, dict, h[i]);
    k :| k in dict && h[i] == Fcode(maxBits, k);
    assert Found(h, ct, maxBits, k, dict[k]);
  }

  /** Two searches for the same key end in the same place. */
  lemma SearchUnique(h: seq<int>, maxBits: nat, k: Pair, j: nat, j': nat)
    requires |h| == HSIZE && k.0 < 65536
    requires Passes(h, maxBits, k, j) && (h[Probe(Hash(k), j)] == Fcode(maxBits, k) || h[Probe(Hash(k), j)] < 0)
    requires Passes(h, maxBits, k, j') && h[Probe(Hash(k), j')] == Fcode(maxBits, k)
    ensures j == j'
  {
    var stop := h[Probe(Hash(k), j)];  // a search that ends here can not have passed here
    if j < j' {
      assert false;
    }
  }

  /** A slot with the right contents is a hit, and its code is the map's. */
  lemma HitIsRight(h: seq<int>, ct: seq<nat>, maxBits: nat, dict: map<Pair, nat>, used: set<nat>, k: Pair, j: nat)
    requires TableOk(h, ct, maxBits, dict, used) && k.0 < 65536 && (dict != map[] ==> KeyOk(maxBits, k))
    requires Passes(h, maxBits, k, j)
    requires h[Probe(Hash(k), j)] == Fcode(maxBits, k)
    ensures k in dict && ct[Probe(Hash(k), j)] == dict[k]
  {
    var k' := KeyOf(h, ct, maxBits, dict, used, Probe(Hash(k), j));
    FcodeInjective(maxBits, k, k');
    var j' := SlotOf(h, ct, maxBits, dict, used, k);
    SearchUnique(h, maxBits, k, j, j');
  }

  /** An empty slot ends the search with a miss. */
  lemma MissIsRight(h: seq<int>, ct: seq<nat>, maxBits: nat, dict: map<Pair, nat>, used: set<nat>, k: Pair, j: nat)
    requires TableOk(h, ct, maxBits, dict, used) && k.0 < 65536
    requires Passes(h, maxBits, k, j)
    requires h[Probe(Hash(k), j)] < 0
    ensures k !in dict
  {
    if k in dict {
      var j' := SlotOf(h, ct, maxBits, dict, used, k);
      SearchUnique(h, maxBits, k, j, j');
      assert false;
    }
  }

  lemma PassOne(h: seq<int>, maxBits: nat, k: Pair, j: nat)
    requires |h| == HSIZE && k.0 < 65536 && Passes(h, maxBits, k, j)
    requires h[Probe(Hash(k), j)] >= 0 && h[Probe(Hash(k), j)] != Fcode(maxBits, k)
    ensures Passes(h, maxBits, k, j + 1)
  {
  }

  /** The search can not go on for ever: it ends before it has passed more slots than are used. */
  lemma SearchBound(h: seq<int>, ct: seq<nat>, maxBits: nat, dict: map<Pair, nat>, used: set<nat>, k: Pair, j: nat)
    requires TableOk(h, ct, maxBits, dict, used) && k.0 < 65536 && |used| < HSIZE
    requires Passes(h, maxBits, k, j) && j < HSIZE
    ensures j <= |used|
  {
    ProbedBound(Hash(k), j, used);
  }

  /** What the slot reached says: a hit, a miss, or one more slot to pass. */
  lemma SearchStep(h: seq<int>, ct: seq<nat>, maxBits: nat, dict: map<Pair, nat>, used: set<nat>, k: Pair, j: nat)
    requires Searching(h, ct, maxBits, dict, used, k, j)
    ensures var i := Probe(Hash(k), j);
            if h[i] == Fcode(maxBits, k) then k in dict && ct[i] == dict[k]
            else if h[i] < 0 then k !in dict
            else Searching(h, ct, maxBits, dict, used, k, j + 1)
  {
    var i := Probe(Hash(k), j);
    if h[i] == Fcode(maxBits, k) {
      HitIsRight(h, ct, maxBits, dict, used, k, j);
    } else if h[i] < 0 {
      MissIsRight(h, ct, maxBits, dict, used, k, j);
    } else {
      PassOne(h, maxBits, k, j);
      SearchBound(h, ct, maxBits, dict, used, k, j);
    }
  }

  /** A search ends: after J slots, at the key, or at an empty slot when the key is not in the map. */
  lemma {:induction false} SearchEnds(h: seq<int>, ct: seq<nat>, maxBits: nat, dict: map<Pair, nat>, used: set<nat>,
                                      k: Pair, j: nat)
    returns (J: nat)
    requires Searching(h, ct, maxBits, dict, used, k, j)
    ensures Passes(h, maxBits, k, J)
    ensures var i := Probe(Hash(k), J);
            if k in dict then h[i] == Fcode(maxBits, k) && ct[i] == dict[k] else h[i] < 0
    decreases HSIZE - j
  {
    SearchStep(h, ct, maxBits, dict, used, k, j);
    if h[Probe(Hash(k), j)] == Fcode(maxBits, k) || h[Probe(Hash(k), j)] < 0 {
      J := j;
    } else {
      J := SearchEnds(h, ct, maxBits, dict, used, k, j + 1);
    }
  }

  /** Filling an empty slot with another key does not disturb a search that passed used slots only. */
  lemma PassesKept(h: seq<int>, maxBits: nat, k: Pair, j: nat, i: nat, k': Pair)
    requires |h| == HSIZE && k.0 < 65536 && i < HSIZE && h[i] < 0
    requires Passes(h, maxBits, k, j)
    ensures Passes(h[i := Fcode(maxBits, k')], maxBits, k, j)
  {
  }

  lemma FoundKept(h: seq<int>, ct: seq<nat>, maxBits: nat, k: Pair, code: nat, i: nat, k': Pair, code': nat)
    requires |h| == |ct| == HSIZE && i < HSIZE && h[i] < 0
    requires Found(h, ct, maxBits, k, code)
    ensures Found(h[i := Fcode(maxBits, k')], ct[i := code'], maxBits, k, code)
  {
    var j :| Holds(h, ct, maxBits, k, code, j);
    PassesKept(h, maxBits, k, j, i, k');
    assert Holds(h[i := Fcode(maxBits, k')], ct[i := code'], maxBits, k, code, j);
  }

  lemma FoundNew(h: seq<int>, ct: seq<nat>, maxBits: nat, k: Pair, code: nat, j: nat)
    requires |h| == |ct| == HSIZE && KeyOk(maxBits, k)
    requires Passes(h, maxBits, k, j) && h[Probe(Hash(k), j)] < 0
    ensures var i := Probe(Hash(k), j);
            Found(h[i := Fcode(maxBits, k)], ct[i := code], maxBits, k, code)
  {
    var i := Probe(Hash(k), j);
    PassesKept(h, maxBits, k, j, i, k);
    assert Holds(h[i := Fcode(maxBits, k)], ct[i := code], maxBits, k, code, j);
  }

  lemma KeyedKept(maxBits: nat, dict: map<Pair, nat>, k: Pair, code: nat, x: int)
    requires Keyed(maxBits, dict, x) || x == Fcode(maxBits, k)
    ensures Keyed(maxBits, dict[k := code], x)
  {
    if Keyed(maxBits, dict, x) {
      var k' :| k' in dict && x == Fcode(maxBits, k');
      assert k' in dict[k := code];
    } else {
      assert k in dict[k := code];
    }
  }

  /** Filling the empty slot a missed search ended on adds the key to the map. */
  lemma InsertIsRight(h: seq<int>, ct: seq<nat>, maxBits: nat, dict: map<Pair, nat>, used: set<nat>,
                      k: Pair, j: nat, code: nat)
    requires TableOk(h, ct, maxBits, dict, used) && KeyOk(maxBits, k) && k !in dict
    requires Passes(h, maxBits, k, j) && h[Probe(Hash(k), j)] < 0
    ensures var i := Probe(Hash(k), j);
            && i !in used
            && TableOk(h[i := Fcode(maxBits, k)], ct[i := code], maxBits, dict[k := code], used + {i})
  {
    var i := Probe(Hash(k), j);
    FoundNew(h, ct, maxBits, k, code, j);
    KeysGrow(h, ct, maxBits, dict, k, code, i);
    SlotsGrow(h, maxBits, dict, used, k, code, i);
  }

  lemma KeysGrow(h: seq<int>, ct: seq<nat>, maxBits: nat, dict: map<Pair, nat>, k: Pair, code: nat, i: nat)
    requires |h| == |ct| == HSIZE && i < HSIZE && h[i] < 0 && KeysOk(h, ct, maxBits, dict)
    requires Found(h[i := Fcode(maxBits, k)], ct[i := code], maxBits, k, code)
    ensures KeysOk(h[i := Fcode(maxBits, k)], ct[i := code], maxBits, dict[k := code])
  {
    forall k' | k' in dict && k' != k
      ensures Found(h[i := Fcode(maxBits, k)], ct[i := code], maxBits, k', dict[k'])
    {
      FoundKept(h, ct, maxBits, k', dict[k'], i, k, code);
    }
  }

  lemma SlotsGrow(h: seq<int>, maxBits: nat, dict: map<Pair, nat>, used: set<nat>, k: Pair, code: nat, i: nat)
    requires i < |h| && h[i] < 0 && SlotsOk(h, maxBits, dict, used)
    ensures SlotsOk(h[i := Fcode(maxBits, k)], maxBits, dict[k := code], used + {i})
  {
    var h' := h[i := Fcode(maxBits, k)];
    forall s: nat | s < |h'| && h'[s] >= 0 ensures Keyed(maxBits, dict[k := code], h'[s]) {
      KeyedKept(maxBits, dict, k, code, h'[s]);
    }
  }
}
