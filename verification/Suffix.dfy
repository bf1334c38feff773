/** The names of split's pieces (split/split.cc:157-176): numbers in base 26, written in letters. */
module Suffix {
  import opened Seqs

  /** 26^n: how many suffixes of n letters there are. */
  function Pow26(n: nat): (p: nat)
    ensures p > 0
  {
    if n == 0 then 1 else 26 * Pow26(n - 1)
  }

  function Letter(d: nat): char
    requires d < 26
  {
    (97 + d) as char
  }

  /** k in base 26 with n digits. */
  function Of(k: nat, n: nat): (s: string)
    ensures |s| == n && forall c <- s :: 'a' <= c <= 'z'
  {
    if n == 0 then [] else Of(k / 26, n - 1) + [Letter(k % 26)]
  }

  /** The number that letters spell. */
  function Value(s: string): nat {
    if s == [] then 0
    else 26 * Value(s[..|s| - 1]) + if 'a' <= s[|s| - 1] <= 'z' then s[|s| - 1] as nat - 97 else 0
  }

  lemma {:induction false} ValueOf(k: nat, n: nat)
    requires k < Pow26(n)
    ensures Value(Of(k, n)) == k
  {
    if n > 0 {
      ValueOf(k / 26, n - 1);
      assert Of(k, n)[..n - 1] == Of(k / 26, n - 1);
    }
  }

  /** incr_suffix on a suffix that is not empty: true when it has run over. */
  function Incr(s: string): (bool, string) {
    if s == [] then (true, [])
    else
      var n := |s| - 1;
      if s[n] != 'z' && s[n] as int < 122 then (false, s[..n] + [(s[n] as int + 1) as char])
      else (Incr(s[..n]).0, Incr(s[..n]).1 + ['a'])
  }

  /** The loop of incr_suffix on s has come to t, with k letters still to look at: all behind them
      have run over. */
  ghost predicate Carried(s: string, k: nat, t: string) {
    && k <= |s| == |t| && t[..k] == s[..k]
    && Incr(s) == (Incr(s[..k]).0, Incr(s[..k]).1 + t[k..])
  }

  lemma CarryStart(s: string)
    ensures Carried(s, |s|, s)
  {
    assert s[..|s|] == s && s[|s|..] == [] && Incr(s).1 + [] == Incr(s).1;
  }

  lemma SameLetter(s: string, k: nat, t: string)
    requires 0 < k && Carried(s, k, t)
    ensures t[k - 1] == s[k - 1] && s[k - 1] in s
  {
    assert t[..k][k - 1] == s[..k][k - 1];
  }

  /** A letter other than z is counted up, and that is all. */
  lemma CarryStop(s: string, k: nat, t: string)
    requires 0 < k && Carried(s, k, t) && 'a' <= s[k - 1] < 'z'
    ensures t[k - 1] == s[k - 1] && Incr(s) == (false, t[k - 1 := (t[k - 1] as int + 1) as char])
  {
    var h, i := s[..k], k - 1;
    assert h[i] == s[i] == t[..k][i] == t[i] && h[..i] == s[..i] == t[..k][..i] == t[..i];
    assert t[i := (t[i] as int + 1) as char] == t[..i] + [(t[i] as int + 1) as char] + t[k..];
  }

  /** A z runs over. */
  lemma CarryOn(s: string, k: nat, t: string)
    requires 0 < k && Carried(s, k, t) && s[k - 1] == 'z'
    ensures t[k - 1] == 'z' && Carried(s, k - 1, t[k - 1 := 'a'])
  {
    var h, i := s[..k], k - 1;
    var u := t[i := 'a'];
    assert h[i] == s[i] == t[..k][i] == t[i] && h[..i] == s[..i] == t[..k][..i] == u[..i];
    assert u[i..] == ['a'] + t[k..];
    Assoc(Incr(s[..i]).1, ['a'], t[k..]);
  }

  lemma CarryOut(s: string, t: string)
    requires Carried(s, 0, t)
    ensures Incr(s) == (true, t)
  {
    assert s[..0] == [] && t[0..] == t && [] + t == t;
  }

  /** It counts. */
  lemma {:induction false} IncrCounts(k: nat, n: nat)
    requires k < Pow26(n)
    ensures Incr(Of(k, n)) == if k + 1 < Pow26(n) then (false, Of(k + 1, n)) else (true, Of(0, n))
  {
    if n > 0 {
      IncrCounts(k / 26, n - 1);
      var s := Of(k, n);
      assert s[..n - 1] == Of(k / 26, n - 1) && s[n - 1] == Letter(k % 26);
      if k % 26 < 25 {
        assert (k + 1) / 26 == k / 26 && (k + 1) % 26 == k % 26 + 1;
      } else {
        assert (k + 1) / 26 == k / 26 + 1 && (k + 1) % 26 == 0;
        assert 0 / 26 == 0 && 0 % 26 == 0;
      }
    }
  }

  // ----- the order of the names -----

  predicate LexLess(s: string, t: string)
    requires |s| == |t|
  {
    s != [] && (s[0] < t[0] || (s[0] == t[0] && LexLess(s[1..], t[1..])))
  }

  lemma {:induction false} LexSnoc(s: string, t: string, c: char, d: char)
    requires |s| == |t|
    ensures LexLess(s + [c], t + [d]) <==> LexLess(s, t) || (s == t && c < d)
  {
    if s == [] {
      assert s + [c] == [c] && t + [d] == [d];
    } else {
      assert (s + [c])[1..] == s[1..] + [c] && (t + [d])[1..] == t[1..] + [d];
      LexSnoc(s[1..], t[1..], c, d);
      assert s == [s[0]] + s[1..] && t == [t[0]] + t[1..];
    }
  }

  /** Later pieces have later names. */
  lemma {:induction false} LaterIsLater(j: nat, k: nat, n: nat)
    requires j < k < Pow26(n)
    ensures LexLess(Of(j, n), Of(k, n))
    decreases n
  {
    LexSnoc(Of(j / 26, n - 1), Of(k / 26, n - 1), Letter(j % 26), Letter(k % 26));
    if j / 26 < k / 26 {
      LaterIsLater(j / 26, k / 26, n - 1);
    }
  }

  /** The first names, the last with two letters, and how many there are. */
  lemma TwoLetters()
    ensures Of(0, 2) == "aa" && Of(1, 2) == "ab" && Of(25, 2) == "az" && Of(26, 2) == "ba" && Of(675, 2) == "zz"
    ensures Pow26(2) == 676
  {
  }
}
