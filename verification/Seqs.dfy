/** Sequences and options, as every part of the project needs them. */
module Seqs {

  datatype Option<T> = None | Some(value: T)

  function Min(a: nat, b: nat): nat { if a < b then a else b }

  function Concat<T>(parts: seq<seq<T>>): seq<T> {
    if parts == [] then [] else parts[0] + Concat(parts[1..])
  }

  lemma {:induction false} ConcatSnoc<T>(parts: seq<seq<T>>, p: seq<T>)
    ensures Concat(parts + [p]) == Concat(parts) + p
  {
    if parts == [] {
      assert [] + [p] == [p] && [p][1..] == [] && p + [] == p;
    } else {
      assert (parts + [p])[1..] == parts[1..] + [p] && (parts + [p])[0] == parts[0];
      ConcatSnoc(parts[1..], p);
      Assoc(parts[0], Concat(parts[1..]), p);
    }
  }

  lemma ConcatNext<T>(parts: seq<seq<T>>, k: nat)
    requires k < |parts|
    ensures Concat(parts[..k + 1]) == Concat(parts[..k]) + parts[k]
  {
    ConcatSnoc(parts[..k], parts[k]);
    assert parts[..k] + [parts[k]] == parts[..k + 1];
  }

  lemma Assoc<T>(a: seq<T>, b: seq<T>, c: seq<T>)
    ensures a + (b + c) == a + b + c
  {
  }

  lemma Nested<T>(a: seq<T>, b: seq<T>, c: seq<T>, s: seq<T>)
    ensures a + b + c + s == a + (b + (c + s))
  {
  }

  lemma Assoc3<T>(a: seq<T>, b: seq<T>, c: seq<T>, d: seq<T>)
    ensures a + b + c + d == a + (b + c + d)
  {
  }

  lemma CutAt<T>(s: seq<T>, n: nat)
    requires n <= |s|
    ensures s[..n] + s[n..] == s
  {
  }

  lemma PrefixRest<T>(a: seq<T>, s: seq<T>)
    requires a <= s
    ensures s == a + s[|a|..]
  {
  }

  lemma DropTwice<T>(s: seq<T>, i: nat, n: nat, j: nat)
    requires j == i + n <= |s|
    ensures s[i..][n..] == s[j..]
  {
  }

  lemma HeadTail<T>(s: seq<T>)
    requires s != []
    ensures s == [s[0]] + s[1..]
  {
  }

  lemma SliceStep<T>(a: seq<T>, s: seq<T>, n: nat, m: nat)
    requires m == n + 1 <= |s|
    ensures a + [s[0]] + s[1..][..n] == a + s[..m]
  {
  }

  /** The first n elements, or all if there are fewer. */
  function Front<T>(t: seq<T>, n: nat): seq<T> {
    if n <= |t| then t[..n] else t
  }
}
