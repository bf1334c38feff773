/** sort -m (sort/sort.cc:143-233): the vector of files, each with the line it holds. The files are
    open and reading them does not fail. */
module Sort {
  import opened SortSpec

  /** The lines of the file not read yet, and the line held, if one is. */
  datatype MergeFile = MergeFile(rest: seq<Line>, line: Line, haveLine: bool)

  function Held(mf: MergeFile): seq<Line> {
    (if mf.haveLine then [mf.line] else []) + mf.rest
  }

  /** qs are the queues that the files stand for. */
  ghost predicate StandsFor(mfs: seq<MergeFile>, qs: seq<Queue>) {
    |mfs| == |qs| && forall i :: 0 <= i < |mfs| ==> Held(mfs[i]) == Lines(qs[i])
  }

  /** merge_mode_input (sort/sort.cc:143-164): false when there is no line to hold. */
  method MergeModeInput(mf0: MergeFile) returns (ok: bool, mf: MergeFile)
    ensures Held(mf) == Held(mf0) && ok == (Held(mf) != []) && (ok ==> mf.haveLine)
  {
    mf := mf0;
    if mf.haveLine {
      return true, mf;
    }
    if mf.rest == [] {
      return false, mf;
    }
    mf := MergeFile(mf.rest[1..], mf.rest[0], true);
    ok := true;
  }

  ghost predicate AllDead(qs: seq<Queue>, n: nat, del: seq<nat>) {
    n <= |qs| && forall k :: 0 <= k < |del| ==> del[k] < n && qs[del[k]] == []
  }

  ghost predicate Rising(del: seq<nat>) {
    forall j, k :: 0 <= j < k < |del| ==> del[j] < del[k]
  }

  ghost predicate NoneMissed(qs: seq<Queue>, n: nat, del: seq<nat>) {
    n <= |qs| && forall i :: 0 <= i < n && qs[i] == [] ==> i in del
  }

  /** del lists the places of the empty queues among the first n, in order. */
  ghost predicate Dead(qs: seq<Queue>, n: nat, del: seq<nat>) {
    AllDead(qs, n, del) && Rising(del) && NoneMissed(qs, n, del)
  }

  lemma DeadGrows(qs: seq<Queue>, n: nat, del: seq<nat>)
    requires Dead(qs, n, del) && n < |qs|
    ensures if qs[n] == [] then Dead(qs, n + 1, del + [n]) else Dead(qs, n + 1, del)
  {
    if qs[n] == [] {
      assert (del + [n])[|del|] == n;
      assert forall i :: i in del ==> i in del + [n];
    }
  }

  ghost function DeadList(qs: seq<Queue>, n: nat): seq<nat>
    requires n <= |qs|
  {
    if n == 0 then [] else if qs[n - 1] == [] then DeadList(qs, n - 1) + [n - 1] else DeadList(qs, n - 1)
  }

  lemma {:induction false} DeadListIs(qs: seq<Queue>, n: nat)
    requires n <= |qs|
    ensures Dead(qs, n, DeadList(qs, n))
  {
    if n > 0 {
      DeadListIs(qs, n - 1);
      DeadGrows(qs, n - 1, DeadList(qs, n - 1));
    }
  }

  /** Where the part already cleared begins when the first j entries of del are left. */
  ghost function Bound(qs: seq<Queue>, del: seq<nat>, j: nat): nat
    requires j <= |del|
  {
    if j == |del| then |qs| else del[j]
  }

  lemma {:induction false} NonEmptyConcat(a: seq<Queue>, b: seq<Queue>)
    ensures NonEmpty(a + b) == NonEmpty(a) + NonEmpty(b)
  {
    if a == [] {
      assert a + b == b;
    } else {
      NonEmptyConcat(a[1..], b);
      assert (a + b)[1..] == a[1..] + b && (a + b)[0] == a[0];
      if a[0] != [] {
        var x, y, z := [a[0]], NonEmpty(a[1..]), NonEmpty(b);
        assert x + (y + z) == x + y + z;
      }
    }
  }

  lemma {:induction false} NonEmptyWhole(a: seq<Queue>)
    requires NoneEmpty(a)
    ensures NonEmpty(a) == a
  {
    if a != [] {
      NonEmptyWhole(a[1..]);
      assert a == [a[0]] + a[1..];
    }
  }

  /** Erasing from the back: the queue at t is empty, those after it up to b are not. */
  lemma EraseOne(qs: seq<Queue>, t: nat, b: nat)
    requires t < b <= |qs| && qs[t] == [] && forall i :: t < i < b ==> qs[i] != []
    ensures var r := qs[..b] + NonEmpty(qs[b..]);
            r[..t] + r[t + 1..] == qs[..t] + NonEmpty(qs[t..])
  {
    var mid, r := qs[t + 1..b], qs[..b] + NonEmpty(qs[b..]);
    assert qs[t..] == [qs[t]] + (mid + qs[b..]);
    assert ([qs[t]] + (mid + qs[b..]))[1..] == mid + qs[b..];
    NonEmptyConcat(mid, qs[b..]);
    NonEmptyWhole(mid);
    assert r[t + 1..] == mid + NonEmpty(qs[b..]);
  }

  lemma NonEmptyFront(a: seq<Queue>, b: seq<Queue>)
    requires NoneEmpty(a)
    ensures a + NonEmpty(b) == NonEmpty(a + b)
  {
    NonEmptyWhole(a);
    NonEmptyConcat(a, b);
  }

  /** Between two neighbours in del nothing is empty. */
  lemma NothingBetween(qs: seq<Queue>, del: seq<nat>, j: nat, i: nat)
    requires Dead(qs, |qs|, del) && j <= |del| && i < Bound(qs, del, j) && (j > 0 ==> del[j - 1] < i)
    ensures qs[i] != []
  {
  }

  /** The queues from b on without the empty ones. */
  ghost function Cleared(qs: seq<Queue>, b: nat): seq<Queue>
    requires b <= |qs|
  {
    qs[..b] + NonEmpty(qs[b..])
  }

  lemma ClearedAll(qs: seq<Queue>)
    ensures Cleared(qs, |qs|) == qs
  {
  }

  lemma DeadStep(qs: seq<Queue>, del: seq<nat>, j: nat)
    requires Dead(qs, |qs|, del) && 0 < j <= |del|
    ensures var t := del[j - 1];
            var r := Cleared(qs, Bound(qs, del, j));
            t < |r| && Cleared(qs, Bound(qs, del, j - 1)) == r[..t] + r[t + 1..]
  {
    var b := Bound(qs, del, j);
    forall i | del[j - 1] < i < b ensures qs[i] != [] {
      NothingBetween(qs, del, j, i);
    }
    EraseOne(qs, del[j - 1], b);
  }

  lemma FrontAlive(qs: seq<Queue>, del: seq<nat>)
    requires Dead(qs, |qs|, del)
    ensures NoneEmpty(qs[..Bound(qs, del, 0)])
  {
    forall i | 0 <= i < Bound(qs, del, 0) ensures qs[i] != [] {
      NothingBetween(qs, del, 0, i);
    }
  }

  lemma DeadEnd(qs: seq<Queue>, del: seq<nat>)
    requires Dead(qs, |qs|, del)
    ensures Cleared(qs, Bound(qs, del, 0)) == NonEmpty(qs)
  {
    var b := Bound(qs, del, 0);
    FrontAlive(qs, del);
    assert qs == qs[..b] + qs[b..];
    NonEmptyFront(qs[..b], qs[b..]);
  }

  class Merger {
    const o: Collation
    var mergeFiles: seq<MergeFile>
    var output: seq<Line>
    ghost var qs: seq<Queue>  // the tagged lines that the files still have

    ghost predicate Valid()
      reads this
    {
      StandsFor(mergeFiles, qs)
    }

    /** The files of the command line (sort/sort.cc:135-141), with no line held: that is what
        merge_mode_input expects, though nothing in MergeFile says so. */
    constructor (o: Collation, files: seq<seq<Line>>)
      ensures Valid() && qs == Tag(files) && output == [] && this.o == o
    {
      this.o := o;
      mergeFiles := seq(|files|, i requires 0 <= i < |files| => MergeFile(files[i], "", false));
      output := [];
      qs := Tag(files);
    }

    /** merge_mode_input of one file in its place. */
    method Fill(i: nat) returns (ok: bool)
      requires Valid() && i < |qs|
      modifies this`mergeFiles
      ensures Valid() && (ok <==> qs[i] != []) && (ok ==> mergeFiles[i].haveLine)
      ensures forall k :: 0 <= k < |qs| && k != i ==> mergeFiles[k] == old(mergeFiles)[k]
    {
      var mf;
      ok, mf := MergeModeInput(mergeFiles[i]);
      mergeFiles := mergeFiles[i := mf];
    }

    /** The first loop of merge_mode_input_more (sort/sort.cc:190-196). */
    method FillAll() returns (delIdx: seq<nat>)
      requires Valid()
      modifies this`mergeFiles
      ensures Valid() && Dead(qs, |qs|, delIdx) && Holding()
    {
      delIdx := [];
      var i := 0;
      while i < |mergeFiles|
        invariant i <= |mergeFiles| && Valid() && delIdx == DeadList(qs, i)
        invariant forall k :: 0 <= k < i && qs[k] != [] ==> mergeFiles[k].haveLine
      {
        var ok := Fill(i);
        if !ok {
          delIdx := delIdx + [i];
        }
        i := i + 1;
      }
      DeadListIs(qs, |qs|);
    }

    /** mergeFiles.erase */
    method Erase(target: nat)
      requires Valid() && target < |qs| && Holding()
      modifies this`mergeFiles, this`qs
      ensures Valid() && qs == old(qs[..target] + qs[target + 1..]) && Holding()
    {
      mergeFiles := mergeFiles[..target] + mergeFiles[target + 1..];
      qs := qs[..target] + qs[target + 1..];
    }

    /** Every file that has a line holds one. */
    ghost predicate Holding()
      requires Valid()
      reads this
    {
      forall i :: 0 <= i < |qs| && qs[i] != [] ==> mergeFiles[i].haveLine
    }

    /** One turn of the second loop. */
    method EraseNext(ghost all: seq<Queue>, delIdx: seq<nat>, j: nat)
      requires Valid() && Holding() && Dead(all, |all|, delIdx) && 0 < j <= |delIdx|
      requires qs == Cleared(all, Bound(all, delIdx, j))
      modifies this`mergeFiles, this`qs
      ensures Valid() && Holding() && qs == Cleared(all, Bound(all, delIdx, j - 1))
    {
      DeadStep(all, delIdx, j);
      Erase(delIdx[j - 1]);
    }

    /** The second loop, over the reversed list (sort/sort.cc:201-207). */
    method EraseAll(delIdx: seq<nat>)
      requires Valid() && Dead(qs, |qs|, delIdx) && Holding()
      modifies this`mergeFiles, this`qs
      ensures Valid() && qs == NonEmpty(old(qs)) && Holding()
    {
      ghost var all := qs;
      var j: nat := |delIdx|;
      ClearedAll(all);
      while j > 0
        invariant j <= |delIdx| && Valid() && Holding()
        invariant qs == Cleared(all, Bound(all, delIdx, j))
      {
        EraseNext(all, delIdx, j);
        j := j - 1;
      }
      DeadEnd(all, delIdx);
    }

    /** merge_mode_input_more (sort/sort.cc:186-210) */
    method MergeModeInputMore()
      requires Valid()
      modifies this`mergeFiles, this`qs
      ensures Valid() && qs == NonEmpty(old(qs)) && Holding()
    {
      var delIdx := FillAll();
      EraseAll(delIdx);
    }

    /** merge_mode_next_idx (sort/sort.cc:166-176) */
    method MergeModeNextIdx() returns (cmpIdx: nat)
      requires Valid() && |qs| > 0 && NoneEmpty(qs) && Holding()
      ensures cmpIdx == NextIdx(o, qs, |qs|)
    {
      cmpIdx := 0;
      var i := 1;
      while i < |mergeFiles|
        invariant 1 <= i <= |mergeFiles| && cmpIdx == NextIdx(o, qs, i)
      {
        HeadHeld(mergeFiles[cmpIdx], qs[cmpIdx]);
        HeadHeld(mergeFiles[i], qs[i]);
        if !LineCompare(o, mergeFiles[cmpIdx].line, mergeFiles[i].line) {
          cmpIdx := i;
        }
        i := i + 1;
      }
    }

    /** merge_mode_output (sort/sort.cc:178-184) */
    method MergeModeOutput(i: nat)
      requires Valid() && i < |qs| && qs[i] != [] && mergeFiles[i].haveLine
      modifies this
      ensures Valid() && output == old(output) + [old(qs)[i][0].line] && qs == old(qs)[i := old(qs)[i][1..]]
    {
      HeadHeld(mergeFiles[i], qs[i]);
      output := output + [mergeFiles[i].line];
      mergeFiles := mergeFiles[i := mergeFiles[i].(haveLine := false)];
      qs := qs[i := qs[i][1..]];
    }

    /** merge_mode_post_walk (sort/sort.cc:212-233) */
    method MergeModePostWalk()
      requires Valid()
      modifies this
      ensures output == old(output) + Lines(Merge(o, old(qs)))
    {
      ghost var before, all := output, qs;
      assert output + Lines(Merge(o, qs)) == before + Lines(Merge(o, all));
      while |mergeFiles| > 0
        invariant Valid() && output + Lines(Merge(o, qs)) == before + Lines(Merge(o, all))
        decreases Total(qs), |mergeFiles|
      {
        ghost var was := qs;
        TotalNonEmpty(qs);
        MergeModeInputMore();
        if |mergeFiles| == 0 {
          assert Merge(o, was) == [] && output + [] == output;
          return;
        }
        MergeOne(o, was, output);
        TotalTaken(qs, NextIdx(o, qs, |qs|));
        if |mergeFiles| == 1 {
          MergeModeOutput(0);
        } else {
          var nextIdx := MergeModeNextIdx();
          MergeModeOutput(nextIdx);
        }
      }
      assert Merge(o, qs) == [] && output + [] == output;
    }
  }

  lemma HeadHeld(mf: MergeFile, q: Queue)
    requires Held(mf) == Lines(q) && q != [] && mf.haveLine
    ensures mf.line == q[0].line && mf.rest == Lines(q[1..])
  {
    assert Held(mf)[0] == Lines(q)[0];
    assert mf.rest == Held(mf)[1..] == Lines(q)[1..] == Lines(q[1..]);
  }

  /** One line of the merge. */
  lemma MergeOne(o: Collation, qs: seq<Queue>, out: seq<Line>)
    requires NonEmpty(qs) != []
    ensures var q := NonEmpty(qs);
            var c := NextIdx(o, q, |q|);
            out + [q[c][0].line] + Lines(Merge(o, q[c := q[c][1..]])) == out + Lines(Merge(o, qs))
  {
    var q := NonEmpty(qs);
    var c := NextIdx(o, q, |q|);
    TotalNonEmpty(qs);
    TotalTaken(q, c);
    assert Lines(Merge(o, qs)) == [q[c][0].line] + Lines(Merge(o, q[c := q[c][1..]]));
  }

  /** sort -m on files of lines: what it prints is the merge. */
  method SortMerge(o: Collation, files: seq<seq<Line>>) returns (output: seq<Line>)
    ensures output == Lines(Merge(o, Tag(files)))
  {
    var m := new Merger(o, files);
    m.MergeModePostWalk();
    output := m.output;
    assert [] + Lines(Merge(o, Tag(files))) == Lines(Merge(o, Tag(files)));
  }
}
