/** The merge of sort -m (sort/sort.cc:143-233) on values: every line is tagged with its file and its
    place in it, so that the order among equal lines can be spoken about. */
module SortSpec {

  type Line = string

  /** strcoll, and the -r option. */
  datatype Collation = Collation(coll: (Line, Line) -> int, reverse: bool)

  /** strcoll is a total preorder, and the sign of its result turns round with its arguments. */
  ghost predicate Collates(o: Collation) {
    && (forall a, b :: o.coll(a, b) <= 0 <==> o.coll(b, a) >= 0)
    && (forall a, b, c :: o.coll(a, b) <= 0 && o.coll(b, c) <= 0 ==> o.coll(a, c) <= 0)
  }

  /** line_compare (sort/sort.cc:125-133) */
  predicate LineCompare(o: Collation, a: Line, b: Line) {
    (if o.reverse then -o.coll(a, b) else o.coll(a, b)) <= 0
  }

  lemma CompareTotal(o: Collation, a: Line, b: Line)
    requires Collates(o)
    ensures LineCompare(o, a, b) || LineCompare(o, b, a)
  {
    assert o.coll(a, b) <= 0 <==> o.coll(b, a) >= 0;
    assert o.coll(b, a) <= 0 <==> o.coll(a, b) >= 0;
  }

  lemma CompareTrans(o: Collation, a: Line, b: Line, c: Line)
    requires Collates(o) && LineCompare(o, a, b) && LineCompare(o, b, c)
    ensures LineCompare(o, a, c)
  {
    assert o.coll(c, a) <= 0 <==> o.coll(a, c) >= 0;
    assert o.coll(b, a) <= 0 <==> o.coll(a, b) >= 0;
    assert o.coll(c, b) <= 0 <==> o.coll(b, c) >= 0;
  }

  /** A line, the file it comes from, and its place there. */
  datatype Item = Item(line: Line, file: nat, pos: nat)

  type Queue = seq<Item>

  function Lines(s: seq<Item>): (ls: seq<Line>)
    ensures |ls| == |s|
  {
    seq(|s|, i requires 0 <= i < |s| => s[i].line)
  }

  /** The files in the order given. */
  function Tag(files: seq<seq<Line>>): (qs: seq<Queue>)
    ensures |qs| == |files|
  {
    seq(|files|, f requires 0 <= f < |files| => TagFile(files[f], f))
  }

  function TagFile(lines: seq<Line>, f: nat): (q: Queue)
    ensures |q| == |lines|
  {
    seq(|lines|, p requires 0 <= p < |lines| => Item(lines[p], f, p))
  }

  // ----- one output line -----

  predicate NoneEmpty(qs: seq<Queue>) { forall i :: 0 <= i < |qs| ==> qs[i] != [] }

  /** The files that still have a line, in order. */
  function NonEmpty(qs: seq<Queue>): (r: seq<Queue>)
    ensures NoneEmpty(r)
  {
    if qs == [] then [] else if qs[0] == [] then NonEmpty(qs[1..]) else [qs[0]] + NonEmpty(qs[1..])
  }

  /** merge_mode_next_idx over the first k files (sort/sort.cc:166-176). */
  function NextIdx(o: Collation, qs: seq<Queue>, k: nat): (c: nat)
    requires NoneEmpty(qs) && 0 < k <= |qs|
    ensures c < k
  {
    if k == 1 then 0
    else
      var c := NextIdx(o, qs, k - 1);
      if LineCompare(o, qs[c][0].line, qs[k - 1][0].line) then c else k - 1
  }

  /** It is the first of the least. */
  lemma {:induction false} NextIsFirstLeast(o: Collation, qs: seq<Queue>, k: nat, i: nat)
    requires Collates(o) && NoneEmpty(qs) && i < k <= |qs|
    ensures var c := NextIdx(o, qs, k);
            && LineCompare(o, qs[c][0].line, qs[i][0].line)
            && (i < c ==> !LineCompare(o, qs[i][0].line, qs[c][0].line))
  {
    if k == 1 {
      CompareTotal(o, qs[0][0].line, qs[0][0].line);
    } else {
      var b := NextIdx(o, qs, k - 1);
      var x, y, z := qs[b][0].line, qs[k - 1][0].line, qs[i][0].line;
      CompareTotal(o, x, y);
      CompareTotal(o, y, y);
      if i < k - 1 {
        NextIsFirstLeast(o, qs, k - 1, i);
        if !LineCompare(o, x, y) {
          CompareTrans(o, y, x, z);
          if LineCompare(o, z, y) {
            CompareTrans(o, x, z, y);
          }
        }
      }
    }
  }

  function Total(qs: seq<Queue>): nat {
    if qs == [] then 0 else |qs[0]| + Total(qs[1..])
  }

  lemma {:induction false} TotalNonEmpty(qs: seq<Queue>)
    ensures Total(NonEmpty(qs)) == Total(qs)
  {
    if qs != [] {
      TotalNonEmpty(qs[1..]);
      if qs[0] != [] {
        assert NonEmpty(qs)[1..] == NonEmpty(qs[1..]);
      }
    }
  }

  lemma {:induction false} TotalTaken(qs: seq<Queue>, c: nat)
    requires c < |qs| && qs[c] != []
    ensures Total(qs[c := qs[c][1..]]) == Total(qs) - 1
  {
    if c > 0 {
      TotalTaken(qs[1..], c - 1);
      assert qs[c := qs[c][1..]][1..] == qs[1..][c - 1 := qs[c][1..]];
    }
  }

  /** The rest of the output (sort/sort.cc:212-233). */
  function Merge(o: Collation, qs: seq<Queue>): seq<Item>
    decreases Total(qs)
  {
    var q := NonEmpty(qs);
    if q == [] then []
    else
      TotalNonEmpty(qs);
      var c := NextIdx(o, q, |q|);
      TotalTaken(q, c);
      [q[c][0]] + Merge(o, q[c := q[c][1..]])
  }

  // ----- nothing is lost or made -----

  ghost function Items(qs: seq<Queue>): multiset<Item> {
    if qs == [] then multiset{} else multiset(qs[0]) + Items(qs[1..])
  }

  lemma {:induction false} ItemsNonEmpty(qs: seq<Queue>)
    ensures Items(NonEmpty(qs)) == Items(qs)
  {
    if qs != [] {
      ItemsNonEmpty(qs[1..]);
      if qs[0] != [] {
        assert NonEmpty(qs)[1..] == NonEmpty(qs[1..]);
      }
    }
  }

  lemma {:induction false} ItemsTaken(qs: seq<Queue>, c: nat)
    requires c < |qs| && qs[c] != []
    ensures Items(qs) == multiset{qs[c][0]} + Items(qs[c := qs[c][1..]])
  {
    if c == 0 {
      assert qs[0] == [qs[0][0]] + qs[0][1..];
      assert qs[0 := qs[0][1..]][1..] == qs[1..];
    } else {
      ItemsTaken(qs[1..], c - 1);
      assert qs[c := qs[c][1..]][1..] == qs[1..][c - 1 := qs[c][1..]];
    }
  }

  /** The output is a permutation of all the lines. */
  lemma {:induction false} MergePermutes(o: Collation, qs: seq<Queue>)
    ensures multiset(Merge(o, qs)) == Items(qs)
    decreases Total(qs)
  {
    var q := NonEmpty(qs);
    ItemsNonEmpty(qs);
    if q != [] {
      TotalNonEmpty(qs);
      var c := NextIdx(o, q, |q|);
      TotalTaken(q, c);
      ItemsTaken(q, c);
      MergePermutes(o, q[c := q[c][1..]]);
    }
  }

  lemma {:induction false} ItemsAre(qs: seq<Queue>, x: Item) returns (f: nat)
    requires x in Items(qs)
    ensures f < |qs| && x in qs[f]
  {
    if x in multiset(qs[0]) {
      f := 0;
    } else {
      f := ItemsAre(qs[1..], x);
      f := f + 1;
    }
  }

  // ----- the order -----

  /** The order of a stable sort: by line, then by file, then by place. */
  ghost predicate Before(o: Collation, x: Item, y: Item) {
    && LineCompare(o, x.line, y.line)
    && (LineCompare(o, y.line, x.line) ==> x.file < y.file || (x.file == y.file && x.pos < y.pos))
  }

  ghost predicate Stable(o: Collation, s: seq<Item>) {
    forall i, j :: 0 <= i < j < |s| ==> Before(o, s[i], s[j])
  }

  /** Queues in the order of their files, each in stable order. */
  ghost predicate InOrder(o: Collation, qs: seq<Queue>) {
    && (forall q <- qs :: Stable(o, q))
    && (forall f, g :: 0 <= f < g < |qs| ==> forall x <- qs[f], y <- qs[g] :: x.file < y.file)
  }

  lemma {:induction false} InOrderNonEmpty(o: Collation, qs: seq<Queue>)
    requires InOrder(o, qs)
    ensures InOrder(o, NonEmpty(qs))
    ensures forall q <- NonEmpty(qs) :: q in qs
  {
    if qs != [] {
      assert forall q <- qs[1..] :: q in qs;
      InOrderNonEmpty(o, qs[1..]);
      assert qs[0] in qs;
      FirstApart(qs, NonEmpty(qs[1..]));
    }
  }

  /** The first queue comes before any others picked from the rest. */
  lemma FirstApart(qs: seq<Queue>, r: seq<Queue>)
    requires qs != [] && forall q <- r :: q in qs[1..]
    requires forall f, g :: 0 <= f < g < |qs| ==> forall x <- qs[f], y <- qs[g] :: x.file < y.file
    ensures forall g: nat, x: Item, y: Item :: g < |r| && x in qs[0] && y in r[g] ==> x.file < y.file
  {
    forall g: nat, x: Item, y: Item | g < |r| && x in qs[0] && y in r[g] ensures x.file < y.file {
      assert r[g] in qs[1..];
      var k :| 0 <= k < |qs[1..]| && qs[1..][k] == r[g];
      assert qs[k + 1] == r[g];
    }
  }

  lemma InOrderTaken(o: Collation, qs: seq<Queue>, c: nat)
    requires InOrder(o, qs) && c < |qs| && qs[c] != []
    ensures InOrder(o, qs[c := qs[c][1..]])
  {
    assert qs[c] in qs;
  }

  /** The line chosen comes before all that are left. */
  lemma ChosenFirst(o: Collation, q: seq<Queue>, y: Item, g: nat)
    requires Collates(o) && NoneEmpty(q) && q != [] && InOrder(o, q)
    requires g < |q|
    requires y in if g == NextIdx(o, q, |q|) then q[g][1..] else q[g]
    ensures Before(o, q[NextIdx(o, q, |q|)][0], y)
  {
    var c := NextIdx(o, q, |q|);
    assert q[c] in q && q[g] in q;
    if g == c {
      var j :| 0 <= j < |q[c][1..]| && q[c][1..][j] == y;
      assert q[c][j + 1] == y;
    } else {
      NextIsFirstLeast(o, q, |q|, g);
      HeadLeast(o, q[g], y);
      CompareTrans(o, q[c][0].line, q[g][0].line, y.line);
      if g < c && LineCompare(o, y.line, q[c][0].line) {
        CompareTrans(o, q[g][0].line, y.line, q[c][0].line);
      }
    }
  }

  lemma HeadLeast(o: Collation, q: Queue, y: Item)
    requires Collates(o) && Stable(o, q) && y in q
    ensures LineCompare(o, q[0].line, y.line)
  {
    var j :| 0 <= j < |q| && q[j] == y;
    if j == 0 {
      CompareTotal(o, y.line, y.line);
    } else {
      assert Before(o, q[0], q[j]);
    }
  }

  lemma {:induction false} MergeStable(o: Collation, qs: seq<Queue>)
    requires Collates(o) && InOrder(o, qs)
    ensures Stable(o, Merge(o, qs))
    decreases Total(qs)
  {
    var q := NonEmpty(qs);
    if q != [] {
      TotalNonEmpty(qs);
      InOrderNonEmpty(o, qs);
      var c := NextIdx(o, q, |q|);
      TotalTaken(q, c);
      InOrderTaken(o, q, c);
      var rest := q[c := q[c][1..]];
      MergeStable(o, rest);
      ChosenBeforeRest(o, q, rest);
      FirstStable(o, q[c][0], Merge(o, rest));
    }
  }

  lemma ChosenBeforeRest(o: Collation, q: seq<Queue>, rest: seq<Queue>)
    requires Collates(o) && NoneEmpty(q) && q != [] && InOrder(o, q)
    requires var c := NextIdx(o, q, |q|); rest == q[c := q[c][1..]]
    ensures forall y <- Merge(o, rest) :: Before(o, q[NextIdx(o, q, |q|)][0], y)
  {
    MergePermutes(o, rest);
    forall y | y in Merge(o, rest) ensures Before(o, q[NextIdx(o, q, |q|)][0], y) {
      assert y in multiset(Merge(o, rest));
      var g := ItemsAre(rest, y);
      ChosenFirst(o, q, y, g);
    }
  }

  lemma FirstStable(o: Collation, x: Item, s: seq<Item>)
    requires Stable(o, s) && forall y <- s :: Before(o, x, y)
    ensures Stable(o, [x] + s)
  {
  }

  // ----- the whole merge -----

  ghost predicate Sorted(o: Collation, lines: seq<Line>) {
    forall i, j :: 0 <= i < j < |lines| ==> LineCompare(o, lines[i], lines[j])
  }

  /** The lines of the files, tagged, as one multiset; each of them once. */
  ghost function AllItems(files: seq<seq<Line>>): multiset<Item> {
    Items(Tag(files))
  }

  /** Merging sorted files sorts them, and the lines that compare equal come in the order of the
      files and, within a file, in their order there: it is the stable sort of all the lines. */
  lemma MergeIsStableSort(o: Collation, files: seq<seq<Line>>)
    requires Collates(o) && forall f <- files :: Sorted(o, f)
    ensures multiset(Merge(o, Tag(files))) == AllItems(files)
    ensures Stable(o, Merge(o, Tag(files))) && Sorted(o, Lines(Merge(o, Tag(files))))
  {
    MergePermutes(o, Tag(files));
    forall q | q in Tag(files) ensures Stable(o, q) {
      var f :| 0 <= f < |files| && q == TagFile(files[f], f);
      assert files[f] in files;
    }
    MergeStable(o, Tag(files));
  }

  // ----- files that are not sorted -----

  /** The items of file f. */
  function Of(s: seq<Item>, f: nat): seq<Item> {
    if s == [] then [] else (if s[0].file == f then [s[0]] else []) + Of(s[1..], f)
  }

  function OfAll(qs: seq<Queue>, f: nat): seq<Item> {
    if qs == [] then [] else Of(qs[0], f) + OfAll(qs[1..], f)
  }

  ghost predicate Apart(qs: seq<Queue>) {
    forall g, h :: 0 <= g < h < |qs| ==> forall x <- qs[g], y <- qs[h] :: x.file < y.file
  }

  lemma {:induction false} OfNonEmpty(qs: seq<Queue>, f: nat)
    ensures OfAll(NonEmpty(qs), f) == OfAll(qs, f)
  {
    if qs != [] {
      OfNonEmpty(qs[1..], f);
      if qs[0] != [] {
        assert NonEmpty(qs)[1..] == NonEmpty(qs[1..]);
      }
    }
  }

  lemma {:induction false} OfNone(s: seq<Item>, f: nat)
    requires forall x <- s :: x.file != f
    ensures Of(s, f) == []
  {
    if s != [] {
      OfNone(s[1..], f);
    }
  }

  lemma {:induction false} ApartNonEmpty(qs: seq<Queue>)
    requires Apart(qs)
    ensures Apart(NonEmpty(qs))
    ensures forall q <- NonEmpty(qs) :: q in qs
  {
    if qs != [] {
      ApartNonEmpty(qs[1..]);
      FirstApart(qs, NonEmpty(qs[1..]));
    }
  }

  /** The line taken is the first of its file. */
  lemma {:induction false} OfTaken(qs: seq<Queue>, c: nat, f: nat)
    requires Apart(qs) && c < |qs| && qs[c] != []
    ensures OfAll(qs, f) == (if qs[c][0].file == f then [qs[c][0]] else []) + OfAll(qs[c := qs[c][1..]], f)
  {
    var head := if qs[c][0].file == f then [qs[c][0]] else [];
    if c == 0 {
      assert qs[0 := qs[0][1..]][1..] == qs[1..];
      assert head + Of(qs[0][1..], f) + OfAll(qs[1..], f) == head + (Of(qs[0][1..], f) + OfAll(qs[1..], f));
    } else {
      OfTaken(qs[1..], c - 1, f);
      assert qs[c := qs[c][1..]][1..] == qs[1..][c - 1 := qs[c][1..]];
      if head != [] {
        assert qs[c][0] in qs[c];
        OfNone(qs[0], f);
      }
    }
  }

  lemma ApartTaken(qs: seq<Queue>, c: nat)
    requires Apart(qs) && c < |qs| && qs[c] != []
    ensures Apart(qs[c := qs[c][1..]])
  {
  }

  lemma {:induction false} MergeOf(o: Collation, qs: seq<Queue>, f: nat)
    requires Apart(qs)
    ensures Of(Merge(o, qs), f) == OfAll(qs, f)
    decreases Total(qs)
  {
    var q := NonEmpty(qs);
    OfNonEmpty(qs, f);
    if q != [] {
      TotalNonEmpty(qs);
      ApartNonEmpty(qs);
      var c := NextIdx(o, q, |q|);
      TotalTaken(q, c);
      OfTaken(q, c, f);
      ApartTaken(q, c);
      MergeOf(o, q[c := q[c][1..]], f);
    }
  }

  lemma {:induction false} OfTag(files: seq<seq<Line>>, qs: seq<Queue>, k: nat, f: nat)
    requires k <= |files| && qs == Tag(files)[k..] && f < |files|
    ensures OfAll(qs, f) == if k <= f then TagFile(files[f], f) else []
    decreases |files| - k
  {
    if k < |files| {
      OfTag(files, qs[1..], k + 1, f);
      if k == f {
        OfEvery(qs[0], f);
        assert OfAll(qs, f) == qs[0] + [];
      } else {
        OfNone(qs[0], f);
      }
    }
  }

  lemma {:induction false} OfEvery(s: seq<Item>, f: nat)
    requires forall x <- s :: x.file == f
    ensures Of(s, f) == s
  {
    if s != [] {
      OfEvery(s[1..], f);
      assert s == [s[0]] + s[1..];
    }
  }

  /** Sorted or not, the lines of each file come out in their order, and all of them. */
  lemma FilesKeepTheirOrder(o: Collation, files: seq<seq<Line>>, f: nat)
    requires f < |files|
    ensures Of(Merge(o, Tag(files)), f) == TagFile(files[f], f)
  {
    MergeOf(o, Tag(files), f);
    assert Tag(files)[0..] == Tag(files);
    OfTag(files, Tag(files), 0, f);
  }

  // ----- the same in terms of strcoll -----

  /** No line before one it comes behind. */
  ghost predicate Rising(coll: (Line, Line) -> int, ls: seq<Line>) {
    forall i, j :: 0 <= i < j < |ls| ==> coll(ls[i], ls[j]) <= 0
  }

  ghost predicate Falling(coll: (Line, Line) -> int, ls: seq<Line>) {
    forall i, j :: 0 <= i < j < |ls| ==> coll(ls[i], ls[j]) >= 0
  }

  /** Lines that collate equal come in the order of the files, and of their places. */
  ghost predicate TiesByFile(coll: (Line, Line) -> int, s: seq<Item>) {
    forall i, j :: 0 <= i < j < |s| && coll(s[i].line, s[j].line) == 0 ==>
      s[i].file < s[j].file || (s[i].file == s[j].file && s[i].pos < s[j].pos)
  }

  /** Without -r, files that rise are merged into a rising whole. */
  lemma MergeRises(o: Collation, files: seq<seq<Line>>)
    requires Collates(o) && !o.reverse && forall f <- files :: Rising(o.coll, f)
    ensures Rising(o.coll, Lines(Merge(o, Tag(files)))) && TiesByFile(o.coll, Merge(o, Tag(files)))
  {
    MergeIsStableSort(o, files);
    InStrcoll(o, Merge(o, Tag(files)));
  }

  /** With -r, files that fall are merged into a falling whole; equal lines still come file by file. */
  lemma MergeFalls(o: Collation, files: seq<seq<Line>>)
    requires Collates(o) && o.reverse && forall f <- files :: Falling(o.coll, f)
    ensures Falling(o.coll, Lines(Merge(o, Tag(files)))) && TiesByFile(o.coll, Merge(o, Tag(files)))
  {
    MergeIsStableSort(o, files);
    InStrcoll(o, Merge(o, Tag(files)));
  }

  lemma InStrcoll(o: Collation, s: seq<Item>)
    requires Collates(o) && Stable(o, s)
    ensures TiesByFile(o.coll, s)
    ensures if o.reverse then Falling(o.coll, Lines(s)) else Rising(o.coll, Lines(s))
  {
    forall i, j | 0 <= i < j < |s|
      ensures if o.reverse then o.coll(s[i].line, s[j].line) >= 0 else o.coll(s[i].line, s[j].line) <= 0
      ensures o.coll(s[i].line, s[j].line) == 0 ==>
                s[i].file < s[j].file || (s[i].file == s[j].file && s[i].pos < s[j].pos)
    {
      assert Before(o, s[i], s[j]);
      assert o.coll(s[j].line, s[i].line) <= 0 <==> o.coll(s[i].line, s[j].line) >= 0;
      assert o.coll(s[i].line, s[j].line) <= 0 <==> o.coll(s[j].line, s[i].line) >= 0;
    }
  }

  /** The next line is the first of the smallest, or with -r the first of the largest. */
  lemma NextInStrcoll(o: Collation, qs: seq<Queue>, i: nat)
    requires Collates(o) && NoneEmpty(qs) && i < |qs|
    ensures var c := NextIdx(o, qs, |qs|);
            var v := o.coll(qs[i][0].line, qs[c][0].line);
            if o.reverse then v <= 0 && (i < c ==> v < 0) else v >= 0 && (i < c ==> v > 0)
  {
    var c := NextIdx(o, qs, |qs|);
    var x, y := qs[i][0].line, qs[c][0].line;
    NextIsFirstLeast(o, qs, |qs|, i);
    assert o.coll(x, y) <= 0 <==> o.coll(y, x) >= 0;
    assert o.coll(y, x) <= 0 <==> o.coll(x, y) >= 0;
  }
}
