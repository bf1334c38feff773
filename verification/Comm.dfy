/** comm (comm/comm.cc): the two-way merge into three columns. The files are open and reading them
    does not fail; a line keeps its newline. */
module Comm {
  import opened Seqs

  type Line = string

  /** strcoll, as a total order: lines that compare equal are the same line. */
  type Coll = (Line, Line) -> int

  ghost predicate Orders(coll: Coll) {
    && (forall a, b :: coll(a, b) == 0 <==> a == b)
    && (forall a, b :: coll(a, b) < 0 <==> coll(b, a) > 0)
    && (forall a, b, c :: coll(a, b) <= 0 && coll(b, c) <= 0 ==> coll(a, c) <= 0)
  }

  datatype Column = OPT_FILE1 | OPT_FILE2 | OPT_DUP

  datatype Entry = Entry(col: Column, line: Line)

  /** The lines still to come, before any column is suppressed (comm/comm.cc:139-162). */
  function Columns(coll: Coll, f1: seq<Line>, f2: seq<Line>): seq<Entry>
    decreases |f1| + |f2|
  {
    if f1 == [] && f2 == [] then []
    else if f1 == [] then [Entry(OPT_FILE2, f2[0])] + Columns(coll, f1, f2[1..])
    else if f2 == [] then [Entry(OPT_FILE1, f1[0])] + Columns(coll, f1[1..], f2)
    else if coll(f1[0], f2[0]) < 0 then [Entry(OPT_FILE1, f1[0])] + Columns(coll, f1[1..], f2)
    else if coll(f1[0], f2[0]) > 0 then [Entry(OPT_FILE2, f2[0])] + Columns(coll, f1, f2[1..])
    else [Entry(OPT_DUP, f1[0])] + Columns(coll, f1[1..], f2[1..])
  }

  /** The columns that are suppressed, and the tabs before the second and the third column
      (comm/comm.cc:174-185, :218-224). */
  datatype Mask = Mask(file1: bool, file2: bool, dup: bool)

  function LeadF2(m: Mask): string { if m.file1 then "" else "\t" }

  function LeadDup(m: Mask): string {
    if !m.file1 && !m.file2 then "\t\t" else if m.file1 && m.file2 then "" else "\t"
  }

  function Shown(m: Mask, e: Entry): string {
    match e.col
    case OPT_FILE1 => if m.file1 then "" else e.line
    case OPT_FILE2 => if m.file2 then "" else LeadF2(m) + e.line
    case OPT_DUP => if m.dup then "" else LeadDup(m) + e.line
  }

  function Printed(m: Mask, es: seq<Entry>): string {
    if es == [] then [] else Shown(m, es[0]) + Printed(m, es[1..])
  }

  predicate Suppressed(m: Mask, col: Column) {
    || (col == OPT_FILE1 && m.file1)
    || (col == OPT_FILE2 && m.file2)
    || (col == OPT_DUP && m.dup)
  }

  /** How many columns to the left of this one are shown: the first for the second, both for the third. */
  function ShownLeft(m: Mask, col: Column): nat {
    match col
    case OPT_FILE1 => 0
    case OPT_FILE2 => if m.file1 then 0 else 1
    case OPT_DUP => (if m.file1 then 0 else 1) + if m.file2 then 0 else 1
  }

  /** Nothing if the column is suppressed, else the line behind one tab for each column shown to its left. */
  predicate InItsColumn(m: Mask, e: Entry, text: string) {
    if Suppressed(m, e.col) then text == ""
    else
      var n := ShownLeft(m, e.col);
      |text| == n + |e.line| && text[n..] == e.line && forall c <- text[..n] :: c == '\t'
  }

  lemma ShownInColumn(m: Mask, e: Entry)
    ensures InItsColumn(m, e, Shown(m, e))
  {
    LeadsCount(m);
    match e.col
    case OPT_FILE1 =>
    case OPT_FILE2 => Behind(LeadF2(m), e.line);
    case OPT_DUP => Behind(LeadDup(m), e.line);
  }

  lemma Behind(lead: string, line: Line)
    ensures (lead + line)[..|lead|] == lead && (lead + line)[|lead|..] == line
  {
  }

  /** The text is made of one piece for each entry, each in its column. */
  ghost predicate InColumns(m: Mask, es: seq<Entry>, text: string) {
    exists pieces: seq<string> :: Pieces(m, es, pieces, text)
  }

  ghost predicate Pieces(m: Mask, es: seq<Entry>, pieces: seq<string>, text: string) {
    && |pieces| == |es| && Concat(pieces) == text
    && forall i :: 0 <= i < |es| ==> InItsColumn(m, es[i], pieces[i])
  }

  lemma {:induction false} PrintedInColumns(m: Mask, es: seq<Entry>)
    ensures InColumns(m, es, Printed(m, es))
  {
    if es == [] {
      assert Pieces(m, es, [], []);
    } else {
      PrintedInColumns(m, es[1..]);
      ShownInColumn(m, es[0]);
      var pieces :| Pieces(m, es[1..], pieces, Printed(m, es[1..]));
      PieceMore(m, es, pieces, Shown(m, es[0]), Printed(m, es[1..]));
    }
  }

  lemma PieceMore(m: Mask, es: seq<Entry>, pieces: seq<string>, piece: string, text: string)
    requires es != [] && Pieces(m, es[1..], pieces, text) && InItsColumn(m, es[0], piece)
    ensures Pieces(m, es, [piece] + pieces, piece + text)
  {
    var all := [piece] + pieces;
    assert all[1..] == pieces;
    forall i | 0 <= i < |es| ensures InItsColumn(m, es[i], all[i]) {
      if i > 0 {
        assert es[i] == es[1..][i - 1] && all[i] == pieces[i - 1];
      }
    }
  }

  /** Before a column stand as many tabs as columns to its left are shown. */
  lemma LeadsCount(m: Mask)
    ensures |LeadF2(m)| == if m.file1 then 0 else 1
    ensures |LeadDup(m)| == (if m.file1 then 0 else 1) + if m.file2 then 0 else 1
    ensures forall c <- LeadF2(m) + LeadDup(m) :: c == '\t'
  {
  }

  // ----- what the columns hold -----

  /** The lines of one column, or of two. */
  function In(es: seq<Entry>, a: Column, b: Column): seq<Line> {
    if es == [] then [] else (if es[0].col == a || es[0].col == b then [es[0].line] else []) + In(es[1..], a, b)
  }

  lemma InCons(e: Entry, es: seq<Entry>, a: Column, b: Column)
    ensures In([e] + es, a, b) == (if e.col == a || e.col == b then [e.line] else []) + In(es, a, b)
  {
    assert ([e] + es)[1..] == es;
  }

  lemma {:induction false} FirstSpelt(coll: Coll, f1: seq<Line>, f2: seq<Line>)
    ensures In(Columns(coll, f1, f2), OPT_FILE1, OPT_DUP) == f1
    decreases |f1| + |f2|
  {
    if f1 != [] && (f2 == [] || coll(f1[0], f2[0]) < 0) {
      InCons(Entry(OPT_FILE1, f1[0]), Columns(coll, f1[1..], f2), OPT_FILE1, OPT_DUP);
      FirstSpelt(coll, f1[1..], f2);
      HeadTail(f1);
    } else if f2 != [] && (f1 == [] || coll(f1[0], f2[0]) > 0) {
      InCons(Entry(OPT_FILE2, f2[0]), Columns(coll, f1, f2[1..]), OPT_FILE1, OPT_DUP);
      FirstSpelt(coll, f1, f2[1..]);
    } else if f1 != [] {
      InCons(Entry(OPT_DUP, f1[0]), Columns(coll, f1[1..], f2[1..]), OPT_FILE1, OPT_DUP);
      FirstSpelt(coll, f1[1..], f2[1..]);
      HeadTail(f1);
    }
  }

  lemma {:induction false} SecondSpelt(coll: Coll, f1: seq<Line>, f2: seq<Line>)
    requires Orders(coll)
    ensures In(Columns(coll, f1, f2), OPT_FILE2, OPT_DUP) == f2
    decreases |f1| + |f2|
  {
    if f1 != [] && (f2 == [] || coll(f1[0], f2[0]) < 0) {
      InCons(Entry(OPT_FILE1, f1[0]), Columns(coll, f1[1..], f2), OPT_FILE2, OPT_DUP);
      SecondSpelt(coll, f1[1..], f2);
    } else if f2 != [] && (f1 == [] || coll(f1[0], f2[0]) > 0) {
      InCons(Entry(OPT_FILE2, f2[0]), Columns(coll, f1, f2[1..]), OPT_FILE2, OPT_DUP);
      SecondSpelt(coll, f1, f2[1..]);
      HeadTail(f2);
    } else if f1 != [] {
      assert f1[0] == f2[0];
      InCons(Entry(OPT_DUP, f1[0]), Columns(coll, f1[1..], f2[1..]), OPT_FILE2, OPT_DUP);
      SecondSpelt(coll, f1[1..], f2[1..]);
      HeadTail(f2);
    }
  }

  /** Columns 1 and 3, in order, spell the first file, and columns 2 and 3 the second. */
  lemma {:induction false} ColumnsSpell(coll: Coll, f1: seq<Line>, f2: seq<Line>)
    requires Orders(coll)
    ensures In(Columns(coll, f1, f2), OPT_FILE1, OPT_DUP) == f1
    ensures In(Columns(coll, f1, f2), OPT_FILE2, OPT_DUP) == f2
  {
    FirstSpelt(coll, f1, f2);
    SecondSpelt(coll, f1, f2);
  }

  ghost predicate Sorted(coll: Coll, f: seq<Line>) {
    forall i, j :: 0 <= i < j < |f| ==> coll(f[i], f[j]) <= 0
  }

  lemma NotBelow(coll: Coll, x: Line, f: seq<Line>)
    requires Orders(coll) && Sorted(coll, f) && (f != [] ==> coll(x, f[0]) < 0)
    ensures x !in f
  {
    forall j | 0 <= j < |f| ensures f[j] != x {
      assert j > 0 ==> coll(f[0], f[j]) <= 0;
      assert coll(x, f[0]) < 0 <==> coll(f[0], x) > 0;
    }
  }

  /** The columns as multisets. */
  ghost predicate Counted(es: seq<Entry>, m1: multiset<Line>, m2: multiset<Line>) {
    && multiset(In(es, OPT_DUP, OPT_DUP)) == m1 * m2
    && multiset(In(es, OPT_FILE1, OPT_FILE1)) == m1 - m2
    && multiset(In(es, OPT_FILE2, OPT_FILE2)) == m2 - m1
  }

  lemma AddOne(x: Line, m1: multiset<Line>, m2: multiset<Line>)
    requires x !in m2
    ensures (multiset{x} + m1) * m2 == m2 * (multiset{x} + m1) == m1 * m2 == m2 * m1
    ensures multiset{x} + m1 - m2 == multiset{x} + (m1 - m2) && m2 - (multiset{x} + m1) == m2 - m1
  {
  }

  lemma AddBoth(x: Line, m1: multiset<Line>, m2: multiset<Line>)
    ensures (multiset{x} + m1) * (multiset{x} + m2) == multiset{x} + m1 * m2
    ensures multiset{x} + m1 - (multiset{x} + m2) == m1 - m2
    ensures multiset{x} + m2 - (multiset{x} + m1) == m2 - m1
  {
  }

  lemma CountFile1(x: Line, es: seq<Entry>, m1: multiset<Line>, m2: multiset<Line>)
    requires Counted(es, m1, m2) && x !in m2
    ensures Counted([Entry(OPT_FILE1, x)] + es, multiset{x} + m1, m2)
  {
    CountOne(Entry(OPT_FILE1, x), es);
    AddOne(x, m1, m2);
  }

  lemma CountFile2(x: Line, es: seq<Entry>, m1: multiset<Line>, m2: multiset<Line>)
    requires Counted(es, m1, m2) && x !in m1
    ensures Counted([Entry(OPT_FILE2, x)] + es, m1, multiset{x} + m2)
  {
    CountOne(Entry(OPT_FILE2, x), es);
    AddOne(x, m2, m1);
  }

  lemma CountDup(x: Line, es: seq<Entry>, m1: multiset<Line>, m2: multiset<Line>)
    requires Counted(es, m1, m2)
    ensures Counted([Entry(OPT_DUP, x)] + es, multiset{x} + m1, multiset{x} + m2)
  {
    CountOne(Entry(OPT_DUP, x), es);
    AddBoth(x, m1, m2);
  }

  lemma HeadAndTail(f: seq<Line>)
    requires f != []
    ensures multiset(f) == multiset{f[0]} + multiset(f[1..])
  {
    assert f == [f[0]] + f[1..];
  }

  /** For sorted files the third column holds each line as often as the file that has it less often;
      the first and the second hold what is left of each. */
  lemma {:induction false} ColumnsCount(coll: Coll, f1: seq<Line>, f2: seq<Line>)
    requires Orders(coll) && Sorted(coll, f1) && Sorted(coll, f2)
    ensures Counted(Columns(coll, f1, f2), multiset(f1), multiset(f2))
    decreases |f1| + |f2|
  {
    if f1 != [] && (f2 == [] || coll(f1[0], f2[0]) < 0) {
      HeadAndTail(f1);
      NotBelow(coll, f1[0], f2);
      ColumnsCount(coll, f1[1..], f2);
      CountFile1(f1[0], Columns(coll, f1[1..], f2), multiset(f1[1..]), multiset(f2));
    } else if f2 != [] && (f1 == [] || coll(f1[0], f2[0]) > 0) {
      assert f1 != [] ==> (coll(f2[0], f1[0]) < 0 <==> coll(f1[0], f2[0]) > 0);
      HeadAndTail(f2);
      NotBelow(coll, f2[0], f1);
      ColumnsCount(coll, f1, f2[1..]);
      CountFile2(f2[0], Columns(coll, f1, f2[1..]), multiset(f1), multiset(f2[1..]));
    } else if f1 != [] {
      HeadAndTail(f1);
      HeadAndTail(f2);
      ColumnsCount(coll, f1[1..], f2[1..]);
      CountDup(f1[0], Columns(coll, f1[1..], f2[1..]), multiset(f1[1..]), multiset(f2[1..]));
    }
  }

  /** What one entry adds to a column. */
  ghost function Adds(e: Entry, col: Column): multiset<Line> {
    if e.col == col then multiset{e.line} else multiset{}
  }

  lemma CountOne(e: Entry, es: seq<Entry>)
    ensures multiset(In([e] + es, OPT_DUP, OPT_DUP)) == Adds(e, OPT_DUP) + multiset(In(es, OPT_DUP, OPT_DUP))
    ensures multiset(In([e] + es, OPT_FILE1, OPT_FILE1)) == Adds(e, OPT_FILE1) + multiset(In(es, OPT_FILE1, OPT_FILE1))
    ensures multiset(In([e] + es, OPT_FILE2, OPT_FILE2)) == Adds(e, OPT_FILE2) + multiset(In(es, OPT_FILE2, OPT_FILE2))
  {
    InCons(e, es, OPT_DUP, OPT_DUP);
    InCons(e, es, OPT_FILE1, OPT_FILE1);
    InCons(e, es, OPT_FILE2, OPT_FILE2);
  }

  /** No entry comes before x. */
  ghost predicate From(coll: Coll, x: Line, es: seq<Entry>) {
    forall i :: 0 <= i < |es| ==> coll(x, es[i].line) <= 0
  }

  ghost predicate EntriesSorted(coll: Coll, es: seq<Entry>) {
    forall i, j :: 0 <= i < j < |es| ==> coll(es[i].line, es[j].line) <= 0
  }

  lemma {:induction false} ColumnsFrom(coll: Coll, x: Line, f1: seq<Line>, f2: seq<Line>)
    requires Orders(coll)
    requires (forall i :: 0 <= i < |f1| ==> coll(x, f1[i]) <= 0) && (forall i :: 0 <= i < |f2| ==> coll(x, f2[i]) <= 0)
    ensures From(coll, x, Columns(coll, f1, f2))
    decreases |f1| + |f2|
  {
    if f1 != [] && (f2 == [] || coll(f1[0], f2[0]) < 0) {
      ColumnsFrom(coll, x, f1[1..], f2);
    } else if f2 != [] && (f1 == [] || coll(f1[0], f2[0]) > 0) {
      ColumnsFrom(coll, x, f1, f2[1..]);
    } else if f1 != [] {
      ColumnsFrom(coll, x, f1[1..], f2[1..]);
    }
  }

  lemma AllFrom(coll: Coll, x: Line, f: seq<Line>)
    requires Orders(coll) && Sorted(coll, f) && (f != [] ==> coll(x, f[0]) <= 0)
    ensures forall i :: 0 <= i < |f| ==> coll(x, f[i]) <= 0
  {
  }

  lemma ConsSorted(coll: Coll, e: Entry, es: seq<Entry>)
    requires From(coll, e.line, es) && EntriesSorted(coll, es)
    ensures EntriesSorted(coll, [e] + es)
  {
  }

  lemma TailSorted(coll: Coll, f: seq<Line>)
    requires Sorted(coll, f) && f != []
    ensures Sorted(coll, f[1..]) && forall i :: 0 <= i < |f[1..]| ==> coll(f[0], f[1..][i]) <= 0
  {
  }

  /** A line that comes before all others, and the columns of the others. */
  lemma LeadSorted(coll: Coll, e: Entry, f1: seq<Line>, f2: seq<Line>)
    requires Orders(coll) && EntriesSorted(coll, Columns(coll, f1, f2))
    requires forall i :: 0 <= i < |f1| ==> coll(e.line, f1[i]) <= 0
    requires forall i :: 0 <= i < |f2| ==> coll(e.line, f2[i]) <= 0
    ensures EntriesSorted(coll, [e] + Columns(coll, f1, f2))
  {
    ColumnsFrom(coll, e.line, f1, f2);
    ConsSorted(coll, e, Columns(coll, f1, f2));
  }

  /** For sorted files the three columns together are sorted. */
  lemma {:induction false} ColumnsSorted(coll: Coll, f1: seq<Line>, f2: seq<Line>)
    requires Orders(coll) && Sorted(coll, f1) && Sorted(coll, f2)
    ensures EntriesSorted(coll, Columns(coll, f1, f2))
    decreases |f1| + |f2|
  {
    if f1 != [] && (f2 == [] || coll(f1[0], f2[0]) < 0) {
      TailSorted(coll, f1);
      AllFrom(coll, f1[0], f2);
      ColumnsSorted(coll, f1[1..], f2);
      LeadSorted(coll, Entry(OPT_FILE1, f1[0]), f1[1..], f2);
    } else if f2 != [] && (f1 == [] || coll(f1[0], f2[0]) > 0) {
      assert f1 != [] ==> (coll(f2[0], f1[0]) < 0 <==> coll(f1[0], f2[0]) > 0);
      TailSorted(coll, f2);
      AllFrom(coll, f2[0], f1);
      ColumnsSorted(coll, f1, f2[1..]);
      LeadSorted(coll, Entry(OPT_FILE2, f2[0]), f1, f2[1..]);
    } else if f1 != [] {
      TailSorted(coll, f1);
      TailSorted(coll, f2);
      ColumnsSorted(coll, f1[1..], f2[1..]);
      LeadSorted(coll, Entry(OPT_DUP, f1[0]), f1[1..], f2[1..]);
    }
  }

  // ----- the loop -----

  /** line_out (comm/comm.cc:69-94) */
  method LineOut(m: Mask, ltype: Column, line: Line) returns (text: string)
    ensures text == Shown(m, Entry(ltype, line)) && InItsColumn(m, Entry(ltype, line), text)
  {
    ShownInColumn(m, Entry(ltype, line));
    text := "";
    match ltype
    case OPT_FILE1 => if !m.file1 { text := line; }
    case OPT_FILE2 => if !m.file2 { text := LeadF2(m) + line; }
    case OPT_DUP => if !m.dup { text := LeadDup(m) + line; }
  }

  /** A line held, before those not read yet. */
  function Held(l: Option<Line>, rest: seq<Line>): seq<Line> {
    if l.Some? then [l.value] + rest else rest
  }

  /** fgets when a line is wanted and none is held (comm/comm.cc:116-137). */
  method Want(want: bool, l: Option<Line>, rest: seq<Line>) returns (want': bool, l': Option<Line>, rest': seq<Line>)
    requires !want ==> Held(l, rest) == []
    ensures Held(l', rest') == Held(l, rest) && (l'.None? <==> Held(l, rest) == [])
    ensures l'.None? ==> !want'
    ensures !want' ==> Held(l', rest') == []
  {
    want', l', rest' := want, l, rest;
    if want && l.None? {
      if rest == [] {
        want' := false;
      } else {
        l', rest' := Some(rest[0]), rest[1..];
      }
    }
  }

  lemma PrintOne(m: Mask, text: string, e: Entry, es: seq<Entry>)
    ensures text + Printed(m, [e] + es) == text + Shown(m, e) + Printed(m, es)
  {
    assert ([e] + es)[1..] == es;
    assert text + (Shown(m, e) + Printed(m, es)) == text + Shown(m, e) + Printed(m, es);
  }

  /** compare_files (comm/comm.cc:96-172): what is printed. */
  method CompareFiles(coll: Coll, m: Mask, file1: seq<Line>, file2: seq<Line>) returns (text: string)
    ensures text == Printed(m, Columns(coll, file1, file2)) && InColumns(m, Columns(coll, file1, file2), text)
  {
    PrintedInColumns(m, Columns(coll, file1, file2));
    var f1, f2 := file1, file2;
    var l1: Option<Line>, l2: Option<Line> := None, None;
    var want1, want2 := true, true;
    text := "";
    assert text + Printed(m, Columns(coll, f1, f2)) == Printed(m, Columns(coll, f1, f2));
    while want1 || want2
      invariant text + Printed(m, Columns(coll, Held(l1, f1), Held(l2, f2))) == Printed(m, Columns(coll, file1, file2))
      invariant (!want1 ==> Held(l1, f1) == []) && (!want2 ==> Held(l2, f2) == [])
      decreases |Held(l1, f1)| + |Held(l2, f2)|
    {
      want1, l1, f1 := Want(want1, l1, f1);
      want2, l2, f2 := Want(want2, l2, f2);
      ghost var a, b := Held(l1, f1), Held(l2, f2);
      if l1.None? && l2.None? {
        assert Columns(coll, a, b) == [] && text + [] == text;
        return;
      }
      var out: string;
      if l1.None? {
        PrintOne(m, text, Entry(OPT_FILE2, l2.value), Columns(coll, a, f2));
        out := LineOut(m, OPT_FILE2, l2.value);
        l2 := None;
      } else if l2.None? {
        PrintOne(m, text, Entry(OPT_FILE1, l1.value), Columns(coll, f1, b));
        out := LineOut(m, OPT_FILE1, l1.value);
        l1 := None;
      } else {
        var cmp := coll(l1.value, l2.value);
        assert a[1..] == f1 && b[1..] == f2;
        if cmp < 0 {
          PrintOne(m, text, Entry(OPT_FILE1, l1.value), Columns(coll, f1, b));
          out := LineOut(m, OPT_FILE1, l1.value);
          l1 := None;
        } else if cmp > 0 {
          PrintOne(m, text, Entry(OPT_FILE2, l2.value), Columns(coll, a, f2));
          out := LineOut(m, OPT_FILE2, l2.value);
          l2 := None;
        } else {
          PrintOne(m, text, Entry(OPT_DUP, l1.value), Columns(coll, f1, f2));
          out := LineOut(m, OPT_DUP, l1.value);
          l1, l2 := None, None;
        }
      }
      text := text + out;
    }
    assert Columns(coll, [], []) == [] && text + [] == text;
  }
}
