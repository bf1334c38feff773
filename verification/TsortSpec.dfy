/** The reachability test of tsort (tsort/tsort.cc:158-196). A token is the place of its string in the
    dictionary; the source uses the string's address. */
module TsortSpec {
  import opened Seqs

  datatype Order = Order(pred: nat, succ: nat)

  /** What item_precedes returns, None when it gives up and exits, and what is left of max_recurse. */
  datatype Outcome = Outcome(r: Option<bool>, left: nat)

  /** item_precedes (tsort/tsort.cc:160-181) with fuel for max_recurse. */
  function Item(order: seq<Order>, a: nat, b: nat, fuel: nat): (o: Outcome)
    ensures o.left <= fuel && (o.r.Some? ==> o.left > 0)
    decreases fuel, 0
  {
    if fuel <= 1 then Outcome(None, 0) else Scan(order, 0, a, b, fuel - 1)
  }

  /** The loop, from the i-th pair on. */
  function Scan(order: seq<Order>, i: nat, a: nat, b: nat, fuel: nat): (o: Outcome)
    requires i <= |order|
    ensures o.left <= fuel && (o.r.Some? && fuel > 0 ==> o.left > 0)
    decreases fuel, |order| - i
  {
    if i == |order| then Outcome(Some(false), fuel)
    else if order[i].pred != a then Scan(order, i + 1, a, b, fuel)
    else if order[i].succ == b then Outcome(Some(true), fuel)
    else if order[i].succ == a then Scan(order, i + 1, a, b, fuel)
    else
      var s := Item(order, order[i].succ, b, fuel);
      if s.r == Some(false) then Scan(order, i + 1, a, b, s.left) else s
  }

  // ----- what it decides -----

  /** p is a path of recorded pairs from a to b, of at least one pair. */
  ghost predicate IsPath(order: seq<Order>, a: nat, b: nat, p: seq<nat>) {
    && |p| >= 2 && p[0] == a && p[|p| - 1] == b
    && forall k :: 0 <= k < |p| - 1 ==> Order(p[k], p[k + 1]) in order
  }

  ghost predicate Reaches(order: seq<Order>, a: nat, b: nat) {
    exists p :: IsPath(order, a, b, p)
  }

  lemma OneStep(order: seq<Order>, a: nat, b: nat)
    requires Order(a, b) in order
    ensures Reaches(order, a, b)
  {
    assert IsPath(order, a, b, [a, b]);
  }

  lemma StepOn(order: seq<Order>, a: nat, c: nat, b: nat)
    requires Order(a, c) in order && Reaches(order, c, b)
    ensures Reaches(order, a, b)
  {
    var p :| IsPath(order, c, b, p);
    assert IsPath(order, a, b, [a] + p);
  }

  lemma {:induction false} ItemSound(order: seq<Order>, a: nat, b: nat, fuel: nat)
    requires Item(order, a, b, fuel).r == Some(true)
    ensures Reaches(order, a, b)
    decreases fuel, 0
  {
    ScanSound(order, 0, a, b, fuel - 1);
  }

  lemma {:induction false} ScanSound(order: seq<Order>, i: nat, a: nat, b: nat, fuel: nat)
    requires i <= |order| && Scan(order, i, a, b, fuel).r == Some(true)
    ensures Reaches(order, a, b)
    decreases fuel, |order| - i
  {
    if order[i].pred != a || order[i].succ == a != b {
      ScanSound(order, i + 1, a, b, fuel);
    } else if order[i].succ == b {
      OneStep(order, a, b);
    } else {
      var s := Item(order, order[i].succ, b, fuel);
      if s.r == Some(false) {
        ScanSound(order, i + 1, a, b, s.left);
      } else {
        ItemSound(order, order[i].succ, b, fuel);
        StepOn(order, a, order[i].succ, b);
      }
    }
  }

  /** A scan that comes to nothing has looked at every pair behind i. */
  lemma {:induction false} ScanSaw(order: seq<Order>, i: nat, a: nat, b: nat, fuel: nat, j: nat) returns (f: nat)
    requires i <= j < |order| && order[j].pred == a && Scan(order, i, a, b, fuel).r == Some(false)
    ensures order[j].succ != b
    ensures order[j].succ != a ==> Item(order, order[j].succ, b, f).r == Some(false)
    decreases fuel, |order| - i
  {
    f := fuel;
    if order[i].pred != a || order[i].succ == a {
      if i < j {
        f := ScanSaw(order, i + 1, a, b, fuel, j);
      }
    } else if i < j {
      f := ScanSaw(order, i + 1, a, b, Item(order, order[i].succ, b, fuel).left, j);
    }
  }

  lemma {:induction false} ItemComplete(order: seq<Order>, a: nat, b: nat, fuel: nat, p: seq<nat>)
    requires Item(order, a, b, fuel).r == Some(false)
    ensures !IsPath(order, a, b, p)
    decreases |p|
  {
    if IsPath(order, a, b, p) {
      assert Order(p[0], p[1]) in order;
      var j :| 0 <= j < |order| && order[j] == Order(a, p[1]);
      var f := ScanSaw(order, 0, a, b, fuel - 1, j);
      if |p| > 2 {
        assert IsPath(order, p[1], b, p[1..]);
        ItemComplete(order, p[1], b, if p[1] == a then fuel else f, p[1..]);
      }
    }
  }

  /** Whenever item_precedes returns, its answer is whether a path of one or more pairs leads from a
      to b, on graphs with cycles and pairs of equal tokens too. */
  lemma Decides(order: seq<Order>, a: nat, b: nat, fuel: nat)
    requires Item(order, a, b, fuel).r.Some?
    ensures Item(order, a, b, fuel).r.value <==> Reaches(order, a, b)
  {
    if Item(order, a, b, fuel).r.value {
      ItemSound(order, a, b, fuel);
    } else {
      forall p ensures !IsPath(order, a, b, p) {
        ItemComplete(order, a, b, fuel, p);
      }
    }
  }

  // ----- when it gives up -----

  /** A walk along recorded pairs of different tokens. */
  ghost predicate Walk(order: seq<Order>, p: seq<nat>) {
    p != [] && forall k :: 0 <= k < |p| - 1 ==> p[k] != p[k + 1] && Order(p[k], p[k + 1]) in order
  }

  lemma {:induction false} ScanSawBelow(order: seq<Order>, i: nat, a: nat, b: nat, fuel: nat, j: nat) returns (f: nat)
    requires i <= j < |order| && order[j].pred == a && Scan(order, i, a, b, fuel).r == Some(false)
    ensures f <= fuel && (order[j].succ != a ==> Item(order, order[j].succ, b, f).r == Some(false))
    decreases fuel, |order| - i
  {
    f := fuel;
    if i < j {
      if order[i].pred != a || order[i].succ == a {
        f := ScanSawBelow(order, i + 1, a, b, fuel, j);
      } else {
        f := ScanSawBelow(order, i + 1, a, b, Item(order, order[i].succ, b, fuel).left, j);
      }
    }
  }

  /** A search that comes to nothing has followed every walk, one call for each token on it. */
  lemma {:induction false} WalksAreShort(order: seq<Order>, a: nat, b: nat, fuel: nat, p: seq<nat>)
    requires Item(order, a, b, fuel).r == Some(false) && Walk(order, p) && p[0] == a
    ensures |p| < fuel
    decreases |p|
  {
    if |p| > 1 {
      assert Order(p[0], p[1]) in order;
      var j :| 0 <= j < |order| && order[j] == Order(a, p[1]);
      var f := ScanSawBelow(order, 0, a, b, fuel - 1, j);
      WalksAreShort(order, p[1], b, f, p[1..]);
    }
  }

  /** n times around a cycle. */
  ghost function Rounds(cyc: seq<nat>, n: nat): (p: seq<nat>)
    requires |cyc| >= 2
    ensures |p| > n && p[0] == cyc[0]
  {
    if n == 0 then cyc else cyc[..|cyc| - 1] + Rounds(cyc, n - 1)
  }

  lemma {:induction false} RoundsWalk(order: seq<Order>, cyc: seq<nat>, n: nat)
    requires Walk(order, cyc) && |cyc| >= 2 && cyc[0] == cyc[|cyc| - 1]
    ensures Walk(order, Rounds(cyc, n))
  {
    if n > 0 {
      RoundsWalk(order, cyc, n - 1);
      var q, r := cyc[..|cyc| - 1], Rounds(cyc, n - 1);
      forall k | 0 <= k < |q + r| - 1
        ensures (q + r)[k] != (q + r)[k + 1] && Order((q + r)[k], (q + r)[k + 1]) in order
      {
        if k == |q| - 1 {
          assert (q + r)[k] == cyc[k] && (q + r)[k + 1] == cyc[k + 1];
        }
      }
    }
  }

  /** From a token on a cycle, no limit is high enough to find that another can not be reached. */
  lemma GivesUpOnCycles(order: seq<Order>, cyc: seq<nat>, b: nat, fuel: nat)
    requires Walk(order, cyc) && |cyc| >= 2 && cyc[0] == cyc[|cyc| - 1]
    ensures Item(order, cyc[0], b, fuel).r != Some(false)
  {
    if Item(order, cyc[0], b, fuel).r == Some(false) {
      RoundsWalk(order, cyc, fuel);
      WalksAreShort(order, cyc[0], b, fuel, Rounds(cyc, fuel));
    }
  }

  // ----- when it does not -----

  /** Walks from a have at most n tokens. */
  ghost predicate Bounded(order: seq<Order>, a: nat, n: nat) {
    forall p :: Walk(order, p) && p[0] == a ==> |p| <= n
  }

  function Times(k: nat, c: nat): nat {
    if k == 0 then 0 else c + Times(k - 1, c)
  }

  /** A fuel that is enough for them. */
  function Cost(m: nat, n: nat): (c: nat)
    ensures c > 0
  {
    if n == 0 then 1 else 1 + Times(m, Cost(m, n - 1))
  }

  lemma BoundedStep(order: seq<Order>, a: nat, c: nat, n: nat)
    requires Bounded(order, a, n) && Order(a, c) in order && a != c
    ensures n > 0 && Bounded(order, c, n - 1)
  {
    assert Walk(order, [a]);
    forall p | Walk(order, p) && p[0] == c ensures |p| <= n - 1 {
      assert Walk(order, [a] + p);
    }
  }

  lemma {:induction false} ItemReturns(order: seq<Order>, a: nat, b: nat, n: nat, fuel: nat)
    requires Bounded(order, a, n) && fuel > Cost(|order|, n)
    ensures Item(order, a, b, fuel).r.Some? && Item(order, a, b, fuel).left >= fuel - Cost(|order|, n)
    decreases n, |order| + 1
  {
    assert Walk(order, [a]);
    ScanReturns(order, 0, a, b, n, fuel - 1);
  }

  lemma {:induction false} ScanReturns(order: seq<Order>, i: nat, a: nat, b: nat, n: nat, fuel: nat)
    requires i <= |order| && n > 0 && Bounded(order, a, n) && fuel > Times(|order| - i, Cost(|order|, n - 1))
    ensures var o := Scan(order, i, a, b, fuel);
            o.r.Some? && o.left >= fuel - Times(|order| - i, Cost(|order|, n - 1))
    decreases n, |order| - i
  {
    if i < |order| {
      if order[i].pred != a || order[i].succ == a != b {
        ScanReturns(order, i + 1, a, b, n, fuel);
      } else if order[i].succ != b {
        BoundedStep(order, a, order[i].succ, n);
        ItemReturns(order, order[i].succ, b, n - 1, fuel);
        var s := Item(order, order[i].succ, b, fuel);
        if s.r == Some(false) {
          ScanReturns(order, i + 1, a, b, n, s.left);
        }
      }
    }
  }

  /** A walk from a comes back to a token it has passed: a cycle of two or more tokens. */
  ghost predicate MeetsCycle(order: seq<Order>, a: nat) {
    exists p, i: nat, j: nat :: Comes(order, a, p, i, j)
  }

  ghost predicate Comes(order: seq<Order>, a: nat, p: seq<nat>, i: nat, j: nat) {
    Walk(order, p) && p[0] == a && i < j < |p| && p[i] == p[j]
  }

  lemma JoinWalks(order: seq<Order>, p: seq<nat>, q: seq<nat>)
    requires Walk(order, p) && Walk(order, q) && p[|p| - 1] == q[0]
    ensures Walk(order, p[..|p| - 1] + q)
  {
    var r := p[..|p| - 1] + q;
    forall k | 0 <= k < |r| - 1 ensures r[k] != r[k + 1] && Order(r[k], r[k + 1]) in order {
      if k < |p| - 1 {
        assert r[k] == p[k] && r[k + 1] == p[k + 1];
      } else {
        assert r[k] == q[k + 1 - |p|] && r[k + 1] == q[k + 2 - |p|];
      }
    }
  }

  lemma CycleIsUnbounded(order: seq<Order>, a: nat, n: nat)
    requires MeetsCycle(order, a)
    ensures !Bounded(order, a, n)
  {
    var p, i: nat, j: nat :| Comes(order, a, p, i, j);
    var cyc := p[i..j + 1];
    assert Walk(order, cyc) && Walk(order, p[..i + 1]);
    RoundsWalk(order, cyc, n);
    JoinWalks(order, p[..i + 1], Rounds(cyc, n));
    assert p[..i + 1][..i] == p[..i];
    assert Walk(order, p[..i] + Rounds(cyc, n)) && (p[..i] + Rounds(cyc, n))[0] == a;
  }

  function Succs(order: seq<Order>): (s: set<nat>)
    ensures |s| <= |order|
    ensures forall o <- order :: o.succ in s
  {
    if order == [] then {} else {order[0].succ} + Succs(order[1..])
  }

  function On(p: seq<nat>): set<nat> { set x | x in p }

  lemma {:induction false} DistinctCount(p: seq<nat>)
    requires forall i, j :: 0 <= i < j < |p| ==> p[i] != p[j]
    ensures |On(p)| == |p|
  {
    if p == [] {
      assert On(p) == {};
    } else {
      DistinctCount(p[1..]);
      HeadTail(p);
      assert On(p) == {p[0]} + On(p[1..]) && p[0] !in On(p[1..]);
    }
  }

  lemma SubsetCount(a: set<nat>, b: set<nat>)
    requires a <= b
    ensures |a| <= |b|
  {
    assert b == a + (b - a);
  }

  /** Without a cycle a walk enters each token at most once. */
  lemma NoCycleIsBounded(order: seq<Order>, a: nat)
    requires !MeetsCycle(order, a)
    ensures Bounded(order, a, |order| + 1)
  {
    forall p | Walk(order, p) && p[0] == a ensures |p| <= |order| + 1 {
      forall i, j | 0 <= i < j < |p| ensures p[i] != p[j] {
        assert !Comes(order, a, p, i, j);
      }
      DistinctCount(p[1..]);
      forall x | x in p[1..] ensures x in Succs(order) {
        var k :| 0 <= k < |p| - 1 && p[1..][k] == x;
        assert Order(p[k], p[k + 1]) in order && p[k + 1] == x;
      }
      SubsetCount(On(p[1..]), Succs(order));
    }
  }

  lemma NoIsFinal(order: seq<Order>, a: nat, b: nat, fuel: nat)
    requires Item(order, a, b, fuel).r == Some(false)
    ensures !Reaches(order, a, b) && !MeetsCycle(order, a)
  {
    Decides(order, a, b, fuel);
    forall p | Walk(order, p) && p[0] == a ensures |p| <= fuel {
      WalksAreShort(order, a, b, fuel, p);
    }
    if MeetsCycle(order, a) {
      CycleIsUnbounded(order, a, fuel);
    }
  }

  /** With a limit that is high enough item_precedes finds that a does not lead to b, if and only if a
      does not lead to b and no cycle of two or more tokens can be reached from a. */
  lemma FindsNoPath(order: seq<Order>, a: nat, b: nat)
    ensures (exists fuel: nat :: Item(order, a, b, fuel).r == Some(false))
            <==> !Reaches(order, a, b) && !MeetsCycle(order, a)
  {
    if fuel: nat :| Item(order, a, b, fuel).r == Some(false) {
      NoIsFinal(order, a, b, fuel);
    }
    if !Reaches(order, a, b) && !MeetsCycle(order, a) {
      EnoughFuel(order, a, b, Cost(|order|, |order| + 1) + 1);
      Decides(order, a, b, Cost(|order|, |order| + 1) + 1);
    }
  }

  /** Where no cycle can be reached this limit is high enough. */
  lemma EnoughFuel(order: seq<Order>, a: nat, b: nat, fuel: nat)
    requires !MeetsCycle(order, a) && fuel > Cost(|order|, |order| + 1)
    ensures Item(order, a, b, fuel).r == Some(Reaches(order, a, b))
  {
    NoCycleIsBounded(order, a);
    ItemReturns(order, a, b, |order| + 1, fuel);
    Decides(order, a, b, fuel);
  }

  // ----- when it finds a path -----

  /** Trying the pair from x to c does not end the search. */
  ghost predicate DeadEnd(order: seq<Order>, x: nat, c: nat, b: nat) {
    c != b && (c == x || (!Reaches(order, c, b) && !MeetsCycle(order, c)))
  }

  ghost predicate DeadEnds(order: seq<Order>, x: nat, b: nat, i: nat, j: nat)
    requires j <= |order|
  {
    forall k :: i <= k < j && order[k].pred == x ==> DeadEnd(order, x, order[k].succ, b)
  }

  /** The pair from x to c is tried: all pairs from x that were recorded before it are dead ends. */
  ghost predicate Tries(order: seq<Order>, x: nat, c: nat, b: nat) {
    exists i: nat :: TriesAt(order, x, c, b, i)
  }

  ghost predicate TriesAt(order: seq<Order>, x: nat, c: nat, b: nat, i: nat) {
    i < |order| && order[i] == Order(x, c) && DeadEnds(order, x, b, 0, i) && (c == b || c != x)
  }

  /** A path to b, each pair of which is tried. */
  ghost predicate FirstWay(order: seq<Order>, a: nat, b: nat, p: seq<nat>) {
    && |p| >= 2 && p[0] == a && p[|p| - 1] == b
    && forall k :: 0 <= k < |p| - 1 ==> Tries(order, p[k], p[k + 1], b)
  }

  /** More fuel does not change an answer. */
  lemma {:induction false} ItemMore(order: seq<Order>, a: nat, b: nat, fuel: nat, more: nat)
    requires Item(order, a, b, fuel).r.Some?
    ensures Item(order, a, b, fuel + more) == Outcome(Item(order, a, b, fuel).r, Item(order, a, b, fuel).left + more)
    decreases fuel, 0
  {
    ScanMore(order, 0, a, b, fuel - 1, more);
  }

  lemma {:induction false} ScanMore(order: seq<Order>, i: nat, a: nat, b: nat, fuel: nat, more: nat)
    requires i <= |order| && Scan(order, i, a, b, fuel).r.Some?
    ensures Scan(order, i, a, b, fuel + more)
         == Outcome(Scan(order, i, a, b, fuel).r, Scan(order, i, a, b, fuel).left + more)
    decreases fuel, |order| - i
  {
    if i < |order| {
      if order[i].pred != a || order[i].succ == a != b {
        ScanMore(order, i + 1, a, b, fuel, more);
      } else if order[i].succ != b {
        ItemMore(order, order[i].succ, b, fuel, more);
        var s := Item(order, order[i].succ, b, fuel);
        if s.r == Some(false) {
          ScanMore(order, i + 1, a, b, s.left, more);
        }
      }
    }
  }

  /** The search gets past dead ends. */
  lemma {:induction false} PassDeadEnds(order: seq<Order>, j: nat, i: nat, a: nat, b: nat, fuel: nat) returns (f: nat)
    requires j <= i <= |order| && DeadEnds(order, a, b, j, i) && Scan(order, i, a, b, fuel).r == Some(true)
    ensures Scan(order, j, a, b, f).r == Some(true)
    decreases i - j
  {
    f := fuel;
    if j < i {
      f := PassDeadEnds(order, j + 1, i, a, b, fuel);
      if order[j].pred == a && order[j].succ != a {
        var c := order[j].succ;
        assert DeadEnd(order, a, c, b);
        FindsNoPath(order, c, b);
        var g: nat :| Item(order, c, b, g).r == Some(false);
        ItemMore(order, c, b, g, f);
        ScanMore(order, j + 1, a, b, f, Item(order, c, b, g).left);
        f := g + f;
      } else if order[j].pred == a {
        assert DeadEnd(order, a, order[j].succ, b);
      }
    }
  }

  lemma {:induction false} FollowsWay(order: seq<Order>, a: nat, b: nat, p: seq<nat>) returns (fuel: nat)
    requires FirstWay(order, a, b, p)
    ensures Item(order, a, b, fuel).r == Some(true)
    decreases |p|
  {
    assert Tries(order, p[0], p[1], b);
    var c := p[1];
    var i: nat :| TriesAt(order, a, c, b, i);
    fuel := 2;
    if c != b {
      assert FirstWay(order, c, b, p[1..]) by {
        forall k | 0 <= k < |p[1..]| - 1 ensures Tries(order, p[1..][k], p[1..][k + 1], b) {
          assert Tries(order, p[k + 1], p[k + 2], b);
        }
      }
      fuel := FollowsWay(order, c, b, p[1..]);
    }
    assert Scan(order, i, a, b, fuel).r == Some(true);
    fuel := PassDeadEnds(order, 0, i, a, b, fuel);
    ScanMore(order, 0, a, b, fuel, 1);
    fuel := fuel + 2;
    assert Item(order, a, b, fuel) == Scan(order, 0, a, b, fuel - 1);
  }

  lemma {:induction false} ItemWay(order: seq<Order>, a: nat, b: nat, fuel: nat) returns (p: seq<nat>)
    requires Item(order, a, b, fuel).r == Some(true)
    ensures FirstWay(order, a, b, p)
    decreases fuel, 0
  {
    p := ScanWay(order, 0, a, b, fuel - 1);
  }

  lemma {:induction false} ScanWay(order: seq<Order>, i: nat, a: nat, b: nat, fuel: nat) returns (p: seq<nat>)
    requires i <= |order| && DeadEnds(order, a, b, 0, i) && Scan(order, i, a, b, fuel).r == Some(true)
    ensures FirstWay(order, a, b, p)
    decreases fuel, |order| - i
  {
    var c := order[i].succ;
    if order[i].pred != a || c == a != b {
      p := ScanWay(order, i + 1, a, b, fuel);
    } else if c == b {
      p := [a, b];
      assert TriesAt(order, a, b, b, i);
    } else {
      var s := Item(order, c, b, fuel);
      if s.r == Some(false) {
        NoIsFinal(order, c, b, fuel);
        assert DeadEnd(order, a, c, b);
        p := ScanWay(order, i + 1, a, b, s.left);
      } else {
        var q := ItemWay(order, c, b, fuel);
        p := [a] + q;
        assert TriesAt(order, a, c, b, i);
        forall k | 0 <= k < |p| - 1 ensures Tries(order, p[k], p[k + 1], b) {
          if k > 0 {
            assert Tries(order, q[k - 1], q[k], b);
          }
        }
      }
    }
  }

  /** With a limit that is high enough item_precedes finds that a leads to b, if and only if a path
      leads there on which every pair recorded earlier than the one taken is a dead end: it joins a token
      to itself, or leads neither to b nor to a cycle. */
  lemma FindsPath(order: seq<Order>, a: nat, b: nat)
    ensures (exists fuel: nat :: Item(order, a, b, fuel).r == Some(true)) <==> exists p :: FirstWay(order, a, b, p)
  {
    if fuel: nat :| Item(order, a, b, fuel).r == Some(true) {
      var p := ItemWay(order, a, b, fuel);
    }
    if p :| FirstWay(order, a, b, p) {
      var fuel := FollowsWay(order, a, b, p);
    }
  }

  // ----- the comparison that is given to qsort -----

  const MAX_RECURSE: nat := 4000000

  /** compare_items (tsort/tsort.cc:183-196) */
  function CompareItems(order: seq<Order>, a: nat, b: nat): Option<int> {
    if a == b then Some(0)
    else match Item(order, a, b, MAX_RECURSE).r
      case None => None
      case Some(true) => Some(-1)
      case Some(false) => Some(1)
  }

  /** Its answers, and that it starts every search with a limit of four million. */
  lemma CompareCases(order: seq<Order>, a: nat, b: nat)
    ensures CompareItems(order, a, b) == Some(0) <==> a == b
    ensures a != b ==> (CompareItems(order, a, b).None? <==> Item(order, a, b, 4_000_000).r.None?)
    ensures CompareItems(order, a, b) in {None, Some(-1), Some(0), Some(1)}
  {
  }

  // ----- how far the limit reaches -----

  /** The pairs (0, 1), (1, 2), ..., (n - 1, n). */
  function Chain(n: nat): (order: seq<Order>)
    ensures |order| == n
  {
    seq(n, i requires 0 <= i < n => Order(i, i + 1))
  }

  lemma {:induction false} ChainScan(n: nat, i: nat, k: nat, fuel: nat)
    requires i <= k < n
    ensures Scan(Chain(n), i, k, n, fuel) == Scan(Chain(n), k, k, n, fuel)
    decreases k - i
  {
    if i < k {
      ChainScan(n, i + 1, k, fuel);
    }
  }

  lemma {:induction false} ChainItem(n: nat, k: nat, fuel: nat)
    requires k < n
    ensures Item(Chain(n), k, n, fuel).r == if fuel > n - k then Some(true) else None
    decreases n - k
  {
    if fuel > 1 {
      ChainScan(n, 0, k, fuel - 1);
      if k + 1 < n {
        ChainItem(n, k + 1, fuel - 1);
      }
    }
  }

  /** On a chain of n pairs the first token is found to come before the last exactly if n is below the
      limit; beyond it the program gives up. */
  lemma ChainLimit(n: nat)
    requires n > 0
    ensures CompareItems(Chain(n), 0, n) == if n < 4_000_000 then Some(-1) else None
  {
    ChainItem(n, 0, 4_000_000);
  }

  /** It says "before" exactly of a token that leads to another one. */
  lemma CompareDecides(order: seq<Order>, a: nat, b: nat)
    requires CompareItems(order, a, b).Some?
    ensures CompareItems(order, a, b) == Some(-1) <==> a != b && Reaches(order, a, b)
  {
    if a != b {
      Decides(order, a, b, MAX_RECURSE);
    }
  }

  /** It is an order only where the graph decides: it contradicts itself on two tokens if and only if
      neither leads to the other, or each does. */
  lemma ContradictsItself(order: seq<Order>, a: nat, b: nat)
    requires CompareItems(order, a, b).Some? && CompareItems(order, b, a).Some? && a != b
    ensures CompareItems(order, a, b) == CompareItems(order, b, a) <==> (Reaches(order, a, b) <==> Reaches(order, b, a))
  {
    CompareDecides(order, a, b);
    CompareDecides(order, b, a);
  }

  /** Two pairs with no token in common: each of 0 and 2 is put behind the other. */
  lemma BothBehind()
    ensures var order := [Order(0, 1), Order(2, 3)];
            CompareItems(order, 0, 2) == CompareItems(order, 2, 0) == Some(1)
  {
    var order := [Order(0, 1), Order(2, 3)];
    Leaf(order, 1, 2, MAX_RECURSE - 1);
    Leaf(order, 3, 0, MAX_RECURSE - 1);
  }

  /** A token that is no pair's first leads nowhere. */
  lemma Leaf(order: seq<Order>, a: nat, b: nat, fuel: nat)
    requires fuel > 1 && |order| == 2 && order[0].pred != a && order[1].pred != a
    ensures Item(order, a, b, fuel) == Outcome(Some(false), fuel - 1)
  {
    assert Scan(order, 1, a, b, fuel - 1) == Scan(order, 2, a, b, fuel - 1) == Outcome(Some(false), fuel - 1);
  }
}
