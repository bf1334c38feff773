/** tsort (tsort/tsort.cc): interning the tokens, recording the pairs, and the search among them. */
module Tsort {
  import opened TsortSpec
  import opened Seqs

  /** isspace in the C locale */
  predicate IsSpace(c: char) { c == ' ' || 9 <= c as int <= 13 }

  function Skip(s: string): (r: string)
    ensures |r| <= |s| && (r != [] ==> !IsSpace(r[0]))
  {
    if s == [] || !IsSpace(s[0]) then s else Skip(s[1..])
  }

  function Word(s: string): (w: string)
    ensures w <= s && forall c <- w :: !IsSpace(c)
    ensures s != [] && !IsSpace(s[0]) ==> w != []
    ensures |w| < |s| ==> IsSpace(s[|w|])
  {
    if s == [] || IsSpace(s[0]) then [] else [s[0]] + Word(s[1..])
  }

  /** The longest runs without a blank. */
  function Tokens(line: string): (ts: seq<string>)
    decreases |line|
  {
    var s := Skip(line);
    if s == [] then [] else [Word(s)] + Tokens(s[|Word(s)|..])
  }

  function NoBlanks(s: string): string {
    if s == [] then [] else (if IsSpace(s[0]) then [] else [s[0]]) + NoBlanks(s[1..])
  }

  function Joined(ts: seq<string>): string {
    if ts == [] then [] else ts[0] + Joined(ts[1..])
  }

  lemma {:induction false} NoBlanksSkip(s: string)
    ensures NoBlanks(Skip(s)) == NoBlanks(s)
  {
    if s != [] && IsSpace(s[0]) {
      NoBlanksSkip(s[1..]);
    }
  }

  lemma {:induction false} NoBlanksWord(s: string)
    ensures NoBlanks(s) == Word(s) + NoBlanks(s[|Word(s)|..])
  {
    if s != [] && !IsSpace(s[0]) {
      NoBlanksWord(s[1..]);
      assert s[|Word(s)|..] == s[1..][|Word(s[1..])|..];
      assert NoBlanks(s) == [s[0]] + (Word(s[1..]) + NoBlanks(s[|Word(s)|..]));
    }
  }

  /** The tokens of a line are not empty and hold no blanks, and hold all the rest in order. */
  lemma {:induction false} TokensAre(line: string)
    ensures Joined(Tokens(line)) == NoBlanks(line)
    ensures forall t <- Tokens(line) :: t != [] && forall c <- t :: !IsSpace(c)
    decreases |line|
  {
    var s := Skip(line);
    NoBlanksSkip(line);
    if s != [] {
      NoBlanksWord(s);
      TokensAre(s[|Word(s)|..]);
      assert Tokens(line)[1..] == Tokens(s[|Word(s)|..]);
    }
  }

  /** Space, tab, newline, vertical tab, form feed and carriage return. */
  lemma Spaces(c: char)
    ensures IsSpace(c) <==> c as int in {32, 9, 10, 11, 12, 13}
  {
  }

  /** A blank in front is passed over; */
  lemma BlankFirst(line: string)
    requires line != [] && IsSpace(line[0])
    ensures Tokens(line) == Tokens(line[1..])
  {
  }

  /** a run without blanks, at the end of the line or before a blank, is one token. */
  lemma WordFirst(w: string, rest: string)
    requires w != [] && (forall c <- w :: !IsSpace(c)) && (rest != [] ==> IsSpace(rest[0]))
    ensures Tokens(w + rest) == [w] + Tokens(rest)
  {
    var line := w + rest;
    assert line[0..] == line && line[0..|w|] == w && line[|w|..] == rest;
    WordIs(line, 0, |w|);
  }

  /** The tokens of the recorded pairs, in order. */
  ghost function Spelled(dict: seq<string>, order: seq<Order>): seq<string>
    requires forall o <- order :: o.pred < |dict| && o.succ < |dict|
  {
    if order == [] then []
    else Spelled(dict, order[..|order| - 1]) + [dict[order[|order| - 1].pred], dict[order[|order| - 1].succ]]
  }

  lemma {:induction false} SpelledGrows(dict: seq<string>, more: seq<string>, order: seq<Order>)
    requires forall o <- order :: o.pred < |dict| && o.succ < |dict|
    ensures forall o <- order :: o.pred < |dict + more| && o.succ < |dict + more|
    ensures Spelled(dict + more, order) == Spelled(dict, order)
  {
    if order != [] {
      SpelledGrows(dict, more, order[..|order| - 1]);
      assert order[|order| - 1] in order;
    }
  }

  /** tsort/tsort.cc:139-140 */
  method SkipBlanks(line: string, p0: nat) returns (p: nat)
    requires p0 <= |line|
    ensures p0 <= p <= |line| && line[p..] == Skip(line[p0..])
    ensures p == p0 ==> p == |line| || !IsSpace(line[p])
  {
    p := p0;
    while p < |line| && IsSpace(line[p])
      invariant p0 <= p <= |line| && Skip(line[p..]) == Skip(line[p0..])
    {
      assert line[p..][1..] == line[p + 1..];
      p := p + 1;
    }
  }

  /** tsort/tsort.cc:142-144 */
  method WordEnd(line: string, p: nat) returns (end: nat)
    requires p <= |line|
    ensures p <= end <= |line| && line[p..end] == Word(line[p..])
  {
    end := p;
    while end < |line| && !IsSpace(line[end])
      invariant p <= end <= |line| && forall k :: p <= k < end ==> !IsSpace(line[k])
    {
      end := end + 1;
    }
    WordIs(line, p, end);
  }

  lemma {:induction false} WordIs(line: string, p: nat, end: nat)
    requires p <= end <= |line| && forall k :: p <= k < end ==> !IsSpace(line[k])
    requires end < |line| ==> IsSpace(line[end])
    ensures Word(line[p..]) == line[p..end]
    decreases end - p
  {
    if p < end {
      WordIs(line, p + 1, end);
      assert line[p..][1..] == line[p + 1..];
      assert line[p..end] == [line[p]] + line[p + 1..end];
    }
  }

  /** What one turn of process_line takes off the line. */
  lemma NextToken(line: string, p: nat, q: nat, end: nat)
    requires p < |line| && p <= q <= end <= |line|
    requires line[q..] == Skip(line[p..]) && line[q..end] == Word(line[q..])
    ensures end > p
    ensures Tokens(line[p..]) == (if end > q then [line[q..end]] else []) + Tokens(line[end..])
  {
    if q < |line| {
      assert line[q..][|Word(line[q..])|..] == line[end..];
    } else {
      assert line[end..] == [];
    }
  }

  class Tsort {
    var dict: seq<string>
    var order: seq<Order>
    var extraToken: Option<nat>
    var maxRecurse: nat

    /** No string is in the dictionary twice: two tokens have the same place exactly if they have the
        same characters. */
    ghost predicate Valid()
      reads this
    {
      && (forall i, j :: 0 <= i < j < |dict| ==> dict[i] != dict[j])
      && (forall o <- order :: o.pred < |dict| && o.succ < |dict|)
      && (extraToken.Some? ==> extraToken.value < |dict|)
    }

    /** All tokens pushed so far: those of the pairs, and the one that waits for a partner. */
    ghost function Pushed(): seq<string>
      requires Valid()
      reads this
    {
      Spelled(dict, order) + if extraToken.Some? then [dict[extraToken.value]] else []
    }

    constructor ()
      ensures Valid() && Pushed() == [] && dict == []
    {
      dict, order, extraToken, maxRecurse := [], [], None, 0;
    }

    /** add_token, adding allowed (tsort/tsort.cc:82-108). */
    method AddToken(token: string) returns (id: nat)
      requires Valid()
      modifies this`dict
      ensures Valid() && id < |dict| && dict[id] == token
      ensures dict == old(dict) || (dict == old(dict) + [token] && token !in old(dict))
      ensures Pushed() == old(Pushed())
    {
      var i := 0;
      while i < |dict|
        invariant i <= |dict| && token !in dict[..i]
      {
        if dict[i] == token {
          return i;
        }
        i := i + 1;
      }
      assert dict[..i] == dict;
      SpelledGrows(dict, [token], order);
      dict := dict + [token];
      id := |dict| - 1;
    }

    /** push_pair (tsort/tsort.cc:110-115), and no token waits. */
    method PushPair(a: nat, b: nat)
      requires Valid() && extraToken == Some(a) && b < |dict|
      modifies this`order, this`extraToken
      ensures Valid() && Pushed() == old(Pushed()) + [dict[b]]
    {
      ghost var was := order;
      order := order + [Order(a, b)];
      assert order[..|order| - 1] == was;
      extraToken := None;
    }

    /** push_token (tsort/tsort.cc:117-131) */
    method PushToken(token: string)
      requires Valid()
      modifies this`dict, this`order, this`extraToken
      ensures Valid() && Pushed() == old(Pushed()) + [token]
    {
      var id := AddToken(token);
      if extraToken.None? {
        extraToken := Some(id);
      } else {
        PushPair(extraToken.value, id);
      }
    }

    /** process_line (tsort/tsort.cc:133-156) */
    method ProcessLine(line: string)
      requires Valid()
      modifies this`dict, this`order, this`extraToken
      ensures Valid() && Pushed() == old(Pushed()) + Tokens(line)
    {
      var p := 0;
      ghost var all := Pushed() + Tokens(line);
      assert line[0..] == line;
      while p < |line|
        invariant p <= |line| && Valid() && Pushed() + Tokens(line[p..]) == all
      {
        var q := SkipBlanks(line, p);
        var end := WordEnd(line, q);
        NextToken(line, p, q, end);
        if end > q {
          Assoc(Pushed(), [line[q..end]], Tokens(line[end..]));
          PushToken(line[q..end]);
        }
        p := end;
      }
      assert line[p..] == [];
    }

    /** item_precedes (tsort/tsort.cc:160-181); None when it reaches its limit and exits. */
    method ItemPrecedes(a: nat, b: nat) returns (r: Option<bool>)
      requires maxRecurse > 0
      modifies this`maxRecurse
      ensures Outcome(r, maxRecurse) == Item(order, a, b, old(maxRecurse))
      decreases maxRecurse
    {
      ghost var whole := Item(order, a, b, maxRecurse);
      maxRecurse := maxRecurse - 1;
      if maxRecurse == 0 {
        return None;
      }
      var i := 0;
      while i < |order|
        invariant i <= |order| && 0 < maxRecurse < old(maxRecurse)
        invariant Scan(order, i, a, b, maxRecurse) == whole
      {
        var o := order[i];
        if o.pred == a {
          if o.succ == b {
            return Some(true);
          }
          if o.succ != a {
            var s := ItemPrecedes(o.succ, b);
            if s != Some(false) {
              return s;
            }
          }
        }
        i := i + 1;
      }
      r := Some(false);
    }

    /** compare_items (tsort/tsort.cc:183-196) */
    method Compare(a: nat, b: nat) returns (r: Option<int>)
      modifies this`maxRecurse
      ensures r == CompareItems(order, a, b)
    {
      if a == b {
        return Some(0);
      }
      maxRecurse := MAX_RECURSE;
      var p := ItemPrecedes(a, b);
      r := match p case None => None case Some(yes) => Some(if yes then -1 else 1);
    }
  }

  function AllTokens(lines: seq<string>): seq<string> {
    if lines == [] then [] else AllTokens(lines[..|lines| - 1]) + Tokens(lines[|lines| - 1])
  }

  /** The read loop of main (tsort/tsort.cc:233-236): the pairs recorded spell the tokens of the file,
      and if their number is odd the last one is left waiting. */
  method ReadFile(lines: seq<string>) returns (t: Tsort)
    ensures fresh(t) && t.Valid() && t.Pushed() == AllTokens(lines)
  {
    t := new Tsort();
    for i := 0 to |lines|
      invariant fresh(t) && t.Valid() && t.Pushed() == AllTokens(lines[..i])
    {
      t.ProcessLine(lines[i]);
      assert lines[..i + 1][..i] == lines[..i];
    }
    assert lines[..|lines|] == lines;
  }
}
