/** Base64 as section 4 of RFC 4648 defines it, cut into lines as section 6.8 of RFC 2045 allows; and
    its decoder. Text is a string, data are bytes. */
module Base64 {
  import opened Bits

  /** The symbol for a 6-bit value: A-Z, a-z, 0-9, +, / (section 4, table 1). */
  function Sym(i: nat): char {
    if i < 26 then (65 + i) as char
    else if i < 52 then (71 + i) as char
    else if i < 62 then (i - 4) as char
    else if i == 62 then '+'
    else '/'
  }

  /** The value of a symbol. */
  function Value(c: char): (v: nat)
    ensures v < 64
  {
    if 'A' <= c <= 'Z' then c as nat - 65
    else if 'a' <= c <= 'z' then c as nat - 71
    else if '0' <= c <= '9' then c as nat + 4
    else if c == '+' then 62
    else 63
  }

  /** A symbol gives its value back, and is neither the pad nor a newline. */
  lemma ValueOfSym(i: nat)
    requires i < 64
    ensures Value(Sym(i)) == i && Sym(i) != '=' && Sym(i) != '\n'
  {
  }

  // ----- encoding -----

  /** The k-th of the four 6-bit digits of a 24-bit number, from the left. */
  function Digit(n: nat, k: nat): (d: nat)
    ensures d < 64
  {
    if k == 0 then n / 64 / 64 / 64 % 64
    else if k == 1 then n / 64 / 64 % 64
    else if k == 2 then n / 64 % 64
    else n % 64
  }

  /** Three bytes as one number of 24 bits. */
  function Group(a: byte, b: byte, c: byte): nat { a as nat * 65536 + b as nat * 256 + c as nat }

  function Quad(a: byte, b: byte, c: byte): (q: string)
    ensures |q| == 4
  {
    var n := Group(a, b, c);
    [Sym(Digit(n, 0)), Sym(Digit(n, 1)), Sym(Digit(n, 2)), Sym(Digit(n, 3))]
  }

  /** One or two bytes: zero bits fill the last digit, pads take the place of those without bits. */
  function Last(s: seq<byte>): (q: string)
    requires |s| == 1 || |s| == 2
    ensures |q| == 4
  {
    if |s| == 1 then
      [Sym(Digit(Group(s[0], 0, 0), 0)), Sym(Digit(Group(s[0], 0, 0), 1)), '=', '=']
    else
      var n := Group(s[0], s[1], 0);
      [Sym(Digit(n, 0)), Sym(Digit(n, 1)), Sym(Digit(n, 2)), '=']
  }

  function Encode(s: seq<byte>): string {
    if s == [] then []
    else if |s| < 3 then Last(s)
    else Quad(s[0], s[1], s[2]) + Encode(s[3..])
  }

  lemma {:induction false} EncodeLength(s: seq<byte>)
    ensures |Encode(s)| == (|s| + 2) / 3 * 4
  {
    if |s| >= 3 {
      EncodeLength(s[3..]);
      LengthStep(|s|);
    }
  }

  lemma LengthStep(n: nat)
    requires n >= 3
    ensures 4 + (n - 3 + 2) / 3 * 4 == (n + 2) / 3 * 4
  {
  }

  /** Lines of 45 bytes; the last holds less, and may be empty. */
  function Wrapped(s: seq<byte>): string
    decreases |s|
  {
    if |s| < 45 then Encode(s) + "\n" else Encode(s[..45]) + "\n" + Wrapped(s[45..])
  }

  // ----- decoding -----

  function DecodeQuad(a: char, b: char, c: char, d: char): seq<byte> {
    var x := Value(a) * 4 + Value(b) / 16;
    var y := Value(b) % 16 * 16 + Value(c) / 4;
    var z := Value(c) % 4 * 64 + Value(d);
    if c == '=' then [x] else if d == '=' then [x, y] else [x, y, z]
  }

  function Decode(t: string): seq<byte>
    decreases |t|
  {
    if |t| < 4 then [] else DecodeQuad(t[0], t[1], t[2], t[3]) + Decode(t[4..])
  }

  function Strip(t: string): (u: string)
    ensures |u| <= |t|
  {
    if t == [] then [] else (if t[0] == '\n' then [] else [t[0]]) + Strip(t[1..])
  }

  /** Four base-64 digits are the digits of the number they spell. */
  lemma Spelled(p: nat, q: nat, r: nat, t: nat)
    requires p < 64 && q < 64 && r < 64 && t < 64
    ensures var n := 64 * (64 * (64 * p + q) + r) + t;
            Digit(n, 0) == p && Digit(n, 1) == q && Digit(n, 2) == r && Digit(n, 3) == t
  {
    Over64(64 * (64 * p + q) + r, t);
    Over64(64 * p + q, r);
    Over64(p, q);
  }

  lemma Over64(x: nat, r: nat)
    requires r < 64
    ensures (64 * x + r) / 64 == x && (64 * x + r) % 64 == r
  {
  }

  /** The digits, in terms of the bytes. */
  lemma Digits(a: byte, b: byte, c: byte)
    ensures var n := Group(a, b, c);
            && Digit(n, 0) == a / 4 && Digit(n, 1) == a % 4 * 16 + b / 16
            && Digit(n, 2) == b % 16 * 4 + c / 64 && Digit(n, 3) == c % 64
  {
    var p, q, r, t := a / 4, a % 4 * 16 + b / 16, b % 16 * 4 + c / 64, c % 64;
    assert Group(a, b, c) == 64 * (64 * (64 * p + q) + r) + t;
    Spelled(p, q, r, t);
  }

  /** The bytes, in terms of the digits. */
  lemma DigitsBack(a: byte, b: byte, c: byte)
    ensures var n := Group(a, b, c);
            && Digit(n, 0) * 4 + Digit(n, 1) / 16 == a
            && Digit(n, 1) % 16 * 16 + Digit(n, 2) / 4 == b
            && Digit(n, 2) % 4 * 64 + Digit(n, 3) == c
  {
    Digits(a, b, c);
  }

  lemma SymsBack(p: nat, q: nat, r: nat, t: nat)
    requires p < 64 && q < 64 && r < 64 && t < 64
    requires p * 4 + q / 16 < 256
    ensures DecodeQuad(Sym(p), Sym(q), Sym(r), Sym(t)) == [p * 4 + q / 16, q % 16 * 16 + r / 4, r % 4 * 64 + t]
    ensures DecodeQuad(Sym(p), Sym(q), Sym(r), '=') == [p * 4 + q / 16, q % 16 * 16 + r / 4]
    ensures DecodeQuad(Sym(p), Sym(q), '=', '=') == [p * 4 + q / 16]
    ensures '\n' !in [Sym(p), Sym(q), Sym(r), Sym(t)]
  {
    ValueOfSym(p);
    ValueOfSym(q);
    ValueOfSym(r);
    ValueOfSym(t);
  }

  lemma QuadBack(a: byte, b: byte, c: byte)
    ensures var q := Quad(a, b, c); DecodeQuad(q[0], q[1], q[2], q[3]) == [a, b, c] && '\n' !in q
  {
    var n := Group(a, b, c);
    DigitsBack(a, b, c);
    SymsBack(Digit(n, 0), Digit(n, 1), Digit(n, 2), Digit(n, 3));
  }

  lemma LastBack(s: seq<byte>)
    requires |s| == 1 || |s| == 2
    ensures var q := Last(s); DecodeQuad(q[0], q[1], q[2], q[3]) == s && '\n' !in q
  {
    var b: byte := if |s| == 2 then s[1] else 0;
    var n := Group(s[0], b, 0);
    DigitsBack(s[0], b, 0);
    SymsBack(Digit(n, 0), Digit(n, 1), Digit(n, 2), 0);
  }

  lemma {:induction false} DecodeEncode(s: seq<byte>)
    ensures Decode(Encode(s)) == s && '\n' !in Encode(s)
  {
    if 0 < |s| < 3 {
      LastBack(s);
      assert Last(s)[4..] == [];
    } else if |s| >= 3 {
      QuadBack(s[0], s[1], s[2]);
      DecodeEncode(s[3..]);
      assert Encode(s)[4..] == Encode(s[3..]);
      assert s == [s[0], s[1], s[2]] + s[3..];
    }
  }

  lemma {:induction false} StripConcat(t: string, u: string)
    ensures Strip(t + u) == Strip(t) + Strip(u)
  {
    if t == [] {
      assert t + u == u;
    } else {
      StripConcat(t[1..], u);
      assert (t + u)[1..] == t[1..] + u && (t + u)[0] == t[0];
      var kept := if t[0] == '\n' then [] else [t[0]];
      assert kept + (Strip(t[1..]) + Strip(u)) == kept + Strip(t[1..]) + Strip(u);
    }
  }

  lemma {:induction false} StripNothing(t: string)
    requires '\n' !in t
    ensures Strip(t) == t
  {
    if t != [] {
      StripNothing(t[1..]);
    }
  }

  /** Whole groups can be encoded apart. */
  lemma {:induction false} EncodeConcat(a: seq<byte>, b: seq<byte>)
    requires |a| % 3 == 0
    ensures Encode(a + b) == Encode(a) + Encode(b)
    decreases |a|
  {
    if a == [] {
      assert a + b == b;
    } else {
      assert (a + b)[3..] == a[3..] + b;
      EncodeConcat(a[3..], b);
      assert Encode(a + b) == Quad(a[0], a[1], a[2]) + (Encode(a[3..]) + Encode(b));
    }
  }

  lemma StripLine(line: seq<byte>, rest: string)
    ensures Strip(Encode(line) + "\n" + rest) == Encode(line) + Strip(rest)
  {
    DecodeEncode(line);
    StripNothing(Encode(line));
    StripConcat(Encode(line), "\n");
    StripConcat(Encode(line) + "\n", rest);
    assert "\n"[1..] == [];
    assert Strip("\n") == [];
    assert Encode(line) + [] == Encode(line);
  }

  /** The text without its newlines is the encoding of the data. */
  lemma {:induction false} StripWrapped(s: seq<byte>)
    ensures Strip(Wrapped(s)) == Encode(s)
    decreases |s|
  {
    if |s| < 45 {
      StripLine(s, []);
      assert Encode(s) + "\n" + [] == Encode(s) + "\n" && Encode(s) + [] == Encode(s);
    } else {
      StripLine(s[..45], Wrapped(s[45..]));
      StripWrapped(s[45..]);
      assert s == s[..45] + s[45..];
      EncodeConcat(s[..45], s[45..]);
    }
  }

  /** Decoding the text, newlines removed, gives the data back. */
  lemma RoundTrip(s: seq<byte>)
    ensures Decode(Strip(Wrapped(s))) == s
  {
    StripWrapped(s);
    DecodeEncode(s);
  }

  /** What stands between the newlines: 60 characters for 45 bytes, at most 60 for fewer. */
  lemma LineText(line: seq<byte>)
    requires |line| <= 45
    ensures '\n' !in Encode(line) && |Encode(line)| <= 60 && (|line| == 45 ==> |Encode(line)| == 60)
  {
    DecodeEncode(line);
    EncodeLength(line);
    LineLength(|line|);
  }

  lemma LineLength(n: nat)
    requires n <= 45
    ensures (n + 2) / 3 * 4 <= 60
  {
  }

  // ----- the text, byte for byte -----

  /** The alphabet of the standard. */
  lemma Alphabet(i: nat)
    requires i < 64
    ensures i < 26 ==> Sym(i) as int == 'A' as int + i
    ensures 26 <= i < 52 ==> Sym(i) as int == 'a' as int + (i - 26)
    ensures 52 <= i < 62 ==> Sym(i) as int == '0' as int + (i - 52)
    ensures i == 62 ==> Sym(i) == '+'
    ensures i == 63 ==> Sym(i) == '/'
  {
  }

  lemma Symbols(p: nat, q: nat, r: nat, t: nat, a: byte, b: byte, c: byte)
    requires p == a / 4 && q == a % 4 * 16 + b / 16 && r == b % 16 * 4 + c / 64 && t == c % 64
    ensures Quad(a, b, c) == [Sym(p), Sym(q), Sym(r), Sym(t)]
    ensures c == 0 ==> Last([a, b]) == [Sym(p), Sym(q), Sym(r), '=']
    ensures b == 0 == c ==> Last([a]) == [Sym(p), Sym(q), '=', '=']
  {
    Digits(a, b, c);
  }

  lemma OneGroup(s: seq<byte>)
    requires |s| == 3
    ensures Encode(s) == Quad(s[0], s[1], s[2]) && Encode(s[..2]) == Last(s[..2]) && Encode(s[..1]) == Last(s[..1])
  {
    assert s[3..] == [] && Quad(s[0], s[1], s[2]) + [] == Quad(s[0], s[1], s[2]);
  }

  lemma Foo(s: seq<byte>)
    requires s == [102, 111, 111]
    ensures Encode(s) == "Zm9v" && Encode(s[..2]) == "Zm8=" && Encode(s[..1]) == "Zg=="
  {
    OneGroup(s);
    Symbols(25, 38, 61, 47, 102, 111, 111);
    Symbols(25, 38, 60, 0, 102, 111, 0);
    Symbols(25, 32, 0, 0, 102, 0, 0);
    assert s[..2] == [102, 111] && s[..1] == [102];
  }

  lemma Bar(s: seq<byte>)
    requires s == [98, 97, 114]
    ensures Encode(s) == "YmFy" && Encode(s[..2]) == "YmE=" && Encode(s[..1]) == "Yg=="
  {
    OneGroup(s);
    Symbols(24, 38, 5, 50, 98, 97, 114);
    Symbols(24, 38, 4, 0, 98, 97, 0);
    Symbols(24, 32, 0, 0, 98, 0, 0);
    assert s[..2] == [98, 97] && s[..1] == [98];
  }

  /** The vectors of RFC 4648, section 10: the beginnings of foobar. */
  lemma Vectors()
    ensures Encode([]) == "" && Encode([102]) == "Zg==" && Encode([102, 111]) == "Zm8="
    ensures Encode([102, 111, 111]) == "Zm9v" && Encode([102, 111, 111, 98]) == "Zm9vYg=="
    ensures Encode([102, 111, 111, 98, 97]) == "Zm9vYmE=" && Encode([102, 111, 111, 98, 97, 114]) == "Zm9vYmFy"
  {
    var foo: seq<byte> := [102, 111, 111];
    var bar: seq<byte> := [98, 97, 114];
    Foo(foo);
    Bar(bar);
    assert foo[..2] == [102, 111] && foo[..1] == [102] && bar[..2] == [98, 97] && bar[..1] == [98];
    EncodeConcat(foo, [98]);
    EncodeConcat(foo, [98, 97]);
    EncodeConcat(foo, [98, 97, 114]);
    assert foo + [98] == [102, 111, 111, 98] && foo + [98, 97] == [102, 111, 111, 98, 97];
    assert foo + [98, 97, 114] == [102, 111, 111, 98, 97, 114];
  }

  /** A first full line. */
  lemma FirstLine(s: seq<byte>)
    requires |s| >= 45
    ensures |Encode(s[..45]) + "\n"| == 61 && Wrapped(s) == Encode(s[..45]) + "\n" + Wrapped(s[45..])
  {
    LineText(s[..45]);
  }

  /** Line k of the text, from place p on, encodes the 45 bytes from place 45 * k on. */
  lemma {:induction false} FullLine(s: seq<byte>, k: nat, p: nat, q: nat)
    requires p == 61 * k && q == 45 * k && q + 45 <= |s|
    ensures p + 61 <= |Wrapped(s)| && Wrapped(s)[p..p + 61] == Encode(s[q..q + 45]) + "\n"
    decreases k
  {
    var head := Encode(s[..45]) + "\n";
    FirstLine(s);
    if k == 0 {
      assert (head + Wrapped(s[45..]))[0..61] == head && s[0..45] == s[..45];
    } else {
      FullLine(s[45..], k - 1, p - 61, q - 45);
      SliceLater(s, q);
      Behind(head, Wrapped(s[45..]), p - 61, p);
    }
  }

  lemma SliceLater(s: seq<byte>, q: nat)
    requires 45 <= q && q + 45 <= |s|
    ensures s[45..][q - 45..q] == s[q..q + 45]
  {
  }

  lemma Behind(a: string, b: string, i: nat, j: nat)
    requires |a| == 61 && i <= j <= |b|
    ensures (a + b)[61 + i..61 + j] == b[i..j]
  {
  }

  /** The last line, which may be empty, encodes what is left. */
  lemma {:induction false} LastLine(s: seq<byte>, k: nat, p: nat, q: nat)
    requires p == 61 * k && q == 45 * k && q <= |s| < q + 45
    ensures p <= |Wrapped(s)| && Wrapped(s)[p..] == Encode(s[q..]) + "\n"
    decreases k
  {
    if k == 0 {
      assert s[0..] == s && Wrapped(s)[0..] == Wrapped(s);
    } else {
      FirstLine(s);
      LastLine(s[45..], k - 1, p - 61, q - 45);
      DropLater(s, q);
      Behind(Encode(s[..45]) + "\n", Wrapped(s[45..]), p - 61, |Wrapped(s[45..])|);
    }
  }

  lemma DropLater(s: seq<byte>, q: nat)
    requires 45 <= q <= |s|
    ensures s[45..][q - 45..] == s[q..]
  {
  }
}
