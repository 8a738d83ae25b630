/** Base64 as the node writes and reads it: one bit buffer of at most six bits, whose fill is the mode. */
module Base64 {
  type Byte = b: int | 0 <= b < 256
  type Sextet = d: int | 0 <= d < 64

  const NUL := 0 as char

  /** How three bytes and four sextets share their bits, and how a sextet is written. */
  datatype Coder = Coder(
    first: Byte -> Sextet, second: (Byte, Byte) -> Sextet, third: (Byte, Byte) -> Sextet, fourth: Byte -> Sextet,
    high: (Sextet, Sextet) -> Byte, middle: (Sextet, Sextet) -> Byte, low: (Sextet, Sextet) -> Byte,
    letter: Sextet -> char, value: char -> int)

  const CODE := Coder(First, Second, Third, Fourth, High, Middle, Low, Char, Value)

  function First(x: Byte): Sextet { x / 4 }

  function Second(x: Byte, y: Byte): Sextet { x % 4 * 16 + y / 16 }

  function Third(y: Byte, z: Byte): Sextet { y % 16 * 4 + z / 64 }

  function Fourth(z: Byte): Sextet { z % 64 }

  function High(a: Sextet, b: Sextet): Byte { a * 4 + b / 16 }

  function Middle(b: Sextet, c: Sextet): Byte { b % 16 * 16 + c / 4 }

  function Low(c: Sextet, d: Sextet): Byte { c % 4 * 64 + d }

  function Char(d: Sextet): char {
    if d < 26 then ('A' as int + d) as char
    else if d < 52 then ('a' as int + d - 26) as char
    else if d < 62 then ('0' as int + d - 52) as char
    else if d == 62 then '+' else '/'
  }

  /** The decoding table, -1 for a character outside the alphabet. */
  function Value(c: char): int {
    if 'A' <= c <= 'Z' then c as int - 'A' as int
    else if 'a' <= c <= 'z' then c as int - 'a' as int + 26
    else if '0' <= c <= '9' then c as int - '0' as int + 52
    else if c == '+' then 62 else if c == '/' then 63 else -1
  }

  /** What the round trips need of the bits: each way undoes the other, and a short group is filled with zeros. */
  ghost predicate Inverse(c: Coder) {
    && (forall x: Byte, y: Byte :: c.high(c.first(x), c.second(x, y)) == x)
    && (forall x: Byte, y: Byte, z: Byte :: c.middle(c.second(x, y), c.third(y, z)) == y)
    && (forall y: Byte, z: Byte :: c.low(c.third(y, z), c.fourth(z)) == z)
    && (forall a: Sextet, b: Sextet :: c.first(c.high(a, b)) == a && c.fourth(c.low(a, b)) == b)
    && (forall a: Sextet, b: Sextet, d: Sextet :: c.second(c.high(a, b), c.middle(b, d)) == b)
    && (forall a: Sextet, b: Sextet, d: Sextet :: c.third(c.middle(a, b), c.low(b, d)) == b)
    && (forall x: Byte :: c.second(x, 0) % 16 == 0 && c.third(x, 0) % 4 == 0)
    && (forall a: Sextet, b: Sextet :: b % 16 == 0 ==> c.second(c.high(a, b), 0) == b)
    && (forall a: Sextet, b: Sextet :: b % 4 == 0 ==> c.third(c.middle(a, b), 0) == b)
  }

  /** What they need of the alphabet. */
  ghost predicate Lettered(c: Coder) {
    && (forall d: Sextet :: c.value(c.letter(d)) == d)
    && (forall x: char :: -1 <= c.value(x) < 64 && (c.value(x) >= 0 ==> c.letter(c.value(x)) == x))
    && c.value('=') == -1 && c.value(NUL) == -1
  }

  lemma Cut4(hi: int, lo: int)
    requires 0 <= lo < 4
    ensures (hi * 4 + lo) / 4 == hi && (hi * 4 + lo) % 4 == lo
  {
  }

  lemma Cut16(hi: int, lo: int)
    requires 0 <= lo < 16
    ensures (hi * 16 + lo) / 16 == hi && (hi * 16 + lo) % 16 == lo
  {
  }

  lemma HighBack(x: Byte, y: Byte)
    ensures CODE.high(CODE.first(x), CODE.second(x, y)) == x
  {
  }

  lemma MiddleBack(x: Byte, y: Byte, z: Byte)
    ensures CODE.middle(CODE.second(x, y), CODE.third(y, z)) == y
  {
    Cut16(x % 4, y / 16);
    Cut4(y % 16, z / 64);
  }

  lemma LowBack(y: Byte, z: Byte)
    ensures CODE.low(CODE.third(y, z), CODE.fourth(z)) == z
  {
  }

  lemma ZeroFilled(x: Byte)
    ensures CODE.second(x, 0) % 16 == 0 && CODE.third(x, 0) % 4 == 0
  {
  }

  lemma EndsBack(a: Sextet, b: Sextet)
    ensures CODE.first(CODE.high(a, b)) == a && CODE.fourth(CODE.low(a, b)) == b
  {
  }

  lemma SecondBack(a: Sextet, b: Sextet, d: Sextet)
    ensures CODE.second(CODE.high(a, b), CODE.middle(b, d)) == b
    ensures b % 16 == 0 ==> CODE.second(CODE.high(a, b), 0) == b
  {
    Cut4(a, b / 16);
    Cut16(b % 16, d / 4);
  }

  lemma ThirdBack(a: Sextet, b: Sextet, d: Sextet)
    ensures CODE.third(CODE.middle(a, b), CODE.low(b, d)) == b
    ensures b % 4 == 0 ==> CODE.third(CODE.middle(a, b), 0) == b
  {
    Cut16(a % 16, b / 4);
  }

  lemma CodeLetters()
    ensures Lettered(CODE)
  {
  }

  lemma CodeInverts(c: Coder)
    requires c == CODE
    ensures Inverse(c)
  {
    forall x: Byte, y: Byte ensures c.high(c.first(x), c.second(x, y)) == x { HighBack(x, y); }
    forall x: Byte, y: Byte, z: Byte ensures c.middle(c.second(x, y), c.third(y, z)) == y { MiddleBack(x, y, z); }
    forall y: Byte, z: Byte ensures c.low(c.third(y, z), c.fourth(z)) == z { LowBack(y, z); }
    forall x: Byte ensures c.second(x, 0) % 16 == 0 && c.third(x, 0) % 4 == 0 { ZeroFilled(x); }
    forall a: Sextet, b: Sextet ensures c.first(c.high(a, b)) == a && c.fourth(c.low(a, b)) == b { EndsBack(a, b); }
    forall a: Sextet, b: Sextet, d: Sextet ensures c.second(c.high(a, b), c.middle(b, d)) == b { SecondBack(a, b, d); }
    forall a: Sextet, b: Sextet, d: Sextet ensures c.third(c.middle(a, b), c.low(b, d)) == b { ThirdBack(a, b, d); }
    forall a: Sextet, b: Sextet ensures b % 16 == 0 ==> c.second(c.high(a, b), 0) == b { SecondBack(a, b, 0); }
    forall a: Sextet, b: Sextet ensures b % 4 == 0 ==> c.third(c.middle(a, b), 0) == b { ThirdBack(a, b, 0); }
  }

  // ---------------------------------------------------------------- what is encoded

  /** Three bytes are four sextets; one or two bytes at the end are filled up with zero bits. */
  function Split(c: Coder, b: seq<Byte>): (d: seq<Sextet>)
    ensures |d| == (4 * |b| + 2) / 3
  {
    if b == [] then []
    else if |b| == 1 then [c.first(b[0]), c.second(b[0], 0)]
    else if |b| == 2 then [c.first(b[0]), c.second(b[0], b[1]), c.third(b[1], 0)]
    else FourOf(c, b) + Split(c, b[3..])
  }

  function FourOf(c: Coder, b: seq<Byte>): (d: seq<Sextet>)
    requires |b| >= 3
    ensures |d| == 4
  {
    [c.first(b[0]), c.second(b[0], b[1]), c.third(b[1], b[2]), c.fourth(b[2])]
  }

  function Join(c: Coder, d: seq<Sextet>): seq<Byte> {
    if |d| < 2 then []
    else if |d| == 2 then [c.high(d[0], d[1])]
    else if |d| == 3 then [c.high(d[0], d[1]), c.middle(d[1], d[2])]
    else ThreeOf(c, d) + Join(c, d[4..])
  }

  function ThreeOf(c: Coder, d: seq<Sextet>): (b: seq<Byte>)
    requires |d| >= 4
    ensures |b| == 3
  {
    [c.high(d[0], d[1]), c.middle(d[1], d[2]), c.low(d[2], d[3])]
  }

  /** The sextets end on a byte, but for zero bits. */
  predicate Whole(d: seq<Sextet>) {
    && |d| % 4 != 1
    && (|d| % 4 == 2 ==> d[|d| - 1] % 16 == 0)
    && (|d| % 4 == 3 ==> d[|d| - 1] % 4 == 0)
  }

  function Text(c: Coder, d: seq<Sextet>): string { seq(|d|, i requires 0 <= i < |d| => c.letter(d[i])) }

  function Padding(n: nat): string { if n % 4 == 2 then "==" else if n % 4 == 3 then "=" else "" }

  function EncodeWith(c: Coder, b: seq<Byte>): string { Text(c, Split(c, b)) + Padding(|Split(c, b)|) }

  /** A C string read past its end shows its terminator. */
  function At(s: string, i: nat): char { if i < |s| then s[i] else NUL }

  predicate IsLetter(c: Coder, x: char) { 0 <= c.value(x) < 64 }

  /** The sextets up to the first character outside the alphabet. */
  function Sextets(c: Coder, s: string): (d: seq<Sextet>)
    ensures |d| <= |s|
  {
    if s == "" || !IsLetter(c, s[0]) then [] else [c.value(s[0])] + Sextets(c, s[1..])
  }

  datatype Decoded = Invalid | Bytes(bytes: seq<Byte>)

  /** The padding is there and no further sextet follows it. */
  predicate Padded(c: Coder, s: string, n: nat) {
    && (n % 4 == 2 ==> At(s, n) == '=' && At(s, n + 1) == '=' && !IsLetter(c, At(s, n + 2)))
    && (n % 4 == 3 ==> At(s, n) == '=' && !IsLetter(c, At(s, n + 1)))
  }

  function DecodeWith(c: Coder, s: string): Decoded {
    var d := Sextets(c, s);
    if Whole(d) && Padded(c, s, |d|) then Bytes(Join(c, d)) else Invalid
  }

  function Encode(b: seq<Byte>): string { EncodeWith(CODE, b) }

  function Decode(s: string): Decoded { DecodeWith(CODE, s) }

  // ---------------------------------------------------------------- round trips

  lemma {:induction false} JoinSplit(c: Coder, b: seq<Byte>)
    requires Inverse(c)
    ensures Join(c, Split(c, b)) == b && Whole(Split(c, b))
  {
    if |b| >= 3 {
      JoinSplit(c, b[3..]);
      JoinMore(c, b, Split(c, b[3..]));
    }
  }

  lemma JoinMore(c: Coder, b: seq<Byte>, e: seq<Sextet>)
    requires Inverse(c) && |b| >= 3 && Join(c, e) == b[3..] && Whole(e)
    ensures Join(c, FourOf(c, b) + e) == b && Whole(FourOf(c, b) + e)
  {
    var d := FourOf(c, b) + e;
    WholeMore(FourOf(c, b), e);
    assert d[4..] == e && d[..4] == FourOf(c, b);
    assert ThreeOf(c, d) == b[..3];
    assert b == b[..3] + b[3..];
  }

  lemma WholeMore(d: seq<Sextet>, e: seq<Sextet>)
    requires |d| == 4 && Whole(e)
    ensures Whole(d + e)
  {
    assert |d + e| % 4 == |e| % 4;
    assert e != [] ==> (d + e)[|d + e| - 1] == e[|e| - 1];
  }

  lemma {:induction false} SplitJoin(c: Coder, d: seq<Sextet>)
    requires Inverse(c) && Whole(d)
    ensures Split(c, Join(c, d)) == d
  {
    if |d| >= 4 {
      SplitJoin(c, d[4..]);
      SplitMore(c, d, Join(c, d[4..]));
    }
  }

  lemma SplitMore(c: Coder, d: seq<Sextet>, e: seq<Byte>)
    requires Inverse(c) && |d| >= 4 && Split(c, e) == d[4..]
    ensures Split(c, ThreeOf(c, d) + e) == d
  {
    var b := ThreeOf(c, d) + e;
    assert b[3..] == e && b[..3] == ThreeOf(c, d);
    assert FourOf(c, b) == d[..4];
    assert d == d[..4] + d[4..];
  }

  lemma {:induction false} SextetsOfText(c: Coder, d: seq<Sextet>, rest: string)
    requires Lettered(c) && !IsLetter(c, At(rest, 0))
    ensures Sextets(c, Text(c, d) + rest) == d
  {
    var s := Text(c, d) + rest;
    if d == [] {
      assert s == rest;
    } else {
      assert s[1..] == Text(c, d[1..]) + rest;
      SextetsOfText(c, d[1..], rest);
    }
  }

  lemma {:induction false} TextOfSextets(c: Coder, s: string)
    requires Lettered(c)
    ensures Text(c, Sextets(c, s)) == s[..|Sextets(c, s)|] && !IsLetter(c, At(s, |Sextets(c, s)|))
  {
    if s != "" && IsLetter(c, s[0]) {
      var rest := Sextets(c, s[1..]);
      TextOfSextets(c, s[1..]);
      assert s[1..][..|rest|] == s[1..|rest| + 1];
      assert Text(c, Sextets(c, s)) == [s[0]] + Text(c, rest);
    }
  }

  /** A text decodes to some bytes if and only if it starts with their encoding and no letter comes next. */
  lemma {:induction false} DecodesWith(c: Coder, s: string, b: seq<Byte>)
    requires Inverse(c) && Lettered(c)
    ensures DecodeWith(c, s) == Bytes(b) <==>
              EncodeWith(c, b) <= s && !IsLetter(c, At(s, |EncodeWith(c, b)|))
  {
    if DecodeWith(c, s) == Bytes(b) {
      DecodedStands(c, s, Sextets(c, s), b);
    }
    if EncodeWith(c, b) <= s && !IsLetter(c, At(s, |EncodeWith(c, b)|)) {
      JoinSplit(c, b);
      EncodingRead(c, s, Split(c, b));
    }
  }

  lemma {:induction false} DecodedStands(c: Coder, s: string, d: seq<Sextet>, b: seq<Byte>)
    requires Inverse(c) && Lettered(c) && d == Sextets(c, s) && Whole(d) && Padded(c, s, |d|) && b == Join(c, d)
    ensures EncodeWith(c, b) <= s && !IsLetter(c, At(s, |EncodeWith(c, b)|))
  {
    SplitJoin(c, d);
    TextOfSextets(c, s);
    PaddingStands(c, s, |d|);
  }

  lemma EncodingRead(c: Coder, s: string, d: seq<Sextet>)
    requires Lettered(c) && Whole(d) && Text(c, d) + Padding(|d|) <= s
    requires !IsLetter(c, At(s, |d| + |Padding(|d|)|))
    ensures Sextets(c, s) == d && Padded(c, s, |d|)
  {
    var n := |d|;
    assert s[..n] == Text(c, d);
    assert s[n..n + |Padding(n)|] == Padding(n);
    AfterText(c, s, n);
    assert s == Text(c, d) + s[n..];
    SextetsOfText(c, d, s[n..]);
  }

  lemma PaddingStands(c: Coder, s: string, n: nat)
    requires n <= |s| && Padded(c, s, n) && n % 4 != 1 && !IsLetter(c, At(s, n))
    ensures s[..n] + Padding(n) <= s && !IsLetter(c, At(s, n + |Padding(n)|))
  {
  }

  lemma AfterText(c: Coder, s: string, n: nat)
    requires Lettered(c) && n + |Padding(n)| <= |s| && s[n..n + |Padding(n)|] == Padding(n) && n % 4 != 1
    requires !IsLetter(c, At(s, n + |Padding(n)|))
    ensures Padded(c, s, n) && !IsLetter(c, At(s[n..], 0))
  {
    var pad := s[n..n + |Padding(n)|];
    assert |pad| > 0 ==> pad[0] == s[n];
    assert |pad| > 1 ==> pad[1] == s[n + 1];
  }

  /** A text decodes to some bytes if and only if it starts with their encoding and no character of the
      alphabet comes next: the decoder accepts one encoding of them and ignores what follows it. */
  lemma DecodesIff(s: string, b: seq<Byte>)
    ensures Decode(s) == Bytes(b) <==> Encode(b) <= s && !IsLetter(CODE, At(s, |Encode(b)|))
  {
    CodeInverts(CODE);
    CodeLetters();
    DecodesWith(CODE, s, b);
  }

  /** Decoding inverts encoding. */
  lemma DecodeEncode(b: seq<Byte>)
    ensures Decode(Encode(b)) == Bytes(b)
  {
    DecodesIff(Encode(b), b);
    CodeLetters();
  }

  lemma EncodedLength(b: seq<Byte>)
    ensures |Encode(b)| == (|b| + 2) / 3 * 4
  {
    PaddedLength(|b|);
  }

  lemma PaddedLength(n: nat)
    ensures (4 * n + 2) / 3 + |Padding((4 * n + 2) / 3)| == (n + 2) / 3 * 4
  {
    assert n == n / 3 * 3 + n % 3;
  }

  /** A character that is neither in the alphabet nor the padding does not occur. */
  lemma EncodedPlain(b: seq<Byte>, x: char)
    requires Value(x) == -1 && x != '='
    ensures forall i :: 0 <= i < |Encode(b)| ==> Encode(b)[i] != x
  {
    CodeLetters();
    LettersPlain(CODE, Split(CODE, b), x);
  }

  lemma LettersPlain(c: Coder, d: seq<Sextet>, x: char)
    requires Lettered(c) && c.value(x) == -1 && x != '='
    ensures forall i :: 0 <= i < |Text(c, d) + Padding(|d|)| ==> (Text(c, d) + Padding(|d|))[i] != x
  {
  }

  // ---------------------------------------------------------------- the loops

  /** The mode after the next input. */
  function Turned(mode: nat, modes: nat): nat { if mode + 1 == modes then 0 else mode + 1 }

  /** What the encoder still prints, in the given mode with `last` the byte before. */
  function Printed(c: Coder, mode: nat, last: Byte, b: seq<Byte>): string
    requires mode < 3
    decreases |b|
  {
    if b == [] then
      if mode == 0 then "" else if mode == 1 then [c.letter(c.second(last, 0))] + "==" else [c.letter(c.third(last, 0))] + "="
    else PrintedOne(c, mode, last, b[0]) + Printed(c, Turned(mode, 3), b[0], b[1..])
  }

  function PrintedOne(c: Coder, mode: nat, last: Byte, x: Byte): string
    requires mode < 3
  {
    if mode == 0 then [c.letter(c.first(x))]
    else if mode == 1 then [c.letter(c.second(last, x))]
    else [c.letter(c.third(last, x)), c.letter(c.fourth(x))]
  }

  lemma PrintedThree(c: Coder, last: Byte, b: seq<Byte>)
    requires |b| >= 3
    ensures Printed(c, 0, last, b) == Text(c, FourOf(c, b)) + Printed(c, 0, b[2], b[3..])
  {
    var b1, b2 := b[1..], b[2..];
    assert b1[1..] == b2 && b2[1..] == b[3..];
    assert Printed(c, 1, b[0], b1) == PrintedOne(c, 1, b[0], b[1]) + Printed(c, 2, b[1], b2);
    assert Printed(c, 2, b[1], b2) == PrintedOne(c, 2, b[1], b[2]) + Printed(c, 0, b[2], b[3..]);
  }

  lemma PrintedFew(c: Coder, last: Byte, b: seq<Byte>)
    requires |b| < 3
    ensures Printed(c, 0, last, b) == EncodeWith(c, b)
  {
    if |b| == 1 {
      assert b[1..] == [];
    } else if |b| == 2 {
      assert b[1..][1..] == [];
      assert Printed(c, 1, b[0], b[1..]) == PrintedOne(c, 1, b[0], b[1]) + Printed(c, 2, b[1], []);
    }
  }

  lemma {:induction false} PrintedAll(c: Coder, last: Byte, b: seq<Byte>)
    ensures Printed(c, 0, last, b) == EncodeWith(c, b)
    decreases |b|
  {
    if |b| < 3 {
      PrintedFew(c, last, b);
    } else {
      PrintedThree(c, last, b);
      PrintedAll(c, b[2], b[3..]);
      TextMore(c, FourOf(c, b), Split(c, b[3..]));
    }
  }

  lemma TextMore(c: Coder, d: seq<Sextet>, e: seq<Sextet>)
    requires |d| == 4
    ensures Text(c, d + e) + Padding(|d + e|) == Text(c, d) + (Text(c, e) + Padding(|e|))
  {
    assert Text(c, d + e) == Text(c, d) + Text(c, e);
  }

  /** The bits of the last byte that are still to be printed. */
  predicate Leftover(mode: nat, last: Byte, left: int) {
    && (mode == 1 ==> left == last % 4 * 16)
    && (mode == 2 ==> left == last % 16 * 4)
  }

  /** One turn of the encoder's switch. */
  method PrintOne(mode: nat, left: int, enc: Byte, ghost last: Byte) returns (out: string, mode': nat, left': int)
    requires mode < 3 && Leftover(mode, last, left)
    ensures out == PrintedOne(CODE, mode, last, enc) && mode' == Turned(mode, 3) && Leftover(mode', enc, left')
  {
    if mode == 0 {
      out, mode', left' := [Char(enc / 4)], 1, enc % 4 * 16;
    } else if mode == 1 {
      out, mode', left' := [Char(left + enc / 16)], 2, enc % 16 * 4;
    } else {
      out, mode', left' := [Char(left + enc / 64), Char(enc % 64)], 0, left;
    }
  }

  method PrintLast(mode: nat, left: int, ghost last: Byte) returns (out: string)
    requires mode < 3 && Leftover(mode, last, left)
    ensures out == Printed(CODE, mode, last, [])
  {
    out := "";
    if mode != 0 {
      out := [Char(left)] + "=";
      if mode == 1 {
        out := out + "=";
      }
    }
  }

  method EncodeBase64(b: seq<Byte>) returns (r: string)
    ensures r == Encode(b)
  {
    r := PrintAll(b, CODE);
  }

  lemma PrintedStep(c: Coder, r: string, mode: nat, last: Byte, b: seq<Byte>, i: nat)
    requires mode < 3 && i < |b|
    ensures r + Printed(c, mode, last, b[i..])
         == r + PrintedOne(c, mode, last, b[i]) + Printed(c, Turned(mode, 3), b[i], b[i + 1..])
  {
    assert b[i..][0] == b[i] && b[i..][1..] == b[i + 1..];
  }

  method PrintAll(b: seq<Byte>, ghost c: Coder) returns (r: string)
    requires c == CODE
    ensures r == EncodeWith(c, b)
  {
    r := "";
    var mode, left := 0, 0;
    ghost var last: Byte := 0;
    var i := 0;
    assert b[0..] == b;
    PrintedAll(c, 0, b);
    while i < |b|
      invariant 0 <= i <= |b| && 0 <= mode < 3 && Leftover(mode, last, left)
      invariant r + Printed(c, mode, last, b[i..]) == EncodeWith(c, b)
    {
      var out;
      PrintedStep(c, r, mode, last, b, i);
      out, mode, left := PrintOne(mode, left, b[i], last);
      r := r + out;
      last := b[i];
      i := i + 1;
    }
    assert b[i..] == [];
    var end := PrintLast(mode, left, last);
    r := r + end;
  }

  /** What the decoder still delivers, in the given mode with `last` the sextet before. */
  function Delivered(c: Coder, mode: nat, last: Sextet, d: seq<Sextet>): seq<Byte>
    requires mode < 4
    decreases |d|
  {
    if d == [] then [] else DeliveredOne(c, mode, last, d[0]) + Delivered(c, Turned(mode, 4), d[0], d[1..])
  }

  function DeliveredOne(c: Coder, mode: nat, last: Sextet, x: Sextet): seq<Byte>
    requires mode < 4
  {
    if mode == 0 then [] else if mode == 1 then [c.high(last, x)] else if mode == 2 then [c.middle(last, x)]
    else [c.low(last, x)]
  }

  lemma DeliveredFour(c: Coder, last: Sextet, d: seq<Sextet>)
    requires |d| >= 4
    ensures Delivered(c, 0, last, d) == ThreeOf(c, d) + Delivered(c, 0, d[3], d[4..])
  {
    var d1, d2, d3 := d[1..], d[2..], d[3..];
    assert d1[1..] == d2 && d2[1..] == d3 && d3[1..] == d[4..];
    assert Delivered(c, 1, d[0], d1) == [c.high(d[0], d[1])] + Delivered(c, 2, d[1], d2);
    assert Delivered(c, 2, d[1], d2) == [c.middle(d[1], d[2])] + Delivered(c, 3, d[2], d3);
    assert Delivered(c, 3, d[2], d3) == [c.low(d[2], d[3])] + Delivered(c, 0, d[3], d[4..]);
  }

  lemma DeliveredFew(c: Coder, last: Sextet, d: seq<Sextet>)
    requires |d| < 4
    ensures Delivered(c, 0, last, d) == Join(c, d)
  {
    if |d| == 1 {
      assert d[1..] == [];
    } else if |d| == 2 {
      assert d[1..][1..] == [];
      assert Delivered(c, 1, d[0], d[1..]) == [c.high(d[0], d[1])] + Delivered(c, 2, d[1], []);
    } else if |d| == 3 {
      var d1, d2 := d[1..], d[2..];
      assert d1[1..] == d2 && d2[1..] == [];
      assert Delivered(c, 1, d[0], d1) == [c.high(d[0], d[1])] + Delivered(c, 2, d[1], d2);
      assert Delivered(c, 2, d[1], d2) == [c.middle(d[1], d[2])] + Delivered(c, 3, d[2], []);
    }
  }

  lemma {:induction false} DeliveredAll(c: Coder, last: Sextet, d: seq<Sextet>)
    ensures Delivered(c, 0, last, d) == Join(c, d)
    decreases |d|
  {
    if |d| < 4 {
      DeliveredFew(c, last, d);
    } else {
      DeliveredFour(c, last, d);
      DeliveredAll(c, d[3], d[4..]);
    }
  }

  /** The bits of the last sextet that are not yet delivered. */
  predicate Buffered(mode: nat, last: Sextet, left: int) {
    && (mode == 1 ==> left == last)
    && (mode == 2 ==> left == last % 16)
    && (mode == 3 ==> left == last % 4)
  }

  /** One turn of the decoder's switch. */
  method DeliverOne(mode: nat, left: int, dec: Sextet, ghost last: Sextet)
    returns (out: seq<Byte>, mode': nat, left': int)
    requires mode < 4 && Buffered(mode, last, left)
    ensures out == DeliveredOne(CODE, mode, last, dec) && mode' == Turned(mode, 4) && Buffered(mode', dec, left')
  {
    if mode == 0 {
      out, mode', left' := [], 1, dec;
    } else if mode == 1 {
      var x: int := left * 4 + dec / 16;
      out, mode', left' := [x], 2, dec % 16;
    } else if mode == 2 {
      var x: int := left * 16 + dec / 4;
      out, mode', left' := [x], 3, dec % 4;
    } else {
      var x: int := left * 64 + dec;
      out, mode', left' := [x], 0, left;
    }
  }

  method DecodeBase64(s: string) returns (bytes: seq<Byte>, invalid: bool)
    ensures bytes == Join(CODE, Sextets(CODE, s)) && Decode(s) == if invalid then Invalid else Bytes(bytes)
  {
    ghost var last;
    var p, mode, left;
    bytes, p, mode, left, last := Deliver(s, CODE);
    WholeIf(Sextets(CODE, s), mode, last, left);
    CodeLetters();
    invalid := false;
    if mode == 1 {
      invalid := true;
    } else if mode == 2 {
      if left != 0 || At(s, p) != '=' || At(s, p + 1) != '=' || Value(At(s, p + 2)) != -1 {
        invalid := true;
      }
    } else if mode == 3 {
      if left != 0 || At(s, p) != '=' || Value(At(s, p + 1)) != -1 {
        invalid := true;
      }
    }
  }

  lemma WholeIf(d: seq<Sextet>, mode: nat, last: Sextet, left: int)
    requires mode == |d| % 4 && Buffered(mode, last, left) && (d != [] ==> last == d[|d| - 1])
    ensures Whole(d) <==> mode != 1 && (mode == 2 || mode == 3 ==> left == 0)
  {
  }

  lemma DeliveredStep(c: Coder, bytes: seq<Byte>, mode: nat, last: Sextet, d: seq<Sextet>, p: nat)
    requires mode < 4 && p < |d|
    ensures bytes + Delivered(c, mode, last, d[p..])
         == bytes + DeliveredOne(c, mode, last, d[p]) + Delivered(c, Turned(mode, 4), d[p], d[p + 1..])
  {
    assert d[p..][0] == d[p] && d[p..][1..] == d[p + 1..];
  }

  lemma TurnedCounts(p: nat)
    ensures Turned(p % 4, 4) == (p + 1) % 4
  {
  }

  /** The loop of the decoder: it stops at the first character that is no sextet. */
  method Deliver(s: string, ghost c: Coder)
    returns (bytes: seq<Byte>, p: nat, mode: nat, left: int, ghost last: Sextet)
    requires c == CODE
    ensures bytes == Join(c, Sextets(c, s)) && p == |Sextets(c, s)| && mode == p % 4 && Buffered(mode, last, left)
    ensures p > 0 ==> last == Sextets(c, s)[p - 1]
  {
    ghost var d := Sextets(c, s);
    DeliveredAll(c, 0, d);
    bytes, p, mode, left, last := [], 0, 0, 0, 0;
    assert d[0..] == d;
    var dec := ReadAt(s, 0, c);
    while dec != -1
      invariant p <= |d| && mode == p % 4 && Buffered(mode, last, left) && (p > 0 ==> last == d[p - 1])
      invariant dec == if p < |d| then d[p] else -1
      invariant bytes + Delivered(c, mode, last, d[p..]) == Join(c, d)
      decreases |d| - p
    {
      var out;
      DeliveredStep(c, bytes, mode, last, d, p);
      out, mode, left := DeliverOne(mode, left, dec, last);
      bytes := bytes + out;
      last := dec;
      TurnedCounts(p);
      p := p + 1;
      dec := ReadAt(s, p, c);
    }
    assert d[p..] == [];
  }

  method ReadAt(s: string, p: nat, ghost c: Coder) returns (dec: int)
    requires c == CODE && p <= |Sextets(c, s)|
    ensures dec == if p < |Sextets(c, s)| then Sextets(c, s)[p] else -1
  {
    CodeLetters();
    SextetAt(c, s, p);
    dec := Value(At(s, p));
  }

  lemma {:induction false} SextetAt(c: Coder, s: string, p: nat)
    requires Lettered(c) && p <= |Sextets(c, s)|
    ensures p < |Sextets(c, s)| ==> c.value(At(s, p)) == Sextets(c, s)[p]
    ensures p == |Sextets(c, s)| ==> c.value(At(s, p)) == -1
  {
    if p > 0 {
      SextetAt(c, s[1..], p - 1);
      assert At(s, p) == At(s[1..], p - 1);
    }
  }
}
