/**
The lax DER reader for signatures, against a grammar of what it takes, and the splice of a private key
into its DER template.
*/
module Der {
  import opened Positional

  type Bytes = seq<int>

  // ---------------------------------------------------------------- what the reader computes

  datatype Cut<T> = Failed | Cut(value: T, rest: Bytes)

  /** `Zero` is what the caller gets when a number does not fit: a signature that never verifies. */
  datatype Parsed = Reject | Signature(r: int, s: int)

  function Strip(bs: Bytes): (r: Bytes)
    ensures r == bs[Leading(bs)..] && (r != [] ==> r[0] != 0)
  {
    bs[Leading(bs)..]
  }

  function SkipLength(t: Bytes): Cut<()> {
    if t == [] then Failed
    else if t[0] < 0x80 then Cut((), t[1..])
    else if t[0] - 0x80 > |t| - 1 then Failed
    else Cut((), t[1 + (t[0] - 0x80)..])
  }

  function ReadLength(t: Bytes): Cut<int> {
    if t == [] then Failed
    else if t[0] < 0x80 then Cut(t[0], t[1..])
    else
      var m := t[0] - 0x80;
      if m > |t| - 1 then Failed else
      var core := Strip(t[1..1 + m]);
      if |core| >= 8 then Failed else Cut(Value(core, 256), t[1 + m..])
  }

  function ReadInteger(t: Bytes): Cut<Bytes> {
    if t == [] || t[0] != 0x02 then Failed else
    match ReadLength(t[1..])
    case Failed => Failed
    case Cut(n, rest) => if n < 0 || n > |rest| then Failed else Cut(rest[..n], rest[n..])
  }

  /** Two numbers of at most 32 bytes each, both below the order of the curve. */
  function Compact(r: Bytes, s: Bytes, order: int): Parsed {
    var a, b := Strip(r), Strip(s);
    if |a| > 32 || |b| > 32 || Value(a, 256) >= order || Value(b, 256) >= order then Signature(0, 0)
    else Signature(Value(a, 256), Value(b, 256))
  }

  function Parse(input: Bytes, order: int): Parsed {
    if input == [] || input[0] != 0x30 then Reject else
    match SkipLength(input[1..])
    case Failed => Reject
    case Cut(_, t) =>
      match ReadPair(ReadInteger, t)
      case Failed => Reject
      case Cut(p, _) => Compact(p.0, p.1, order)
  }

  function ReadPair(read: Bytes -> Cut<Bytes>, t: Bytes): Cut<(Bytes, Bytes)> {
    match read(t)
    case Failed => Failed
    case Cut(r, u) =>
      match read(u)
      case Failed => Failed
      case Cut(s, rest) => Cut((r, s), rest)
  }

  // ---------------------------------------------------------------- the grammar

  /** A length, short or long; the long form may carry any number of leading zeros. */
  predicate LengthForm(l: Bytes, n: int) {
    && l != []
    && if l[0] < 0x80 then |l| == 1 && n == l[0]
       else |l| == 1 + (l[0] - 0x80) && |Strip(l[1..])| < 8 && n == Value(l[1..], 256)
  }

  /** The outer length: its value does not matter. */
  predicate OuterForm(l: Bytes) {
    l != [] && |l| == if l[0] < 0x80 then 1 else 1 + (l[0] - 0x80)
  }

  predicate IntegerForm(i: Bytes, l: Bytes, content: Bytes) {
    i == [0x02] + l + content && LengthForm(l, |content|)
  }

  lemma StripValue(bs: Bytes)
    ensures Value(Strip(bs), 256) == Value(bs, 256)
  {
    assert bs == Zeros(Leading(bs)) + Strip(bs);
    ZerosAddNothing(Leading(bs), Strip(bs), 256);
  }

  lemma LengthReads(l: Bytes, n: int, rest: Bytes)
    requires LengthForm(l, n)
    ensures ReadLength(l + rest) == Cut(n, rest)
  {
    var t := l + rest;
    assert t[0] == l[0];
    if l[0] < 0x80 {
      assert t[1..] == rest;
    } else {
      assert t[1..|l|] == l[1..] && t[|l|..] == rest;
      StripValue(l[1..]);
    }
  }

  lemma LengthRead(t: Bytes) returns (l: Bytes)
    requires ReadLength(t).Cut?
    ensures t == l + ReadLength(t).rest && LengthForm(l, ReadLength(t).value)
  {
    var k := if t[0] < 0x80 then 1 else 1 + (t[0] - 0x80);
    l := t[..k];
    if t[0] >= 0x80 {
      assert l[1..] == t[1..k];
      StripValue(l[1..]);
    }
  }

  lemma IntegerReads(i: Bytes, l: Bytes, content: Bytes, rest: Bytes)
    requires IntegerForm(i, l, content)
    ensures ReadInteger(i + rest) == Cut(content, rest)
  {
    var t := i + rest;
    assert t[1..] == l + (content + rest);
    LengthReads(l, |content|, content + rest);
    assert (content + rest)[..|content|] == content && (content + rest)[|content|..] == rest;
  }

  lemma IntegerRead(t: Bytes) returns (i: Bytes, l: Bytes)
    requires ReadInteger(t).Cut?
    ensures t == i + ReadInteger(t).rest && IntegerForm(i, l, ReadInteger(t).value)
  {
    l := LengthRead(t[1..]);
    var content, rest := ReadInteger(t).value, ReadInteger(t).rest;
    i := [0x02] + l + content;
    Joined(t, l, content, rest, ReadLength(t[1..]).rest);
  }

  lemma Joined(t: Bytes, l: Bytes, content: Bytes, rest: Bytes, both: Bytes)
    requires t != [] && t[0] == 0x02 && t[1..] == l + both && |content| <= |both|
    requires content == both[..|content|] && rest == both[|content|..]
    ensures t == [0x02] + l + content + rest
  {
    assert both == content + rest;
    assert t == [0x02] + t[1..];
    assert [0x02] + (l + (content + rest)) == [0x02] + l + content + rest;
  }

  lemma OuterSkips(l: Bytes, rest: Bytes)
    requires OuterForm(l)
    ensures SkipLength(l + rest) == Cut((), rest)
  {
    assert (l + rest)[|l|..] == rest;
  }

  lemma OuterSkipped(t: Bytes) returns (l: Bytes)
    requires SkipLength(t).Cut?
    ensures t == l + SkipLength(t).rest && OuterForm(l)
  {
    l := t[..if t[0] < 0x80 then 1 else 1 + (t[0] - 0x80)];
  }

  datatype Parts = Parts(outer: Bytes, i: Bytes, il: Bytes, r: Bytes, j: Bytes, jl: Bytes, s: Bytes, rest: Bytes)

  /** A sequence tag, a length nobody checks, two integers, and anything after them. */
  predicate Encodes(input: Bytes, p: Parts) {
    && OuterForm(p.outer) && IntegerForm(p.i, p.il, p.r) && IntegerForm(p.j, p.jl, p.s)
    && input == [0x30] + (p.outer + (p.i + (p.j + p.rest)))
  }

  lemma PairReads(read: Bytes -> Cut<Bytes>, t: Bytes, u: Bytes, r: Bytes, s: Bytes, rest: Bytes)
    requires read(t) == Cut(r, u) && read(u) == Cut(s, rest)
    ensures ReadPair(read, t) == Cut((r, s), rest)
  {
  }

  lemma {:induction false} EncodingParses(input: Bytes, p: Parts, order: int)
    requires Encodes(input, p)
    ensures Parse(input, order) == Compact(p.r, p.s, order)
  {
    assert input[1..] == p.outer + (p.i + (p.j + p.rest));
    OuterSkips(p.outer, p.i + (p.j + p.rest));
    IntegerReads(p.i, p.il, p.r, p.j + p.rest);
    IntegerReads(p.j, p.jl, p.s, p.rest);
    PairReads(ReadInteger, p.i + (p.j + p.rest), p.j + p.rest, p.r, p.s, p.rest);
  }

  lemma PairRead(t: Bytes) returns (i: Bytes, il: Bytes, j: Bytes, jl: Bytes)
    requires ReadPair(ReadInteger, t).Cut?
    ensures
      var c := ReadPair(ReadInteger, t);
      IntegerForm(i, il, c.value.0) && IntegerForm(j, jl, c.value.1) && t == i + (j + c.rest)
  {
    var u := ReadInteger(t).rest;
    i, il := IntegerRead(t);
    j, jl := IntegerRead(u);
  }

  lemma AcceptedShape(input: Bytes, order: int)
    requires Parse(input, order).Signature?
    ensures input != [] && input[0] == 0x30 && SkipLength(input[1..]).Cut?
    ensures ReadPair(ReadInteger, SkipLength(input[1..]).rest).Cut?
  {
  }

  lemma Sections(input: Bytes, outer: Bytes, t: Bytes, i: Bytes, j: Bytes, rest: Bytes)
    requires input != [] && input[0] == 0x30 && input[1..] == outer + t && t == i + (j + rest)
    ensures input == [0x30] + (outer + (i + (j + rest)))
  {
  }

  lemma {:induction false} Accepted(input: Bytes) returns (p: Parts)
    requires input != [] && input[0] == 0x30 && SkipLength(input[1..]).Cut?
    requires ReadPair(ReadInteger, SkipLength(input[1..]).rest).Cut?
    ensures Encodes(input, p)
  {
    var t := SkipLength(input[1..]).rest;
    var outer := OuterSkipped(input[1..]);
    var i, il, j, jl := PairRead(t);
    var c := ReadPair(ReadInteger, t);
    p := Parts(outer, i, il, c.value.0, j, jl, c.value.1, c.rest);
    Sections(input, outer, t, i, j, c.rest);
  }

  /** The reader accepts exactly the inputs of the grammar. */
  lemma AcceptsExactly(input: Bytes, order: int)
    ensures Parse(input, order).Signature? <==> exists p :: Encodes(input, p)
  {
    if Parse(input, order).Signature? {
      AcceptedShape(input, order);
      var p := Accepted(input);
    }
    if exists p :: Encodes(input, p) {
      var p :| Encodes(input, p);
      EncodingParses(input, p, order);
    }
  }

  /** A stripped number has at most `n` bytes if and only if it is below 256^n. */
  lemma FitsIff(bs: Bytes, n: nat)
    requires InBase(bs, 256)
    ensures |Strip(bs)| <= n <==> Value(bs, 256) < Pow(256, n)
  {
    var a := Strip(bs);
    StripValue(bs);
    ValueBelow(a, 256);
    PowGrows(256, |a|, n);
    if |a| > n {
      ValueAtLeast(a, 256);
      PowGrows(256, n, |a| - 1);
    }
  }

  /** Whatever the padding, the answer is the two numbers themselves if and only if both are below the
      order; otherwise it is the signature that never verifies. */
  lemma CompactIsValues(r: Bytes, s: Bytes, order: int)
    requires InBase(r, 256) && InBase(s, 256) && order <= Pow(256, 32)
    ensures Compact(r, s, order)
         == if Value(r, 256) < order && Value(s, 256) < order then Signature(Value(r, 256), Value(s, 256))
            else Signature(0, 0)
  {
    FitsIff(r, 32);
    FitsIff(s, 32);
    StripValue(r);
    StripValue(s);
  }

  // ---------------------------------------------------------------- strict DER

  /** The shortest signed form of a number that is not negative. */
  function IntegerContent(n: nat): Bytes {
    var d := Digits(n, 256);
    if d == [] || d[0] >= 0x80 then [0] + d else d
  }

  function EncodeInteger(n: nat): Bytes { [0x02] + [|IntegerContent(n)|] + IntegerContent(n) }

  function EncodeDer(r: nat, s: nat): Bytes {
    var body := EncodeInteger(r) + EncodeInteger(s);
    [0x30] + ([|body|] + body)
  }

  lemma ContentFacts(n: nat, order: int)
    requires n < order <= Pow(256, 32)
    ensures InBase(IntegerContent(n), 256) && Value(IntegerContent(n), 256) == n && |IntegerContent(n)| <= 33
  {
    var d := Digits(n, 256);
    ValueOfDigits(n, 256);
    DigitsHead(n, 256);
    assert [0] + d == Zeros(1) + d;
    ZerosAddNothing(1, d, 256);
    FitsIff(d, 32);
    assert Leading(d) == 0;
  }

  /** Every signature written in strict DER reads back as itself, whatever follows it. */
  lemma DerRoundTrip(r: nat, s: nat, rest: Bytes, order: int)
    requires r < order && s < order && order <= Pow(256, 32)
    ensures Parse(EncodeDer(r, s) + rest, order) == Signature(r, s)
  {
    ContentFacts(r, order);
    ContentFacts(s, order);
    var i, j := EncodeInteger(r), EncodeInteger(s);
    var a, b := IntegerContent(r), IntegerContent(s);
    var p := Parts([|i + j|], i, [|a|], a, j, [|b|], b, rest);
    assert |i + j| < 0x80;
    assert EncodeDer(r, s) + rest == [0x30] + (p.outer + (i + (j + rest)));
    EncodingParses(EncodeDer(r, s) + rest, p, order);
    CompactIsValues(a, b, order);
  }

  // ---------------------------------------------------------------- the reader, step by step

  /** A length field at `pos`. The accumulator stays below 2^56, far from overflow. */
  method LengthAt(input: Bytes, pos0: nat) returns (ok: bool, n: int, pos: nat)
    requires pos0 <= |input| && InBase(input, 256)
    ensures
      var c := ReadLength(input[pos0..]);
      && (ok <==> c.Cut?)
      && (ok ==> pos0 < pos <= |input| && n == c.value && input[pos..] == c.rest && 0 <= n < Pow(256, 7))
  {
    pos, n, ok := pos0, 0, false;
    ghost var t := input[pos0..];
    if pos == |input| {
      return;
    }
    var lenbyte := input[pos];
    pos := pos + 1;
    if lenbyte < 0x80 {
      ShortFits(lenbyte);
      return true, lenbyte, pos;
    }
    lenbyte := lenbyte - 0x80;
    if lenbyte > |input| - pos {
      return;
    }
    ghost var body := input[pos..pos + lenbyte];
    assert t[1..1 + lenbyte] == body && t[1 + lenbyte..] == input[pos + lenbyte..];
    ok, n, pos := LongAt(input, pos, lenbyte);
  }

  lemma ShortFits(n: int)
    requires n < 0x80
    ensures n < Pow(256, 7)
  {
    PowGrows(256, 1, 7);
    assert Pow(256, 1) == 256;
  }

  method SkipZeros(input: Bytes, from: nat, end: nat) returns (pos: nat)
    requires from <= end <= |input|
    ensures from <= pos <= end && input[pos..end] == Strip(input[from..end])
  {
    pos := from;
    while pos < end && input[pos] == 0
      invariant from <= pos <= end && Leading(input[from..end]) == pos - from + Leading(input[pos..end])
    {
      assert input[pos..end][1..] == input[pos + 1..end];
      pos := pos + 1;
    }
    assert Leading(input[pos..end]) == 0;
  }

  method ValueAt(input: Bytes, from: nat, end: nat) returns (n: int)
    requires from <= end <= |input|
    ensures n == Value(input[from..end], 256)
  {
    var pos := from;
    n := 0;
    while pos < end
      invariant from <= pos <= end && n == Value(input[from..pos], 256)
    {
      assert input[from..pos + 1] == input[from..pos] + [input[pos]];
      ValueAppend(input[from..pos], input[pos], 256);
      n := n * 256 + input[pos];
      pos := pos + 1;
    }
  }

  method LongAt(input: Bytes, from: nat, lenbyte: nat) returns (ok: bool, n: int, pos: nat)
    requires from + lenbyte <= |input| && InBase(input, 256)
    ensures
      var core := Strip(input[from..from + lenbyte]);
      && (ok <==> |core| < 8)
      && (ok ==> pos == from + lenbyte && n == Value(core, 256) && 0 <= n < Pow(256, 7))
  {
    var start := SkipZeros(input, from, from + lenbyte);
    pos := from + lenbyte;
    if pos - start >= 8 {
      return false, 0, pos;
    }
    n := ValueAt(input, start, pos);
    ok := true;
    BelowSeven(input[start..pos]);
  }

  lemma BelowSeven(core: Bytes)
    requires InBase(core, 256) && |core| < 8
    ensures 0 <= Value(core, 256) < Pow(256, 7)
  {
    ValueNonNegative(core, 256);
    ValueBelow(core, 256);
    PowGrows(256, |core|, 7);
  }

  ghost predicate Reads(read: Bytes -> Cut<Bytes>) {
    forall t: Bytes {:trigger ReadInteger(t)} :: read(t) == ReadInteger(t)
  }

  method IntegerAtAs(ghost read: Bytes -> Cut<Bytes>, input: Bytes, pos0: nat) returns (ok: bool, at: nat, len: nat)
    requires pos0 <= |input| && InBase(input, 256) && Reads(read)
    ensures
      var c := read(input[pos0..]);
      && (ok <==> c.Cut?)
      && (ok ==> pos0 < at && at + len <= |input| && c.value == input[at..at + len] && c.rest == input[at + len..])
  {
    ok, at, len := IntegerAt(input, pos0);
  }

  /** An integer at `pos`: where its content starts and how long it is. */
  method IntegerAt(input: Bytes, pos0: nat) returns (ok: bool, at: nat, len: nat)
    requires pos0 <= |input| && InBase(input, 256)
    ensures
      var c := ReadInteger(input[pos0..]);
      && (ok <==> c.Cut?)
      && (ok ==> pos0 < at && at + len <= |input| && c.value == input[at..at + len] && c.rest == input[at + len..])
  {
    at, len := pos0, 0;
    if pos0 == |input| || input[pos0] != 0x02 {
      return false, at, len;
    }
    assert input[pos0..][1..] == input[pos0 + 1..];
    var n;
    ok, n, at := LengthAt(input, pos0 + 1);
    if !ok {
      return;
    }
    if n > |input| - at {
      return false, at, 0;
    }
    len := n;
    assert input[at..][..len] == input[at..at + len] && input[at..][len..] == input[at + len..];
  }

  /** The sequence tag and its length. */
  method HeaderAt(input: Bytes) returns (ok: bool, pos: nat)
    ensures pos <= |input|
    ensures ok <==> input != [] && input[0] == 0x30 && SkipLength(input[1..]).Cut?
    ensures ok ==> SkipLength(input[1..]).rest == input[pos..]
  {
    pos := 0;
    if |input| == 0 || input[0] != 0x30 {
      return false, pos;
    }
    if |input| == 1 {
      return false, pos;
    }
    pos := 2;
    if input[1] >= 0x80 {
      var lenbyte := input[1] - 0x80;
      if lenbyte > |input| - pos {
        return false, pos;
      }
      pos := pos + lenbyte;
    }
    assert input[1..][1..] == input[2..];
    assert input[1..][pos - 1..] == input[pos..];
    ok := true;
  }

  method ParseDerLax(input: Bytes, order: int) returns (p: Parsed)
    requires InBase(input, 256)
    ensures p == Parse(input, order)
  {
    var header, pos := HeaderAt(input);
    if !header {
      return Reject;
    }
    var ok, r, s := PairAt(ReadInteger, input, pos);
    if !ok {
      return Reject;
    }
    p := Fit(r, s, order);
  }

  method PairAt(ghost read: Bytes -> Cut<Bytes>, input: Bytes, pos: nat) returns (ok: bool, r: Bytes, s: Bytes)
    requires pos <= |input| && InBase(input, 256) && Reads(read)
    ensures ok <==> ReadPair(read, input[pos..]).Cut?
    ensures ok ==> ReadPair(read, input[pos..]).value == (r, s) && InBase(r, 256) && InBase(s, 256)
  {
    r, s := [], [];
    var rpos, rlen, spos, slen;
    ok, rpos, rlen := IntegerAtAs(read, input, pos);
    if !ok {
      return;
    }
    ok, spos, slen := IntegerAtAs(read, input, rpos + rlen);
    if !ok {
      return;
    }
    r, s := input[rpos..rpos + rlen], input[spos..spos + slen];
  }

  /** Both numbers into 32 bytes each, unless one is too long. */
  method Fit(r: Bytes, s: Bytes, order: int) returns (p: Parsed)
    requires InBase(r, 256) && InBase(s, 256)
    ensures p == Compact(r, s, order)
  {
    var a, fitsA := RightAligned(r);
    var b, fitsB := RightAligned(s);
    if !fitsA || !fitsB || Value(a, 256) >= order || Value(b, 256) >= order {
      return Signature(0, 0);
    }
    return Signature(Value(a, 256), Value(b, 256));
  }

  method RightAligned(bs: Bytes) returns (out: Bytes, fits: bool)
    requires InBase(bs, 256)
    ensures fits <==> |Strip(bs)| <= 32
    ensures |out| == 32 && (fits ==> Value(out, 256) == Value(Strip(bs), 256))
  {
    var at := 0;
    while at < |bs| && bs[at] == 0
      invariant 0 <= at <= |bs| && Leading(bs) == at + Leading(bs[at..])
    {
      assert bs[at..][1..] == bs[at + 1..];
      at := at + 1;
    }
    assert Leading(bs[at..]) == 0;
    var len := |bs| - at;
    if len > 32 {
      return Zeros(32), false;
    }
    out := Zeros(32 - len) + bs[at..];
    fits := true;
    ZerosAddNothing(32 - len, bs[at..], 256);
  }

  // ---------------------------------------------------------------- private keys

  /** What stands before the key in the two templates. */
  function Before(compressed: bool): Bytes {
    if compressed then [0x30, 0x81, 0xD3, 0x02, 0x01, 0x01, 0x04, 0x20]
    else [0x30, 0x82, 0x01, 0x13, 0x02, 0x01, 0x01, 0x04, 0x20]
  }

  function Export(key: Bytes, compressed: bool, tail: Bytes): Bytes
    requires |key| == 32
  {
    Before(compressed) + key + tail
  }

  datatype Key = NoKey | Key(bytes: Bytes)

  /** Reads a key; `valid` is the check against the order of the curve. */
  method Import(der: Bytes, valid: Bytes -> bool) returns (k: Key)
    requires InBase(der, 256)
    ensures k == Imported(der, valid)
  {
    var pos, end := 0, |der|;
    if end < 1 || der[0] != 0x30 {
      return NoKey;
    }
    pos := 1;
    if pos >= end {
      return NoKey;
    }
    var lenb := der[pos];
    pos := pos + 1;
    if lenb >= 0x80 {
      var n := lenb - 0x80;
      if n == 0 || n > 2 {
        return NoKey;
      }
      if pos + n > end {
        return NoKey;
      }
      pos := pos + n;
    }
    if pos + 5 <= end {
      FiveBytes(der, pos);
    }
    if pos + 3 > end || der[pos] != 0x02 || der[pos + 1] != 0x01 || der[pos + 2] != 0x01 {
      return NoKey;
    }
    pos := pos + 3;
    if pos + 2 > end || der[pos] != 0x04 || der[pos + 1] != 0x20 {
      return NoKey;
    }
    pos := pos + 2;
    if pos + 32 > end {
      return NoKey;
    }
    var key := der[pos..pos + 32];
    if !valid(key) {
      return NoKey;
    }
    return Key(key);
  }

  lemma FiveBytes(der: Bytes, at: nat)
    requires at + 5 <= |der|
    ensures der[at..at + 5] == [0x02, 0x01, 0x01, 0x04, 0x20]
      <==> der[at] == 2 && der[at + 1] == 1 && der[at + 2] == 1 && der[at + 3] == 4 && der[at + 4] == 0x20
  {
    var five := der[at..at + 5];
    assert five[0] == der[at] && five[1] == der[at + 1] && five[2] == der[at + 2] && five[3] == der[at + 3] && five[4] == der[at + 4];
  }

  /** The bytes of the outer length, or none when the reader does not take it. */
  function OuterSize(der: Bytes): int {
    if |der| < 2 || der[0] != 0x30 then 0
    else if der[1] < 0x80 then 1
    else if der[1] == 0x81 then 2
    else if der[1] == 0x82 then 3
    else 0
  }

  function Imported(der: Bytes, valid: Bytes -> bool): Key {
    var o := OuterSize(der);
    if o == 0 || |der| < 1 + o + 37 || der[1 + o..1 + o + 5] != [0x02, 0x01, 0x01, 0x04, 0x20] then NoKey else
    var key := der[1 + o + 5..1 + o + 37];
    if valid(key) then Key(key) else NoKey
  }

  /** Import inverts export for both layouts, for every key that is valid, and refuses every other one. */
  lemma ImportInvertsExport(key: Bytes, compressed: bool, tail: Bytes, valid: Bytes -> bool)
    requires |key| == 32
    ensures Imported(Export(key, compressed, tail), valid) == if valid(key) then Key(key) else NoKey
  {
    var der := Export(key, compressed, tail);
    var b := Before(compressed);
    var o := |b| - 6;
    assert der[0] == 0x30 && der[1] == b[1];
    assert OuterSize(der) == o;
    assert der[1 + o..1 + o + 5] == b[1 + o..] == [0x02, 0x01, 0x01, 0x04, 0x20];
    assert der[|b|..|b| + 32] == key;
  }
}
