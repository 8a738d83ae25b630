/**
Base58: a change of base that keeps leading zeros, through a big integer whose byte form carries a sign.
*/
module Base58 {
  import opened Positional

  // ---------------------------------------------------------------- the alphabet

  predicate InAlphabet(c: char) {
    || '1' <= c <= '9' || 'A' <= c <= 'H' || 'J' <= c <= 'N' || 'P' <= c <= 'Z' || 'a' <= c <= 'k' || 'm' <= c <= 'z'
  }

  /** 123456789ABCDEFGHJKLMNPQRSTUVWXYZabcdefghijkmnopqrstuvwxyz: digits and letters without 0, O, I and l. */
  function Char(d: int): (c: char)
    requires 0 <= d < 58
    ensures InAlphabet(c)
  {
    if d < 9 then ('1' as int + d) as char
    else if d < 17 then ('A' as int + d - 9) as char
    else if d < 22 then ('J' as int + d - 17) as char
    else if d < 33 then ('P' as int + d - 22) as char
    else if d < 44 then ('a' as int + d - 33) as char
    else ('m' as int + d - 44) as char
  }

  /** The position of a character in the alphabet, or -1. */
  function Position(c: char): (d: int)
    ensures -1 <= d < 58 && (d >= 0 <==> InAlphabet(c))
    ensures d >= 0 ==> Char(d) == c
  {
    if '1' <= c <= '9' then c as int - '1' as int
    else if 'A' <= c <= 'H' then c as int - 'A' as int + 9
    else if 'J' <= c <= 'N' then c as int - 'J' as int + 17
    else if 'P' <= c <= 'Z' then c as int - 'P' as int + 22
    else if 'a' <= c <= 'k' then c as int - 'a' as int + 33
    else if 'm' <= c <= 'z' then c as int - 'm' as int + 44
    else -1
  }

  lemma PositionOfChar(d: int)
    requires 0 <= d < 58
    ensures Position(Char(d)) == d
  {
  }

  predicate Space(c: char) { c == ' ' || ('\t' <= c <= '\r') }

  predicate AllInAlphabet(s: string) { forall i :: 0 <= i < |s| ==> InAlphabet(s[i]) }

  predicate AllSpace(s: string) { forall i :: 0 <= i < |s| ==> Space(s[i]) }

  function Chars(ds: seq<int>): string
    requires InBase(ds, 58)
  {
    seq(|ds|, i requires 0 <= i < |ds| => Char(ds[i]))
  }

  function Positions(s: string): (ds: seq<int>)
    requires AllInAlphabet(s)
    ensures InBase(ds, 58)
  {
    seq(|s|, i requires 0 <= i < |s| => Position(s[i]))
  }

  lemma PositionsOfChars(ds: seq<int>)
    requires InBase(ds, 58)
    ensures AllInAlphabet(Chars(ds)) && Positions(Chars(ds)) == ds
  {
    forall i | 0 <= i < |ds| ensures Position(Chars(ds)[i]) == ds[i] {
      PositionOfChar(ds[i]);
    }
  }

  lemma CharsOfPositions(s: string)
    requires AllInAlphabet(s)
    ensures Chars(Positions(s)) == s
  {
  }

  // ---------------------------------------------------------------- strings

  function Encode(bs: seq<int>): string
    requires InBase(bs, 256)
  {
    Chars(Convert(bs, 256, 58))
  }

  datatype Decoded = Bad | Bytes(bs: seq<int>)

  /** A C string ends at its first NUL. */
  function UntilNul(s: string): (r: string)
    ensures |r| <= |s| && r == s[..|r|] && (|r| < |s| ==> s[|r|] == '\0')
    ensures forall i :: 0 <= i < |r| ==> r[i] != '\0'
  {
    if s == "" || s[0] == '\0' then "" else [s[0]] + UntilNul(s[1..])
  }

  function SkipSpace(s: string): (r: string)
    ensures |r| <= |s| && r == s[|s| - |r|..] && (r != "" ==> !Space(r[0]))
  {
    if s != "" && Space(s[0]) then SkipSpace(s[1..]) else s
  }

  /** The longest prefix over the alphabet. */
  function Prefix(s: string): (r: string)
    ensures |r| <= |s| && r == s[..|r|] && AllInAlphabet(r) && (|r| < |s| ==> !InAlphabet(s[|r|]))
  {
    if s != "" && InAlphabet(s[0]) then [s[0]] + Prefix(s[1..]) else ""
  }

  function Decode(s: string): Decoded {
    var t := SkipSpace(UntilNul(s));
    var p := Prefix(t);
    if SkipSpace(t[|p|..]) != "" then Bad else Bytes(Convert(Positions(p), 58, 256))
  }

  lemma AlphabetPlain(c: char)
    requires InAlphabet(c)
    ensures !Space(c) && c != '\0'
  {
  }

  lemma {:induction false} SkipSpaces(w: string, t: string)
    requires AllSpace(w) && (t != "" ==> !Space(t[0]))
    ensures SkipSpace(w + t) == t
  {
    if w == "" {
      assert w + t == t;
    } else {
      assert (w + t)[1..] == w[1..] + t;
      SkipSpaces(w[1..], t);
    }
  }

  lemma PositionsAppend(s: string, c: char)
    requires AllInAlphabet(s) && InAlphabet(c)
    ensures AllInAlphabet(s + [c]) && Value(Positions(s + [c]), 58) == Value(Positions(s), 58) * 58 + Position(c)
  {
    assert Positions(s + [c]) == Positions(s) + [Position(c)];
    ValueAppend(Positions(s), Position(c), 58);
  }

  lemma {:induction false} PrefixOf(a: string, t: string)
    requires AllInAlphabet(a) && (t != "" ==> !InAlphabet(t[0]))
    ensures Prefix(a + t) == a
  {
    if a == "" {
      assert a + t == t;
    } else {
      assert (a + t)[1..] == a[1..] + t;
      PrefixOf(a[1..], t);
      assert a == [a[0]] + a[1..];
    }
  }

  lemma {:induction false} NoNul(s: string)
    requires forall i :: 0 <= i < |s| ==> s[i] != '\0'
    ensures UntilNul(s) == s
  {
    if s != "" {
      NoNul(s[1..]);
    }
  }

  /** Surrounding white space is ignored. */
  lemma {:induction false} DecodePadded(before: string, s: string, after: string)
    requires AllSpace(before) && AllSpace(after) && AllInAlphabet(s)
    ensures Decode(before + s + after) == Bytes(Convert(Positions(s), 58, 256))
  {
    var all := before + s + after;
    PlainThroughout(before, s, after);
    NoNul(all);
    assert all == before + (s + after);
    if s != "" {
      AlphabetPlain(s[0]);
      SkipSpaces(before, s + after);
      PrefixOf(s, after);
      assert (s + after)[|s|..] == after;
      AllSpaceSkipped(after);
    } else {
      assert all == before + after;
      AllSpaceSkipped(all);
      assert SkipSpace(all) == "" && Prefix("") == "";
      assert Positions("") == Positions(s);
    }
  }

  lemma PlainThroughout(before: string, s: string, after: string)
    requires AllSpace(before) && AllSpace(after) && AllInAlphabet(s)
    ensures forall i :: 0 <= i < |before + s + after| ==> (before + s + after)[i] != '\0'
  {
    forall i | 0 <= i < |before + s + after| ensures (before + s + after)[i] != '\0' {
      if |before| <= i < |before| + |s| { AlphabetPlain(s[i - |before|]); }
    }
  }

  lemma AllSpaceSkipped(w: string)
    requires AllSpace(w)
    ensures SkipSpace(w) == ""
  {
    SkipSpaces(w, "");
    assert w + "" == w;
  }

  /** Decoding inverts encoding, for every byte string, white space around it or not. */
  lemma {:induction false} DecodeEncode(bs: seq<int>, before: string, after: string)
    requires InBase(bs, 256) && AllSpace(before) && AllSpace(after)
    ensures Decode(before + Encode(bs) + after) == Bytes(bs)
  {
    var ds := Convert(bs, 256, 58);
    PositionsOfChars(ds);
    DecodePadded(before, Chars(ds), after);
    ConvertInverts(bs, 256, 58);
  }

  /** Encoding inverts decoding, for every string over the alphabet. */
  lemma {:induction false} EncodeDecode(s: string)
    requires AllInAlphabet(s)
    ensures Decode(s).Bytes? && InBase(Decode(s).bs, 256) && Encode(Decode(s).bs) == s
  {
    assert "" + s + "" == s;
    DecodePadded("", s, "");
    ConvertInverts(Positions(s), 58, 256);
    CharsOfPositions(s);
  }

  predicate Framed(t: string, before: string, core: string, after: string) {
    AllSpace(before) && AllInAlphabet(core) && AllSpace(after) && t == before + core + after
  }

  /** What decodes is white space, characters of the alphabet, and white space, up to the first NUL. */
  lemma {:induction false} DecodesIff(s: string)
    ensures Decode(s).Bytes? <==> exists before, core, after :: Framed(UntilNul(s), before, core, after)
  {
    var t := UntilNul(s);
    if Decode(s).Bytes? {
      var u := SkipSpace(t);
      var p := Prefix(u);
      SpaceBefore(t);
      AllSpaceIf(u[|p|..]);
      ThreeParts(t, u, p);
      assert Framed(t, t[..|t| - |u|], p, u[|p|..]);
    }
    if exists before, core, after :: Framed(t, before, core, after) {
      var before, core, after :| Framed(t, before, core, after);
      DecodePadded(before, core, after);
      NoNul(t);
    }
  }

  lemma {:induction false} AllSpaceIf(s: string)
    requires SkipSpace(s) == ""
    ensures AllSpace(s)
  {
    SpaceBefore(s);
    assert s[..|s|] == s;
  }

  lemma ThreeParts(t: string, u: string, p: string)
    requires |p| <= |u| <= |t| && u == t[|t| - |u|..] && p == u[..|p|]
    ensures t == t[..|t| - |u|] + p + u[|p|..]
  {
    assert u == p + u[|p|..];
    assert t == t[..|t| - |u|] + (p + u[|p|..]);
  }

  lemma {:induction false} SpaceBefore(s: string)
    ensures AllSpace(s[..|s| - |SkipSpace(s)|])
  {
    if s != "" && Space(s[0]) {
      SpaceBefore(s[1..]);
      var n := |s| - |SkipSpace(s)|;
      assert s[..n] == [s[0]] + s[1..][..n - 1];
    }
  }

  /** The reserved size is never exceeded. */
  lemma EncodedLength(bs: seq<int>)
    requires InBase(bs, 256)
    ensures |Encode(bs)| <= |bs| * 138 / 100 + 1
  {
    var z := Leading(bs);
    var core := bs[z..];
    assert bs == Zeros(z) + core;
    ZerosAddNothing(z, core, 256);
    ValueNonNegative(bs, 256);
    ValueBelow(core, 256);
    DigitsBound(Value(bs, 256), |core|);
  }

  // ---------------------------------------------------------------- with a checksum

  type Hash = seq<int> -> seq<int>

  ghost predicate GoodHash(hash: Hash) { forall bs :: |hash(bs)| >= 4 && InBase(hash(bs)[..4], 256) }

  ghost function EncodeCheck(bs: seq<int>, hash: Hash): string
    requires InBase(bs, 256) && GoodHash(hash)
  {
    Encode(bs + hash(bs)[..4])
  }

  ghost function DecodeCheck(s: string, hash: Hash): Decoded
    requires GoodHash(hash)
  {
    match Decode(s)
    case Bad => Bad
    case Bytes(bs) => Body(bs, hash)
  }

  ghost function Body(bs: seq<int>, hash: Hash): Decoded
    requires GoodHash(hash)
  {
    if |bs| < 4 then Bad else
    var body := bs[..|bs| - 4];
    if hash(body)[..4] != bs[|bs| - 4..] then Bad else Bytes(body)
  }

  lemma {:induction false} CheckRoundTrip(bs: seq<int>, hash: Hash)
    requires InBase(bs, 256) && GoodHash(hash)
    ensures DecodeCheck(EncodeCheck(bs, hash), hash) == Bytes(bs)
  {
    var all := bs + hash(bs)[..4];
    var s := Encode(all);
    DecodeEncode(all, "", "");
    assert "" + s + "" == s;
    BodyOf(bs, hash);
    ChecksBody(s, all, hash);
  }

  lemma ChecksBody(s: string, all: seq<int>, hash: Hash)
    requires GoodHash(hash) && Decode(s) == Bytes(all)
    ensures DecodeCheck(s, hash) == Body(all, hash)
  {
  }

  lemma BodyOf(bs: seq<int>, hash: Hash)
    requires GoodHash(hash)
    ensures Body(bs + hash(bs)[..4], hash) == Bytes(bs)
  {
    var all := bs + hash(bs)[..4];
    assert all[..|all| - 4] == bs && all[|all| - 4..] == hash(bs)[..4];
  }

  lemma CheckedBody(hash: Hash, all: seq<int>, bs: seq<int>)
    requires GoodHash(hash) && Body(all, hash) == Bytes(bs)
    ensures all == bs + hash(bs)[..4]
  {
  }

  /** A string over the alphabet is accepted if and only if it is the encoding, checksum included, of what it decodes to. */
  lemma {:induction false} CheckAcceptsOnlyEncodings(s: string, hash: Hash, bs: seq<int>)
    requires AllInAlphabet(s) && GoodHash(hash) && InBase(bs, 256)
    ensures DecodeCheck(s, hash) == Bytes(bs) <==> s == EncodeCheck(bs, hash)
  {
    if DecodeCheck(s, hash) == Bytes(bs) {
      EncodeDecode(s);
      CheckedBody(hash, Decode(s).bs, bs);
    }
    if s == EncodeCheck(bs, hash) {
      CheckRoundTrip(bs, hash);
    }
  }

  // ---------------------------------------------------------------- spelled out

  /** All digits and letters but four that are easily confused ... */
  lemma AlphabetIs(c: char)
    ensures InAlphabet(c) <==>
              ('0' <= c <= '9' || 'A' <= c <= 'Z' || 'a' <= c <= 'z') && c != '0' && c != 'O' && c != 'I' && c != 'l'
  {
  }

  /** ... in the order of their character codes, from zero to 57. */
  lemma AlphabetInOrder(c: char, e: char)
    requires InAlphabet(c) && InAlphabet(e)
    ensures 0 <= Position(c) <= 57 && (c < e <==> Position(c) < Position(e))
    ensures Position('1') == 0 && Position('z') == 57
  {
  }

  lemma {:induction false} LeadingZeros(ds: seq<int>, k: nat)
    requires k <= |ds|
    ensures k <= Leading(ds) <==> forall i :: 0 <= i < k ==> ds[i] == 0
  {
    if Leading(ds) < k {
      assert ds[Leading(ds)] != 0;
    }
  }

  /** The text is the number that the bytes are, in base 58, after one '1' for every leading zero byte. */
  lemma {:induction false} EncodedNumber(bs: seq<int>, k: nat)
    requires InBase(bs, 256) && k <= |bs|
    ensures
      var e := Encode(bs);
      && AllInAlphabet(e) && Value(Positions(e), 58) == Value(bs, 256)
      && ((forall i :: 0 <= i < k ==> bs[i] == 0) <==> k <= |e| && forall i :: 0 <= i < k ==> e[i] == '1')
  {
    var e, ds, z := Encode(bs), Convert(bs, 256, 58), Leading(bs);
    PositionsOfChars(ds);
    ValueNonNegative(bs, 256);
    var core := Digits(Value(bs, 256), 58);
    ZerosAddNothing(z, core, 58);
    ValueOfDigits(Value(bs, 256), 58);
    DigitsHead(Value(bs, 256), 58);
    LeadingOf(z, core);
    LeadingZeros(bs, k);
    if k <= |e| {
      LeadingZeros(ds, k);
      OnesAreZeros(ds, k);
    }
  }

  lemma OnesAreZeros(ds: seq<int>, k: nat)
    requires InBase(ds, 58) && k <= |ds|
    ensures (forall i :: 0 <= i < k ==> Chars(ds)[i] == '1') <==> forall i :: 0 <= i < k ==> ds[i] == 0
  {
    forall i | 0 <= i < k ensures Chars(ds)[i] == '1' <==> ds[i] == 0 {
      PositionOfChar(ds[i]);
    }
  }

  function FirstFour(h: seq<int>): (r: seq<int>)
    requires |h| >= 4
    ensures r == h[..4]
  {
    [h[0], h[1], h[2], h[3]]
  }

  /** With a checksum, a text passes as some bytes exactly when it stands for them and the first four bytes of their
      hash. */
  lemma CheckedBytes(s: string, all: seq<int>, bs: seq<int>, hash: Hash)
    requires GoodHash(hash) && Decode(s) == Bytes(all)
    ensures DecodeCheck(s, hash) == Bytes(bs) <==> all == bs + FirstFour(hash(bs))
  {
    ChecksBody(s, all, hash);
    BodyIff(all, bs, hash);
  }

  lemma BodyIff(all: seq<int>, bs: seq<int>, hash: Hash)
    requires GoodHash(hash)
    ensures Body(all, hash) == Bytes(bs) <==> all == bs + FirstFour(hash(bs))
  {
    if |all| >= 4 {
      assert all == all[..|all| - 4] + all[|all| - 4..];
    }
  }

  lemma CheckedText(bs: seq<int>, hash: Hash)
    requires InBase(bs, 256) && GoodHash(hash)
    ensures Decode(EncodeCheck(bs, hash)) == Bytes(bs + FirstFour(hash(bs)))
  {
    var all := bs + FirstFour(hash(bs));
    Decodes(all, Encode(all), "");
  }

  lemma Decodes(all: seq<int>, s: string, none: string)
    requires InBase(all, 256) && s == Encode(all) && none == ""
    ensures Decode(s) == Bytes(all)
  {
    DecodeEncode(all, none, none);
    assert none + s + none == s;
  }

  /** What counts as white space: a blank, and the five control characters from tab to carriage return. */
  lemma SpaceIs(c: char)
    ensures Space(c) <==> c as int in {32, 9, 10, 11, 12, 13}
  {
  }
}
