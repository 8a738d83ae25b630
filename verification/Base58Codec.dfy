/** The encoder and the decoder, step by step, over a big integer and its signed byte form. */
module Base58Codec {
  import opened Positional
  import opened Base58
  import opened Lists
  import Mpi

  // ---------------------------------------------------------------- the byte form of a big integer

  /** Little-endian with a sign in the highest bit. */
  function FromVch(v: seq<int>): int { Mpi.FromMpi(Backward(v)) }

  function ToVch(n: nat): seq<int> { Backward(Mpi.ToMpi(n)) }

  function Trimmed(v: seq<int>): seq<int> {
    if |v| >= 2 && v[|v| - 1] == 0 && v[|v| - 2] >= 0x80 then v[..|v| - 1] else v
  }

  /** The zero that the encoder puts on top keeps the number from reading as negative. */
  lemma ZeroOnTop(bs: seq<int>)
    ensures FromVch(Backward(bs) + [0]) == Value(bs, 256)
  {
    BackwardLast(bs, 0);
    Mpi.SignBefore(bs);
  }

  /** Without its sign byte the form is the digits of the number, lowest first. */
  lemma TrimmedForm(n: nat)
    ensures Trimmed(ToVch(n)) == Backward(Digits(n, 256))
  {
    var b := Digits(n, 256);
    DigitsHead(n, 256);
    if b != [] && b[0] >= 0x80 {
      var v := ToVch(n);
      assert Mpi.ToMpi(n) == [0] + b;
      assert v[|v| - 1] == 0 && v[|v| - 2] == b[0];
      assert v[..|v| - 1] == Backward(b);
    } else if b != [] {
      assert Mpi.ToMpi(n) == b;
      assert Backward(b)[|b| - 1] == b[0];
    }
  }

  // ---------------------------------------------------------------- the encoder

  method EncodeBase58(bs: seq<int>) returns (s: string)
    requires InBase(bs, 256)
    ensures s == Encode(bs)
  {
    var vch := Backward(bs) + [0];
    ZeroOnTop(bs);
    ValueNonNegative(bs, 256);
    var bn: nat := FromVch(vch);
    var str := DivideOut(bn);
    var p := 0;
    while p < |bs| && bs[p] == 0
      invariant 0 <= p <= |bs| && Leading(bs) == p + Leading(bs[p..])
      invariant str == Backward(Chars(Zeros(p) + Digits(bn, 58)))
    {
      assert bs[p..][1..] == bs[p + 1..];
      OneMoreZero(p, Digits(bn, 58));
      str := str + [Char(0)];
      p := p + 1;
    }
    assert Leading(bs[p..]) == 0;
    BackwardTwice(Chars(Zeros(p) + Digits(bn, 58)));
    s := Backward(str);
  }

  lemma OneMoreZero(p: nat, ds: seq<int>)
    requires InBase(ds, 58)
    ensures Backward(Chars(Zeros(p + 1) + ds)) == Backward(Chars(Zeros(p) + ds)) + [Char(0)]
  {
    var a, b := Zeros(p) + ds, Zeros(p + 1) + ds;
    assert b == [0] + a;
  }

  /** The digits of `n`, lowest first. */
  method DivideOut(n: nat) returns (str: string)
    ensures str == Backward(Chars(Zeros(0) + Digits(n, 58)))
  {
    var bn := n;
    str := "";
    ghost var done: seq<int> := [];
    assert Digits(n, 58) + [] == Digits(n, 58);
    while bn > 0
      invariant InBase(done, 58) && Digits(n, 58) == Digits(bn, 58) + done && str == Backward(Chars(done))
      decreases bn
    {
      Shrinks(bn, 58);
      var dv, rem := bn / 58, bn % 58;
      assert Digits(bn, 58) == Digits(dv, 58) + [rem];
      str := str + [Char(rem)];
      done := [rem] + done;
      bn := dv;
    }
    assert Zeros(0) + Digits(n, 58) == done;
  }

  // ---------------------------------------------------------------- the decoder

  method SkipFrom(s: string, from: nat) returns (p: nat)
    requires from <= |s|
    ensures from <= p <= |s| && s[p..] == SkipSpace(s[from..])
  {
    p := from;
    while p < |s| && Space(s[p])
      invariant from <= p <= |s| && forall k :: from <= k < p ==> Space(s[k])
    {
      p := p + 1;
    }
    assert s[from..] == s[from..p] + s[p..];
    SkipSpaces(s[from..p], s[p..]);
  }

  lemma {:induction false} PrefixAt(s: string, from: nat, p: nat)
    requires from <= p <= |s| && AllInAlphabet(s[from..p]) && (p < |s| ==> !InAlphabet(s[p]))
    ensures Prefix(s[from..]) == s[from..p]
  {
    assert s[from..] == s[from..p] + s[p..];
    PrefixOf(s[from..p], s[p..]);
  }

  lemma OneMoreCharacter(s: string, from: nat, p: nat)
    requires from <= p < |s| && AllInAlphabet(s[from..p]) && InAlphabet(s[p])
    ensures AllInAlphabet(s[from..p + 1])
    ensures Value(Positions(s[from..p + 1]), 58) == Value(Positions(s[from..p]), 58) * 58 + Position(s[p])
  {
    PositionsAppend(s[from..p], s[p]);
    assert s[from..p + 1] == s[from..p] + [s[p]];
  }

  /** Characters into the big integer, up to the first that is not in the alphabet. */
  method Accumulate(s: string, from: nat) returns (p: nat, bn: int)
    requires from <= |s|
    ensures from <= p <= |s| && s[from..p] == Prefix(s[from..]) && bn == Value(Positions(s[from..p]), 58)
  {
    p, bn := from, 0;
    while p < |s| && Position(s[p]) >= 0
      invariant from <= p <= |s| && AllInAlphabet(s[from..p]) && bn == Value(Positions(s[from..p]), 58)
    {
      OneMoreCharacter(s, from, p);
      bn := bn * 58;
      bn := bn + Position(s[p]);
      p := p + 1;
    }
    PrefixAt(s, from, p);
  }

  /** What decoding comes to once its parts are known. */
  lemma DecodeIs(text: string, t: string, p: string, rest: string, after: string)
    requires t == SkipSpace(UntilNul(text)) && p == Prefix(t) && rest == t[|p|..] && after == SkipSpace(rest)
    ensures Decode(text) == if after != "" then Bad else Bytes(Convert(Positions(p), 58, 256))
  {
  }

  lemma SliceTail(s: string, start: nat, end: nat)
    requires start <= end <= |s|
    ensures s[start..][|s[start..end]|..] == s[end..]
  {
  }

  method DecodeBase58(text: string) returns (r: Decoded)
    ensures r == Decode(text)
  {
    var s := UntilNul(text);
    assert s[0..] == s;
    var start := SkipFrom(s, 0);
    var end, bn := Accumulate(s, start);
    SliceTail(s, start, end);
    DecodeIs(text, s[start..], s[start..end], s[end..], SkipSpace(s[end..]));
    if end < |s| {
      var q := SkipFrom(s, end);
      if q < |s| {
        return Bad;
      }
    }
    var bs := Restore(s[start..end], bn);
    r := Bytes(bs);
  }

  /** The leading ones of the text become zero bytes before the bytes of the number. */
  method Restore(core: string, bn: int) returns (bs: seq<int>)
    requires AllInAlphabet(core) && bn == Value(Positions(core), 58)
    ensures bs == Convert(Positions(core), 58, 256)
  {
    ValueNonNegative(Positions(core), 58);
    var vch := Trimmed(ToVch(bn));
    TrimmedForm(bn);
    var zeros := 0;
    while zeros < |core| && core[zeros] == Char(0)
      invariant 0 <= zeros <= |core|
      invariant Leading(Positions(core)) == zeros + Leading(Positions(core)[zeros..])
    {
      assert Positions(core)[zeros..][1..] == Positions(core)[zeros + 1..];
      PositionOfChar(0);
      zeros := zeros + 1;
    }
    assert zeros < |core| ==> Position(core[zeros]) != 0;
    BackwardTwice(Digits(bn, 256));
    bs := Zeros(zeros) + Backward(vch);
  }
}
