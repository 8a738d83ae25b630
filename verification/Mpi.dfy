/**
The byte form in which big integers are exchanged: sign and magnitude, most significant byte first, the
sign in the highest bit.  The setters build it by hand; the compact form keeps its size and three bytes.
*/
module Mpi {
  import opened Lists
  import opened Positional

  type Bytes = seq<int>

  // ---------------------------------------------------------------- the form

  function FromMpi(m: Bytes): int {
    if m == [] then 0
    else if m[0] >= 0x80 then -Value([m[0] - 0x80] + m[1..], 256)
    else Value(m, 256)
  }

  function Magnitude(x: int): nat { if x < 0 then -x else x }

  /** The sign goes into the first byte, or before it when its highest bit is taken. */
  function WithSign(d: Bytes, negative: bool): Bytes {
    if d == [] then []
    else if d[0] >= 0x80 then [if negative then 0x80 else 0] + d
    else if negative then [d[0] + 0x80] + d[1..]
    else d
  }

  function ToMpi(x: int): Bytes { WithSign(Digits(Magnitude(x), 256), x < 0) }

  lemma ZeroFirst(d: Bytes)
    ensures Value([0] + d, 256) == Value(d, 256)
  {
    assert [0] + d == Zeros(1) + d;
    ZerosAddNothing(1, d, 256);
  }

  /** A sign byte before the magnitude. */
  lemma SignBefore(d: Bytes)
    ensures FromMpi([0] + d) == Value(d, 256) && FromMpi([0x80] + d) == -Value(d, 256)
  {
    ZeroFirst(d);
    var m := [0x80] + d;
    assert [m[0] - 0x80] + m[1..] == [0] + d;
  }

  /** A sign bit in the first byte of the magnitude. */
  lemma {:induction false} SignInside(d: Bytes)
    requires d != [] && 0 <= d[0] < 0x80
    ensures FromMpi(d) == Value(d, 256) && FromMpi([d[0] + 0x80] + d[1..]) == -Value(d, 256)
  {
    var m := [d[0] + 0x80] + d[1..];
    assert [m[0] - 0x80] + m[1..] == d;
  }

  lemma {:induction false} SignReads(d: Bytes, negative: bool)
    requires InBase(d, 256)
    ensures FromMpi(WithSign(d, negative)) == (if negative then -Value(d, 256) else Value(d, 256))
    ensures InBase(WithSign(d, negative), 256)
  {
    if d != [] {
      if d[0] >= 0x80 {
        SignBefore(d);
      } else {
        SignInside(d);
      }
    }
  }

  lemma MpiRoundTrip(x: int)
    ensures FromMpi(ToMpi(x)) == x && InBase(ToMpi(x), 256)
  {
    SignReads(Digits(Magnitude(x), 256), x < 0);
    ValueOfDigits(Magnitude(x), 256);
  }

  // ---------------------------------------------------------------- numbers of a fixed width

  lemma OneByte(b: int)
    ensures Value([b], 256) == b
  {
    assert [b][..0] == [];
  }

  /** The number is its highest byte and the value of the others. */
  lemma {:induction false} HeadValue(top: int, rest: Bytes)
    ensures Value([top] + rest, 256) == top * Pow(256, |rest|) + Value(rest, 256)
  {
    OneByte(top);
    ValueSplit([top], rest, 256);
  }

  const TWO56: nat := 0x100_0000_0000_0000
  const TWO64: nat := 0x1_0000_0000_0000_0000

  lemma SevenBytes(rest: Bytes)
    requires InBase(rest, 256) && |rest| == 7
    ensures 0 <= Value(rest, 256) < TWO56 && Pow(256, |rest|) == TWO56
  {
    ValueNonNegative(rest, 256);
    ValueBelow(rest, 256);
    var n := 7;
    PowSeven(n);
  }

  lemma PowSeven(n: nat)
    requires n == 7
    ensures Pow(256, n) == TWO56 && Pow(256, n + 1) == TWO64
  {
    var three, one := 3, 1;
    assert Pow(256, three) == 0x1000000;
    PowAdd(256, three, three);
    PowAdd(256, three + three, one);
    assert Pow(256, one) == 256;
  }

  /** The highest byte comes off by a shift right, and the others move up by a shift left. */
  lemma TopByte(top: int, rest: Bytes)
    requires InBase(rest, 256) && |rest| == 7 && 0 <= top < 256
    ensures
      var n := Value([top] + rest, 256);
      n >= 0 && n / TWO56 == top && n * 256 % TWO64 == Value(rest + [0], 256)
  {
    HeadValue(top, rest);
    SevenBytes(rest);
    ValueAppend(rest, 0, 256);
  }

  // ---------------------------------------------------------------- the setters

  /** The form of a magnitude, one byte at a time: leading zeros are dropped, and the sign goes into the
      first byte, or before it when its highest bit is taken. */
  function Emit(m: Bytes, c: int, negative: bool): Bytes {
    if m != [] then m + [c]
    else if c == 0 then []
    else if c >= 0x80 then [if negative then 0x80 else 0, c]
    else [if negative then c + 0x80 else c]
  }

  function EmitAll(ds: Bytes, negative: bool): Bytes {
    if ds == [] then [] else Emit(EmitAll(ds[..|ds| - 1], negative), ds[|ds| - 1], negative)
  }

  predicate Signed(m: Bytes, v: int, negative: bool) {
    && InBase(m, 256)
    && FromMpi(m) == (if negative then -v else v)
    && (m == [] <==> v == 0)
    && (m != [] ==> (m[0] >= 0x80 <==> negative))
  }

  lemma EmitNext(m: Bytes, v: int, c: int, negative: bool)
    requires Signed(m, v, negative) && m != [] && 0 <= c < 256 && v > 0
    ensures Signed(m + [c], v * 256 + c, negative)
  {
    var r := m + [c];
    ValueAppend(m, c, 256);
    if negative {
      var body := [m[0] - 0x80] + m[1..];
      assert [r[0] - 0x80] + r[1..] == body + [c];
      ValueAppend(body, c, 256);
    }
  }

  lemma EmitFirst(c: int, negative: bool)
    requires 0 <= c < 256
    ensures Signed(Emit([], c, negative), c, negative)
  {
    if c > 0 {
      OneByte(c);
      SignReads([c], negative);
      assert Emit([], c, negative) == WithSign([c], negative);
    }
  }

  lemma EmitValue(m: Bytes, v: int, c: int, negative: bool)
    requires Signed(m, v, negative) && 0 <= c < 256 && v >= 0
    ensures Signed(Emit(m, c, negative), v * 256 + c, negative)
  {
    if m != [] {
      EmitNext(m, v, c, negative);
    } else {
      EmitFirst(c, negative);
    }
  }

  /** The form that is emitted decodes to the exact number. */
  lemma {:induction false} EmittedValue(ds: Bytes, negative: bool)
    requires InBase(ds, 256)
    ensures Value(ds, 256) >= 0 && Signed(EmitAll(ds, negative), Value(ds, 256), negative)
  {
    ValueNonNegative(ds, 256);
    if ds != [] {
      EmittedValue(ds[..|ds| - 1], negative);
      EmitValue(EmitAll(ds[..|ds| - 1], negative), Value(ds[..|ds| - 1], 256), ds[|ds| - 1], negative);
    }
  }

  /** The top byte comes out, and the rest moves up by one byte. */
  lemma ShiftOnce(ds: Bytes, i: nat)
    requires InBase(ds, 256) && i < |ds| == 8
    ensures
      var n := Value(ds[i..] + Zeros(i), 256);
      n >= 0 && n / TWO56 == ds[i] && n * 256 % TWO64 == Value(ds[i + 1..] + Zeros(i + 1), 256)
  {
    var rest := ds[i + 1..] + Zeros(i);
    assert ds[i..] + Zeros(i) == [ds[i]] + rest;
    RestInBase(ds, i);
    TopByte(ds[i], rest);
    assert rest + [0] == ds[i + 1..] + Zeros(i + 1);
  }

  /** The loop of the 64-bit setters: the highest byte off, the rest up by a byte, eight times. */
  method EmitShifted(n0: nat, negative: bool, w: nat) returns (m: Bytes)
    requires n0 < TWO64 && w == 8
    ensures m == EmitAll(Fixed(n0, w, 256), negative)
  {
    m := [];
    var n, i := n0, 0;
    ghost var ds := Fixed(n0, w, 256);
    PowSeven(w - 1);
    ValueOfFixed(n0, w, 256);
    assert ds[..0] == [] && ds[0..] + Zeros(0) == ds;
    while i < w
      invariant 0 <= i <= w && m == EmitAll(ds[..i], negative) && 0 <= n == Value(ds[i..] + Zeros(i), 256)
    {
      ShiftOnce(ds, i);
      var c := n / TWO56;
      n := n * 256 % TWO64;
      assert ds[..i + 1][..i] == ds[..i];
      m := Emit(m, c, negative);
      i := i + 1;
    }
    assert ds[..i] == ds;
  }

  lemma RestInBase(ds: Bytes, i: nat)
    requires InBase(ds, 256) && i < |ds|
    ensures InBase(ds[i + 1..] + Zeros(i), 256)
  {
  }

  /** The loop of the 256-bit setter, over the bytes in memory from the highest down. */
  method EmitBytes(little: Bytes) returns (m: Bytes)
    requires InBase(little, 256)
    ensures m == EmitAll(Backward(little), false)
  {
    m := [];
    var i := |little|;
    ghost var ds := Backward(little);
    assert ds[..0] == [];
    while i > 0
      invariant 0 <= i <= |little| && m == EmitAll(ds[..|little| - i], false)
    {
      i := i - 1;
      assert ds[..|little| - i][..|little| - i - 1] == ds[..|little| - i - 1];
      m := Emit(m, little[i], false);
    }
    assert ds[..|little|] == ds;
  }

  /** Any 64-bit signed number, the smallest included. */
  method SetInt64(sn: int) returns (m: Bytes)
    requires -0x8000_0000_0000_0000 <= sn < 0x8000_0000_0000_0000
    ensures FromMpi(m) == sn
  {
    var n, negative;
    if sn < 0 {
      n := -(sn + 1);
      n := n + 1;
      negative := true;
    } else {
      n, negative := sn, false;
    }
    var w := 8;
    PowSeven(w - 1);
    m := EmitShifted(n, negative, w);
    ValueOfFixed(n, w, 256);
    EmittedValue(Fixed(n, w, 256), negative);
  }

  method SetUint64(n: nat) returns (m: Bytes)
    requires n < 0x1_0000_0000_0000_0000
    ensures FromMpi(m) == n
  {
    var w := 8;
    PowSeven(w - 1);
    m := EmitShifted(n, false, w);
    ValueOfFixed(n, w, 256);
    EmittedValue(Fixed(n, w, 256), false);
  }

  /** A 256-bit number, given as it lies in memory. */
  method SetUint256(little: Bytes) returns (m: Bytes)
    requires InBase(little, 256) && |little| == 32
    ensures FromMpi(m) == Value(Backward(little), 256)
  {
    m := EmitBytes(little);
    EmittedValue(Backward(little), false);
  }

  // ---------------------------------------------------------------- the getters

  function Lowest(v: Bytes, w: nat): Bytes { if w < |v| then v[|v| - w..] else v }

  /** The magnitude's bytes, its sign bit masked off. */
  function Masked(m: Bytes): Bytes
    requires m != []
  {
    [m[0] % 0x80] + m[1..]
  }

  /** The lowest `w` bytes of the magnitude, as many as there are: the magnitude itself when it fits. */
  method GetLow(x: int, w: nat) returns (n: int)
    ensures Magnitude(x) < Pow(256, w) ==> n == Magnitude(x)
    ensures ToMpi(x) != [] ==> n == Value(Lowest(Masked(ToMpi(x)), w), 256)
  {
    var m := ToMpi(x);
    if m == [] {
      return 0;
    }
    MagnitudeOf(x);
    var v := Masked(m);
    n := ReadLow(v, w);
    if Magnitude(x) < Pow(256, w) {
      LowestIsAll(v, w);
    }
  }

  method ReadLow(v: Bytes, w: nat) returns (n: int)
    ensures n == Value(Lowest(v, w), 256)
  {
    n := 0;
    var i := 0;
    assert v[|v|..] == [];
    while i < w && i < |v|
      invariant 0 <= i <= w && i <= |v| && n == Value(v[|v| - i..], 256)
    {
      assert v[|v| - i - 1..] == [v[|v| - 1 - i]] + v[|v| - i..];
      HeadValue(v[|v| - 1 - i], v[|v| - i..]);
      n := n + v[|v| - 1 - i] * Pow(256, i);
      i := i + 1;
    }
    assert v[0..] == v;
  }

  lemma MagnitudeOf(x: int)
    requires ToMpi(x) != []
    ensures InBase(Masked(ToMpi(x)), 256) && Value(Masked(ToMpi(x)), 256) == Magnitude(x)
  {
    var d := Digits(Magnitude(x), 256);
    ValueOfDigits(Magnitude(x), 256);
    MaskedSign(d, x < 0);
  }

  lemma MaskedSign(d: Bytes, negative: bool)
    requires InBase(d, 256) && d != []
    ensures
      var v := Masked(WithSign(d, negative));
      InBase(v, 256) && Value(v, 256) == Value(d, 256)
  {
    ZeroFirst(d);
    assert Masked(WithSign(d, negative)) == if d[0] >= 0x80 then [0] + d else d;
  }

  /** A number below 256^w is in its lowest `w` bytes. */
  lemma {:induction false} LowestIsAll(v: Bytes, w: nat)
    requires InBase(v, 256) && Value(v, 256) < Pow(256, w)
    ensures Value(Lowest(v, w), 256) == Value(v, 256)
  {
    if w < |v| {
      var top, rest := v[0], v[1..];
      assert v == [top] + rest;
      HeadValue(top, rest);
      ValueNonNegative(rest, 256);
      PowGrows(256, w, |rest|);
      PowPositive(256, |rest|);
      if top >= 1 {
        TimesMono(1, top, Pow(256, |rest|));
      }
      assert top == 0;
      LowestIsAll(rest, w);
      assert Lowest(v, w) == Lowest(rest, w);
    }
  }

  // ---------------------------------------------------------------- the compact form

  const TWO24: nat := 0x100_0000

  /** The size of the byte form in the top byte, then its first three bytes, zero where there are none. */
  function Three(m: Bytes): (t: Bytes)
    ensures |t| == 3
  {
    [if |m| >= 1 then m[0] else 0, if |m| >= 2 then m[1] else 0, if |m| >= 3 then m[2] else 0]
  }

  function GetCompact(x: int): int { Packed(ToMpi(x)) }

  function Packed(m: Bytes): int { |m| * TWO24 + Three(m)[0] * 0x10000 + Three(m)[1] * 0x100 + Three(m)[2] }

  /** The first three bytes of the form, and zeros up to the size. */
  function Unpacked(c: nat): Bytes {
    var size := c / TWO24;
    var bytes := [c / 0x10000 % 0x100, c / 0x100 % 0x100, c % 0x100];
    if size <= 3 then bytes[..size] else bytes + Zeros(size - 3)
  }

  function SetCompact(c: nat): int { FromMpi(Unpacked(c)) }

  function Cut(m: Bytes): (r: Bytes)
    ensures |r| == |m|
  {
    if |m| <= 3 then m else m[..3] + Zeros(|m| - 3)
  }

  /** Unpacking what was packed keeps the size and the first three bytes. */
  lemma UnpackedPacked(m: Bytes)
    requires InBase(m, 256)
    ensures Packed(m) >= 0 && Unpacked(Packed(m)) == Cut(m)
  {
    var t := Three(m);
    Fields(|m|, t[0], t[1], t[2]);
    if |m| > 3 {
      assert m[..3] == t;
    }
  }

  lemma Fields(n: nat, a: int, b: int, d: int)
    requires 0 <= a < 256 && 0 <= b < 256 && 0 <= d < 256
    ensures
      var c := n * TWO24 + a * 0x10000 + b * 0x100 + d;
      c / TWO24 == n && c / 0x10000 % 0x100 == a && c / 0x100 % 0x100 == b && c % 0x100 == d
  {
    var c := n * TWO24 + a * 0x10000 + b * 0x100 + d;
    assert c / 0x10000 == n * 0x100 + a;
    assert c / 0x100 == (n * 0x100 + a) * 0x100 + b;
  }

  /** A byte form of a positive number: no byte too many. */
  predicate Canonical(m: Bytes) {
    m != [] && InBase(m, 256) && m[0] < 0x80 && (m[0] == 0 ==> |m| >= 2 && m[1] >= 0x80)
  }

  lemma FormIsCanonical(x: int)
    requires x > 0
    ensures Canonical(ToMpi(x)) && Value(ToMpi(x), 256) == x
  {
    var d := Digits(x, 256);
    DigitsHead(x, 256);
    ValueOfDigits(x, 256);
    ZeroFirst(d);
  }

  lemma CanonicalIsForm(m: Bytes)
    requires Canonical(m)
    ensures Value(m, 256) > 0 && ToMpi(Value(m, 256)) == m && FromMpi(m) == Value(m, 256)
  {
    var d := if m[0] == 0 then m[1..] else m;
    assert m[0] == 0 ==> m == [0] + d;
    ZeroFirst(d);
    DigitsOfValue(d, 256);
  }

  lemma CutIsCanonical(m: Bytes)
    requires Canonical(m)
    ensures Canonical(Cut(m)) && Three(Cut(m)) == Three(m) && Packed(Cut(m)) == Packed(m)
  {
  }

  /** Converting to the compact form and back. */
  function Round(x: int): int
    requires x >= 0
  {
    UnpackedForm(x);
    SetCompact(GetCompact(x))
  }

  lemma UnpackedForm(x: int)
    requires x >= 0
    ensures GetCompact(x) >= 0 && Unpacked(GetCompact(x)) == Cut(ToMpi(x))
  {
    MpiRoundTrip(x);
    UnpackedPacked(ToMpi(x));
  }

  lemma {:induction false} RoundIsCut(x: int)
    requires x > 0
    ensures Round(x) == Value(Cut(ToMpi(x)), 256) && ToMpi(Round(x)) == Cut(ToMpi(x)) && Round(x) > 0
  {
    UnpackedForm(x);
    FormIsCanonical(x);
    CutIsCanonical(ToMpi(x));
    CanonicalIsForm(Cut(ToMpi(x)));
  }

  /** A number that went through the compact form once does not change again. */
  lemma CompactIdempotent(x: int)
    requires x >= 0
    ensures Round(x) >= 0 && Round(Round(x)) == Round(x) && GetCompact(Round(x)) == GetCompact(x)
  {
    if x > 0 {
      RoundIsCut(x);
      FormIsCanonical(x);
      CutIsCanonical(ToMpi(x));
      RoundIsCut(Round(x));
      assert Cut(Cut(ToMpi(x))) == Cut(ToMpi(x));
      FormIsCanonical(Round(x));
    } else {
      UnpackedForm(0);
      assert ToMpi(0) == [] && Cut([]) == [] && Round(0) == 0;
    }
  }

  /** What is lost is less than the weight of the third byte of the form; nothing is when there are at most three. */
  lemma CompactLoss(x: int)
    requires x > 0
    ensures
      var n := |ToMpi(x)|;
      Round(x) <= x && if n <= 3 then Round(x) == x else x < Round(x) + Pow(256, n - 3)
  {
    RoundIsCut(x);
    FormIsCanonical(x);
    var m := ToMpi(x);
    if |m| > 3 {
      var low := m[3..];
      assert m == m[..3] + low;
      ValueSplit(m[..3], low, 256);
      ValueSplit(m[..3], Zeros(|low|), 256);
      assert Zeros(|low|) + [] == Zeros(|low|);
      ZerosAddNothing(|low|, [], 256);
      ValueNonNegative(low, 256);
      ValueBelow(low, 256);
    }
  }

  // ---------------------------------------------------------------- order

  lemma SizeLower(m: Bytes)
    requires Canonical(m)
    ensures |m| >= 2 ==> Value(m, 256) >= 0x80 * Pow(256, |m| - 2)
  {
    if |m| >= 2 {
      var rest := m[1..];
      assert m == [m[0]] + rest;
      HeadValue(m[0], rest);
      ValueNonNegative(rest, 256);
      PowPositive(256, |m| - 2);
      if m[0] == 0 {
        HeadLower(rest);
      } else {
        TimesMono(1, m[0], Pow(256, |m| - 1));
        OneMore(|m| - 2);
      }
    }
  }

  lemma OneMore(n: nat)
    ensures Pow(256, n + 1) == 256 * Pow(256, n)
  {
  }

  /** A number is at least what its first byte weighs. */
  lemma HeadLower(m: Bytes)
    requires InBase(m, 256) && m != [] && m[0] >= 0x80
    ensures Value(m, 256) >= 0x80 * Pow(256, |m| - 1)
  {
    var rest := m[1..];
    assert m == [m[0]] + rest;
    HeadValue(m[0], rest);
    ValueNonNegative(rest, 256);
    PowPositive(256, |rest|);
    TimesMono(0x80, m[0], Pow(256, |rest|));
  }

  lemma SizeUpper(m: Bytes)
    requires Canonical(m)
    ensures Value(m, 256) < 0x80 * Pow(256, |m| - 1)
  {
    var rest := m[1..];
    assert m == [m[0]] + rest;
    HeadValue(m[0], rest);
    ValueBelow(rest, 256);
    PowPositive(256, |rest|);
    TimesMono(m[0], 0x7F, Pow(256, |rest|));
  }

  lemma LongerIsLarger(a: Bytes, b: Bytes)
    requires Canonical(a) && Canonical(b) && |b| < |a|
    ensures Value(b, 256) < Value(a, 256)
  {
    SizeLower(a);
    SizeUpper(b);
    PowGrows(256, |b| - 1, |a| - 2);
  }

  /** A larger number has a form at least as long. */
  lemma SizeGrows(a: Bytes, b: Bytes)
    requires Canonical(a) && Canonical(b) && Value(a, 256) <= Value(b, 256)
    ensures |a| <= |b|
  {
    if |b| < |a| {
      LongerIsLarger(a, b);
    }
  }

  lemma ThreeValue(m: Bytes)
    requires InBase(m, 256) && |m| >= 3
    ensures
      var v := Three(m)[0] * 0x10000 + Three(m)[1] * 0x100 + Three(m)[2];
      v * Pow(256, |m| - 3) <= Value(m, 256) < (v + 1) * Pow(256, |m| - 3)
  {
    var high, low := m[..3], m[3..];
    assert m == high + low;
    ValueSplit(high, low, 256);
    ThreeBytes(high);
    ValueNonNegative(low, 256);
    ValueBelow(low, 256);
    Between(Value(high, 256), Pow(256, |low|), Value(low, 256));
  }

  lemma ThreeBytes(h: Bytes)
    requires |h| == 3
    ensures Value(h, 256) == h[0] * 0x10000 + h[1] * 0x100 + h[2]
  {
    assert h == [h[0]] + [h[1]] + [h[2]];
    ValueAppend([h[0]] + [h[1]], h[2], 256);
    ValueAppend([h[0]], h[1], 256);
    OneByte(h[0]);
  }

  lemma Between(h: int, p: int, l: int)
    requires 0 <= l < p
    ensures h * p <= h * p + l < (h + 1) * p
  {
  }

  lemma SmallerTop(v: int, w: int, p: int, x: int, y: int)
    requires p >= 1 && v * p <= x && y < (w + 1) * p && x <= y
    ensures v <= w
  {
    if w < v {
      TimesMono(w + 1, v, p);
    }
  }

  lemma ShortValue(m: Bytes)
    requires InBase(m, 256) && 1 <= |m| <= 2
    ensures Value(m, 256) == if |m| == 1 then m[0] else m[0] * 256 + m[1]
  {
    OneByte(m[0]);
    if |m| == 2 {
      assert m == [m[0]] + [m[1]];
      ValueAppend([m[0]], m[1], 256);
    } else {
      assert m == [m[0]];
    }
  }

  lemma PackedGrows(a: Bytes, b: Bytes)
    requires Canonical(a) && Canonical(b) && Value(a, 256) <= Value(b, 256)
    ensures Packed(a) <= Packed(b)
  {
    SizeGrows(a, b);
    if |a| == |b| {
      if |a| >= 3 {
        ThreeValue(a);
        ThreeValue(b);
        PowPositive(256, |a| - 3);
        SmallerTop(Three(a)[0] * 0x10000 + Three(a)[1] * 0x100 + Three(a)[2],
                   Three(b)[0] * 0x10000 + Three(b)[1] * 0x100 + Three(b)[2],
                   Pow(256, |a| - 3), Value(a, 256), Value(b, 256));
      } else {
        ShortValue(a);
        ShortValue(b);
      }
    }
  }

  /** The compact form keeps the order of numbers, and so does going through it. */
  lemma CompactMonotone(x: int, y: int)
    requires 0 <= x <= y
    ensures GetCompact(x) <= GetCompact(y) && Round(x) <= Round(y)
  {
    CompactOrder(x, y);
    if Round(y) < Round(x) {
      SameCompact(x, y);
    }
  }

  lemma SameCompact(x: int, y: int)
    requires 0 <= x <= y && Round(y) <= Round(x)
    ensures GetCompact(x) == GetCompact(y)
  {
    CompactIdempotent(x);
    CompactIdempotent(y);
    RoundBelow(x);
    CompactOrder(Round(y), Round(x));
    CompactOrder(Round(x), y);
  }

  /** A form of at most 255 bytes fits the 32-bit word. */
  lemma CompactFits(x: int)
    requires |ToMpi(x)| <= 255
    ensures 0 <= GetCompact(x) < 0x1_0000_0000
  {
    MpiRoundTrip(x);
  }

  lemma RoundBelow(x: int)
    requires x >= 0
    ensures 0 <= Round(x) <= x
  {
    CompactIdempotent(x);
    if x > 0 {
      CompactLoss(x);
    } else {
      UnpackedForm(0);
    }
  }

  lemma CompactOrder(x: int, y: int)
    requires 0 <= x <= y
    ensures GetCompact(x) <= GetCompact(y)
  {
    if x > 0 {
      FormIsCanonical(x);
      FormIsCanonical(y);
      PackedGrows(ToMpi(x), ToMpi(y));
    } else {
      assert ToMpi(0) == [];
      UnpackedForm(y);
    }
  }
}
