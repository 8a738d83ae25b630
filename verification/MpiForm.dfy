/** The byte form and the compact form of big integers as arithmetic on the number. */
module MpiForm {
  import opened Mpi
  import opened Positional

  /** The size of the byte form: a number of `n` bytes has a highest bit to spare, and would not fit fewer. */
  predicate HasSize(x: nat, n: nat) {
    n >= 1 && x < 0x80 * Pow(256, n - 1) && (if n >= 2 then x >= 0x80 * Pow(256, n - 2) else x >= 1)
  }

  lemma SizeOf(m: Bytes)
    requires Canonical(m)
    ensures Value(m, 256) > 0 && HasSize(Value(m, 256), |m|)
  {
    CanonicalIsForm(m);
    SizeUpper(m);
    SizeLower(m);
  }

  lemma OneSize(x: nat, n: nat, k: nat)
    requires HasSize(x, n) && HasSize(x, k)
    ensures n == k
  {
    if n < k {
      PowGrows(256, n - 1, k - 2);
    } else if k < n {
      PowGrows(256, k - 1, n - 2);
    }
  }

  /** The byte form: the sign is the highest bit, the rest is the magnitude, the highest byte first, and the form is
      the shortest with room for the sign. */
  lemma {:induction false} FormIs(x: int)
    ensures
      var m := ToMpi(x);
      && (m == [] <==> x == 0)
      && (x != 0 ==>
            && InBase(m, 256) && (m[0] >= 0x80 <==> x < 0)
            && Value([m[0] % 0x80] + m[1..], 256) == (if x < 0 then -x else x)
            && HasSize(if x < 0 then -x else x, |m|))
  {
    MpiRoundTrip(x);
    if x != 0 {
      var y := Magnitude(x);
      DigitsSign(y, x < 0);
      MagnitudeOf(x);
      FormIsCanonical(y);
      SizeOf(ToMpi(y));
    }
  }

  /** The form of a negative number is that of its magnitude with the highest bit set. */
  lemma DigitsSign(y: nat, negative: bool)
    requires y > 0
    ensures
      var m, p := WithSign(Digits(y, 256), negative), WithSign(Digits(y, 256), false);
      m != [] && |m| == |p| && m[1..] == p[1..] && p[0] < 0x80 && m[0] == p[0] + if negative then 0x80 else 0
  {
  }

  /** The compact form of a positive number: its size, and its highest 24 bits with the sign bit in front. */
  lemma {:induction false} GetCompactIs(x: nat, n: nat)
    requires HasSize(x, n)
    ensures GetCompact(x) == n * 0x100_0000 + if n >= 3 then x / Pow(256, n - 3) else x * Pow(256, 3 - n)
  {
    var m := ToMpi(x);
    FormIsCanonical(x);
    SizeOf(m);
    OneSize(x, n, |m|);
    var t := Three(m);
    var v := t[0] * 0x10000 + t[1] * 0x100 + t[2];
    if n >= 3 {
      ThreeValue(m);
      PowPositive(256, n - 3);
      Quotient(x, Pow(256, n - 3), v);
    } else {
      FewBytes(m, 3 - n);
    }
  }

  lemma Quotient(x: nat, p: int, v: int)
    requires p >= 1 && v * p <= x < (v + 1) * p
    ensures x / p == v
  {
    var r := x - v * p;
    assert x == v * p + r && 0 <= r < p;
    assert x == p * (x / p) + x % p;
    var d := x / p - v;
    assert d * p == r - x % p;
    if d >= 1 { TimesMono(1, d, p); }
    if d <= -1 { TimesMono(d, -1, p); }
  }

  lemma FewBytes(m: Bytes, k: nat)
    requires 1 <= |m| <= 2 && k == 3 - |m|
    ensures Value(m, 256) * Pow(256, k) == Three(m)[0] * 0x10000 + Three(m)[1] * 0x100 + Three(m)[2]
  {
    assert Pow(256, 0) == 1 && Pow(256, 1) == 256 && Pow(256, 2) == 65536;
    if |m| == 1 {
      assert m == [m[0]];
      OneByte(m[0]);
    } else {
      assert m == [m[0]] + [m[1]];
      ValueAppend([m[0]], m[1], 256);
      OneByte(m[0]);
    }
  }

  lemma GetCompactNegative(x: int)
    requires x > 0
    ensures GetCompact(-x) == GetCompact(x) + 0x80_0000 && GetCompact(0) == 0
  {
    DigitsSign(x, true);
  }

  /** The magnitude of a compact number: its highest `size` bytes when it has fewer than three. */
  function Shifted(mantissa: nat, size: nat): int {
    if size == 0 then 0 else if size == 1 then mantissa / 0x1_0000 else if size == 2 then mantissa / 0x100
    else mantissa * Pow(256, size - 3)
  }

  /** What a compact number stands for: 23 bits of magnitude shifted by its size, and a sign. */
  lemma {:induction false} SetCompactIs(c: nat, size: nat, v: int)
    requires size == c / 0x100_0000 && v == Shifted(c % 0x80_0000, size)
    ensures SetCompact(c) == if c / 0x80_0000 % 2 == 1 then -v else v
  {
    var a, b, d := c / 0x10000 % 0x100, c / 0x100 % 0x100, c % 0x100;
    ThreeFields(c, size, a, b, d);
    SignRead(Unpacked(c));
    UnpackedValue([a % 0x80, b, d], c % 0x80_0000, size);
    if size >= 1 {
      assert [Unpacked(c)[0] % 0x80] + Unpacked(c)[1..]
          == if size <= 3 then [a % 0x80, b, d][..size] else [a % 0x80, b, d] + Zeros(size - 3);
    }
  }

  lemma ThreeFields(c: nat, e: nat, a: int, b: int, d: int)
    requires e == c / 0x100_0000 && a == c / 0x10000 % 0x100 && b == c / 0x100 % 0x100 && d == c % 0x100
    ensures c % 0x80_0000 == a % 0x80 * 0x10000 + b * 0x100 + d
    ensures a >= 0x80 <==> c / 0x80_0000 % 2 == 1
  {
    FourFields(c, e, a, b, d);
    SevenBits(c, e, a / 0x80, a % 0x80, b * 0x100 + d);
  }

  lemma FourFields(c: nat, e: nat, a: int, b: int, d: int)
    requires e == c / 0x100_0000 && a == c / 0x10000 % 0x100 && b == c / 0x100 % 0x100 && d == c % 0x100
    ensures c == e * 0x100_0000 + a * 0x10000 + b * 0x100 + d
  {
    DivTwice(c);
    var q, r := c / 0x100, c / 0x10000;
    assert c == 0x100 * q + d;
    assert q == 0x100 * r + b;
    assert r == 0x100 * e + a;
  }

  lemma DivTwice(c: nat)
    ensures c / 0x100 / 0x100 == c / 0x10000 && c / 0x10000 / 0x100 == c / 0x100_0000
  {
  }

  lemma SevenBits(c: int, e: int, top: int, l: int, low: int)
    requires c == e * 0x100_0000 + top * 0x80_0000 + l * 0x10000 + low && 0 <= top < 2 && 0 <= l < 0x80 && 0 <= low < 0x10000
    ensures c % 0x80_0000 == l * 0x10000 + low && c / 0x80_0000 % 2 == top
  {
    assert c / 0x80_0000 == 2 * e + top;
  }

  lemma SignRead(m: Bytes)
    requires m != [] ==> 0 <= m[0] < 0x100
    ensures m != [] ==> FromMpi(m) == (if m[0] >= 0x80 then -Value([m[0] % 0x80] + m[1..], 256) else Value([m[0] % 0x80] + m[1..], 256))
    ensures m == [] ==> FromMpi(m) == 0
  {
    if m != [] && m[0] < 0x80 {
      assert [m[0] % 0x80] + m[1..] == m;
    }
  }

  lemma UnpackedValue(t: Bytes, mantissa: nat, size: nat)
    requires |t| == 3 && InBase(t, 256) && mantissa == t[0] * 0x10000 + t[1] * 0x100 + t[2]
    ensures Value(if size <= 3 then t[..size] else t + Zeros(size - 3), 256) == Shifted(mantissa, size)
  {
    ThreeBytes(t);
    if size > 3 {
      ValueSplit(t, Zeros(size - 3), 256);
      assert Zeros(size - 3) + [] == Zeros(size - 3);
      ZerosAddNothing(size - 3, [], 256);
    } else if size == 3 {
      assert t[..size] == t;
    } else if size > 0 {
      ShortValue(t[..size]);
    }
  }
}
