/** Positional notation in any base: values, digits, a change of base, and how long it makes a number. */
module Positional {
  // ---------------------------------------------------------------- positional notation

  predicate InBase(ds: seq<int>, base: int) { forall i :: 0 <= i < |ds| ==> 0 <= ds[i] < base }

  /** Most significant digit first. */
  function Value(ds: seq<int>, base: int): int {
    if ds == [] then 0 else Value(ds[..|ds| - 1], base) * base + ds[|ds| - 1]
  }

  function Digits(n: nat, base: int): (ds: seq<int>)
    requires base >= 2
    ensures InBase(ds, base)
    ensures ds == [] <==> n == 0
    decreases n
  {
    if n == 0 then [] else
    assert n / base < n by { Shrinks(n, base); }
    Digits(n / base, base) + [n % base]
  }

  lemma Shrinks(n: nat, base: int)
    requires n > 0 && base >= 2
    ensures 0 <= n / base < n
  {
    var q := n / base;
    assert n == q * base + n % base;
    assert q >= 0;
    TimesMono(2, base, q);
  }

  lemma TimesMono(a: int, b: int, c: int)
    requires a <= b && c >= 0
    ensures a * c <= b * c
  {
  }

  function Zeros(n: nat): (z: seq<int>)
    ensures |z| == n && forall i :: 0 <= i < n ==> z[i] == 0
  {
    seq(n, _ => 0)
  }

  function Leading(ds: seq<int>): (n: nat)
    ensures n <= |ds| && (forall i :: 0 <= i < n ==> ds[i] == 0) && (n < |ds| ==> ds[n] != 0)
  {
    if ds == [] || ds[0] != 0 then 0 else 1 + Leading(ds[1..])
  }

  lemma {:induction false} ValueNonNegative(ds: seq<int>, base: int)
    requires InBase(ds, base) && base >= 2
    ensures Value(ds, base) >= 0
  {
    if ds != [] {
      ValueNonNegative(ds[..|ds| - 1], base);
      TimesMono(0, Value(ds[..|ds| - 1], base), base);
    }
  }

  lemma ValueAppend(ds: seq<int>, d: int, base: int)
    ensures Value(ds + [d], base) == Value(ds, base) * base + d
  {
    assert (ds + [d])[..|ds|] == ds;
  }

  lemma DivModSum(n: nat, base: int)
    requires base >= 2
    ensures n / base * base + n % base == n
  {
  }

  lemma {:induction false} ValueOfDigits(n: nat, base: int)
    requires base >= 2
    ensures Value(Digits(n, base), base) == n
    decreases n
  {
    if n > 0 {
      Shrinks(n, base);
      ValueOfDigits(n / base, base);
      ValueAppend(Digits(n / base, base), n % base, base);
      DivModSum(n, base);
    }
  }

  lemma DivMod(q: int, r: int, base: int)
    requires base >= 2 && 0 <= r < base && q >= 0
    ensures (q * base + r) / base == q && (q * base + r) % base == r
  {
    var x := q * base + r;
    assert x == x / base * base + x % base;
    var d := x / base - q;
    assert d * base == r - x % base;
    if d >= 1 { TimesMono(1, d, base); }
    if d <= -1 { TimesMono(d, -1, base); }
  }

  /** Digits without a leading zero are the digits of their value. */
  lemma {:induction false} DigitsOfValue(ds: seq<int>, base: int)
    requires base >= 2 && InBase(ds, base) && (ds != [] ==> ds[0] != 0)
    ensures Value(ds, base) >= 0 && Digits(Value(ds, base), base) == ds
  {
    ValueNonNegative(ds, base);
    if ds != [] {
      var front, r := ds[..|ds| - 1], ds[|ds| - 1];
      DigitsOfValue(front, base);
      var q := Value(front, base);
      DivMod(q, r, base);
      if q == 0 {
        assert front == [];
      } else {
        TimesMono(1, q, base);
      }
      assert ds == front + [r];
    }
  }

  lemma {:induction false} ZerosAddNothing(z: nat, ds: seq<int>, base: int)
    ensures Value(Zeros(z) + ds, base) == Value(ds, base)
  {
    var all := Zeros(z) + ds;
    if ds != [] {
      assert all[..|all| - 1] == Zeros(z) + ds[..|ds| - 1];
      ZerosAddNothing(z, ds[..|ds| - 1], base);
    } else if z > 0 {
      assert all[..|all| - 1] == Zeros(z - 1) + [];
      ZerosAddNothing(z - 1, [], base);
    } else {
      assert all == [];
    }
  }

  lemma {:induction false} LeadingOf(z: nat, ds: seq<int>)
    requires ds != [] ==> ds[0] != 0
    ensures Leading(Zeros(z) + ds) == z
  {
    var all := Zeros(z) + ds;
    if z > 0 {
      assert all[1..] == Zeros(z - 1) + ds;
      LeadingOf(z - 1, ds);
    } else {
      assert all == ds;
    }
  }

  // ---------------------------------------------------------------- a change of base

  function Convert(ds: seq<int>, from: int, to: int): (r: seq<int>)
    requires from >= 2 && to >= 2 && InBase(ds, from)
    ensures InBase(r, to)
  {
    ValueNonNegative(ds, from);
    Zeros(Leading(ds)) + Digits(Value(ds, from), to)
  }

  lemma DigitsHead(n: nat, base: int)
    requires base >= 2
    ensures Digits(n, base) != [] ==> Digits(n, base)[0] != 0
    decreases n
  {
    if n > 0 {
      Shrinks(n, base);
      DigitsHead(n / base, base);
      if n / base == 0 {
        assert n == n / base * base + n % base;
      }
    }
  }

  /** Converting there and back is the identity, for every string of digits. */
  lemma ConvertInverts(ds: seq<int>, from: int, to: int)
    requires from >= 2 && to >= 2 && InBase(ds, from)
    ensures Convert(Convert(ds, from, to), to, from) == ds
  {
    var z := Leading(ds);
    var core := ds[z..];
    assert ds == Zeros(z) + core;
    ZerosAddNothing(z, core, from);
    ValueNonNegative(ds, from);
    var v := Value(ds, from);
    var e := Digits(v, to);
    DigitsHead(v, to);
    LeadingOf(z, e);
    ZerosAddNothing(z, e, to);
    ValueOfDigits(v, to);
    DigitsOfValue(core, from);
  }

  // ---------------------------------------------------------------- the length bound

  function Pow(b: int, n: nat): int { if n == 0 then 1 else b * Pow(b, n - 1) }

  lemma {:induction false} PowPositive(b: int, n: nat)
    requires b >= 1
    ensures Pow(b, n) >= 1
  {
    if n > 0 {
      PowPositive(b, n - 1);
      TimesMono(1, b, Pow(b, n - 1));
    }
  }

  lemma {:induction false} PowAdd(b: int, m: nat, n: nat)
    ensures Pow(b, m + n) == Pow(b, m) * Pow(b, n)
  {
    if m > 0 {
      PowAdd(b, m - 1, n);
      assert b * (Pow(b, m - 1) * Pow(b, n)) == (b * Pow(b, m - 1)) * Pow(b, n);
    }
  }

  lemma {:induction false} PowMono(a: int, b: int, n: nat)
    requires 0 <= a <= b
    ensures 0 <= Pow(a, n) <= Pow(b, n)
  {
    if n > 0 {
      PowMono(a, b, n - 1);
      TimesMono(a, b, Pow(a, n - 1));
      TimesMono(Pow(a, n - 1), Pow(b, n - 1), b);
      TimesMono(0, a, Pow(a, n - 1));
    }
  }

  lemma {:induction false} PowPow(b: int, m: nat, n: nat)
    ensures Pow(Pow(b, m), n) == Pow(b, m * n)
  {
    if n > 0 {
      PowPow(b, m, n - 1);
      assert m * n == m + m * (n - 1);
      PowAdd(b, m, m * (n - 1));
    }
  }

  lemma DigitBelow(v: int, p: int, d: int, base: int)
    requires v < p && d < base && base >= 1
    ensures v * base + d < p * base && v * base + d < base * p
  {
    TimesMono(v, p - 1, base);
  }

  lemma {:induction false} ValueBelow(ds: seq<int>, base: int)
    requires base >= 2 && InBase(ds, base)
    ensures Value(ds, base) < Pow(base, |ds|)
  {
    if ds != [] {
      var front := ds[..|ds| - 1];
      ValueBelow(front, base);
      DigitBelow(Value(front, base), Pow(base, |front|), ds[|ds| - 1], base);
    }
  }

  lemma {:induction false} ValueAtLeast(ds: seq<int>, base: int)
    requires base >= 2 && InBase(ds, base) && ds != [] && ds[0] != 0
    ensures Value(ds, base) >= Pow(base, |ds| - 1)
  {
    if |ds| > 1 {
      var front := ds[..|ds| - 1];
      ValueAtLeast(front, base);
      TimesMono(Pow(base, |front| - 1), Value(front, base), base);
    } else {
      assert ds[..0] == [];
    }
  }

  /** Eight bytes need at most eleven digits: 256^8 <= 58^11. */
  lemma EightInEleven()
    ensures Pow(256, 8) <= Pow(58, 11)
  {
    assert Pow(256, 2) == 65536;
    PowAdd(256, 2, 2);
    PowAdd(256, 4, 4);
    assert Pow(58, 2) == 3364;
    assert Pow(58, 3) == 195112;
    PowAdd(58, 3, 2);
    PowAdd(58, 3, 3);
    PowAdd(58, 6, 5);
  }

  /** A number of `m` bytes has at most m * 138 / 100 + 1 digits. */
  lemma DigitsBound(v: nat, m: nat)
    requires v < Pow(256, m)
    ensures |Digits(v, 58)| <= m * 138 / 100 + 1
  {
    var ds := Digits(v, 58);
    if ds != [] {
      DigitsHead(v, 58);
      ValueOfDigits(v, 58);
      ValueAtLeast(ds, 58);
      var k := |ds| - 1;
      assert Pow(58, k) < Pow(256, m);
      if 8 * k > 11 * m {
        TooMany(k, m);
      }
      assert 8 * k <= 11 * m;
    }
  }

  lemma EighthPowers(k: nat, m: nat, e: nat)
    requires e == 8 && e * k > 11 * m
    ensures Pow(256, e * m) <= Pow(58, e * k)
  {
    EightInEleven();
    PowPositive(256, e);
    PowMono(Pow(256, e), Pow(58, 11), m);
    PowPow(256, e, m);
    PowPow(58, 11, m);
    var d := e * k - 11 * m;
    PowAdd(58, 11 * m, d);
    PowPositive(58, d);
    PowPositive(58, 11 * m);
    TimesMono(1, Pow(58, d), Pow(58, 11 * m));
  }

  lemma TooMany(k: nat, m: nat)
    requires 8 * k > 11 * m
    ensures Pow(58, k) >= Pow(256, m)
  {
    var e := 8;
    EighthPowers(k, m, e);
    PowPow(58, k, e);
    PowPow(256, m, e);
    assert k * e == e * k && m * e == e * m;
    PowPositive(58, k);
    PowPositive(256, m);
    RootMono(Pow(256, m), Pow(58, k), e);
  }

  lemma RootMono(a: int, b: int, n: nat)
    requires a >= 0 && b >= 0 && n > 0 && Pow(a, n) <= Pow(b, n)
    ensures a <= b
  {
    if b < a {
      PowStrict(b, a, n);
    }
  }

  lemma {:induction false} PowStrict(a: int, b: int, n: nat)
    requires 0 <= a < b && n > 0
    ensures Pow(a, n) < Pow(b, n)
  {
    if n == 1 {
      assert Pow(a, 0) == 1 && Pow(b, 0) == 1;
    } else {
      PowStrict(a, b, n - 1);
      PowMono(0, a, n - 1);
      TimesMono(a, b - 1, Pow(a, n - 1));
      TimesMono(Pow(a, n - 1) + 1, Pow(b, n - 1), b);
    }
  }

  lemma ProductGrows(x: int, y: int)
    requires x >= 0 && y >= 1
    ensures x <= x * y && x <= y * x
  {
  }

  lemma PowGrows(b: int, m: nat, n: nat)
    requires b >= 1
    ensures m <= n ==> Pow(b, m) <= Pow(b, n)
  {
    if m <= n {
      PowAdd(b, m, n - m);
      PowPositive(b, n - m);
      PowPositive(b, m);
      ProductGrows(Pow(b, m), Pow(b, n - m));
    }
  }

  // ---------------------------------------------------------------- numbers of a fixed width

  /** The `w` lowest digits of a number, highest first. */
  function Fixed(n: nat, w: nat, base: int): (r: seq<int>)
    requires base >= 2
    ensures |r| == w && InBase(r, base)
  {
    if w == 0 then [] else
    QuotientNonNegative(n, base);
    Fixed(n / base, w - 1, base) + [n % base]
  }

  lemma QuotientNonNegative(n: nat, base: int)
    requires base >= 2
    ensures n / base >= 0
  {
    if n > 0 {
      Shrinks(n, base);
    }
  }

  lemma {:induction false} FixedOfValue(ds: seq<int>, base: int)
    requires base >= 2 && InBase(ds, base)
    ensures Value(ds, base) >= 0 && Fixed(Value(ds, base), |ds|, base) == ds
  {
    ValueNonNegative(ds, base);
    if ds != [] {
      var front := ds[..|ds| - 1];
      FixedOfValue(front, base);
      DivMod(Value(front, base), ds[|ds| - 1], base);
      assert ds == front + [ds[|ds| - 1]];
    }
  }

  lemma QuotientBelow(n: nat, base: int, p: int)
    requires base >= 2 && n < base * p
    ensures n / base < p
  {
    DivModSum(n, base);
    if n / base >= p {
      TimesMono(p, n / base, base);
    }
  }

  lemma {:induction false} ValueOfFixed(n: nat, w: nat, base: int)
    requires base >= 2 && n < Pow(base, w)
    ensures Value(Fixed(n, w, base), base) == n
  {
    if w > 0 {
      QuotientBelow(n, base, Pow(base, w - 1));
      QuotientNonNegative(n, base);
      ValueOfFixed(n / base, w - 1, base);
      ValueAppend(Fixed(n / base, w - 1, base), n % base, base);
      DivModSum(n, base);
    }
  }

  lemma {:induction false} ValueSplit(a: seq<int>, b: seq<int>, base: int)
    ensures Value(a + b, base) == Value(a, base) * Pow(base, |b|) + Value(b, base)
  {
    if b == [] {
      assert a + b == a;
    } else {
      var front, z := b[..|b| - 1], b[|b| - 1];
      ValueSplit(a, front, base);
      assert (a + b)[..|a + b| - 1] == a + front;
      Regroup(Value(a, base), base, Pow(base, |front|), Value(front, base));
    }
  }

  lemma Regroup(v: int, b: int, p: int, f: int)
    ensures (v * p + f) * b == v * (b * p) + f * b
  {
    assert v * (b * p) == (v * p) * b;
  }
}
