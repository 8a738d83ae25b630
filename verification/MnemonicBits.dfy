/** Bits inside bytes: reading one, setting one, and where they stand in a row of bytes. */
module MnemonicBits {
  import opened Positional
  import opened Mnemonic

  /** n >> k. */
  function Shift(n: nat, k: nat): nat { if k == 0 then n else Shift(n / 2, k - 1) }

  predicate Naturals(ns: seq<int>) { forall i :: 0 <= i < |ns| ==> ns[i] >= 0 }

  /** The digit at place `k` from the top is what a shift brings to the bottom. */
  lemma {:induction false} BitOfFixed(n: nat, w: nat, k: nat)
    requires k < w
    ensures Fixed(n, w, 2)[k] == Shift(n, w - 1 - k) % 2
  {
    if k < w - 1 {
      BitOfFixed(n / 2, w - 1, k);
    }
  }

  /** Where a bit stands in a row of groups. */
  lemma {:induction false} JoinAt(ns: seq<int>, w: nat, i: nat, k: nat)
    requires Naturals(ns) && i < |ns| && k < w
    ensures 0 <= w * i + k < w * |ns| && Join(ns, w)[w * i + k] == Fixed(ns[i], w, 2)[k]
  {
    var front := ns[..|ns| - 1];
    assert w * |ns| == w * |front| + w;
    if i < |front| {
      JoinAt(front, w, i, k);
    } else {
      assert w * i == w * |front|;
    }
  }

  lemma BitOfJoin(ns: seq<int>, w: nat, i: nat, k: nat)
    requires Naturals(ns) && i < |ns| && k < w
    ensures 0 <= w * i + k < w * |ns| && Join(ns, w)[w * i + k] == Shift(ns[i], w - 1 - k) % 2
  {
    JoinAt(ns, w, i, k);
    BitOfFixed(ns[i], w, k);
  }

  lemma Place(pos: nat)
    ensures 0 <= pos % 8 < 8 && pos == 8 * (pos / 8) + pos % 8
  {
  }

  /** (buf[pos / 8] >> (7 - pos % 8)) & 1. */
  method BitAt(buf: seq<int>, pos: nat) returns (b: int)
    requires Naturals(buf) && pos < 8 * |buf|
    ensures b == Join(buf, 8)[pos]
  {
    var byte, off := pos / 8, 7 - pos % 8;
    Place(pos);
    b := BitOf(buf, 8, byte, off);
  }

  method BitOf(buf: seq<int>, w: nat, byte: nat, off: nat) returns (b: int)
    requires Naturals(buf) && byte < |buf| && off < w
    ensures 0 <= w * byte + (w - 1 - off) < w * |buf| && b == Join(buf, w)[w * byte + (w - 1 - off)]
  {
    BitOfJoin(buf, w, byte, w - 1 - off);
    b := Shift(buf[byte], off) % 2;
  }

  lemma HalfAdd(n: nat, p: nat)
    ensures (n + 2 * p) / 2 == n / 2 + p && (n + 2 * p) % 2 == n % 2
  {
  }

  /** Setting a bit that is clear. */
  lemma {:induction false} SetInFixed(n: nat, w: nat, off: nat)
    requires off < w && Fixed(n, w, 2)[w - 1 - off] == 0
    ensures Pow(2, off) >= 1 && Fixed(n + Pow(2, off), w, 2) == Fixed(n, w, 2)[w - 1 - off := 1]
  {
    PowPositive(2, off);
    if off == 0 {
      assert (n + 1) / 2 == n / 2 && (n + 1) % 2 == 1;
    } else {
      SetInFixed(n / 2, w - 1, off - 1);
      HalfAdd(n, Pow(2, off - 1));
    }
  }

  /** It does not leave the group. */
  lemma {:induction false} SetBelow(n: nat, w: nat, off: nat)
    requires off < w && Fixed(n, w, 2)[w - 1 - off] == 0 && n < Pow(2, w)
    ensures n + Pow(2, off) < Pow(2, w)
  {
    if off > 0 {
      SetBelow(n / 2, w - 1, off - 1);
    }
  }

  lemma {:induction false} JoinSet(ns: seq<int>, w: nat, i: nat, k: nat, z: int)
    requires Naturals(ns) && i < |ns| && k < w && z >= 0 && Fixed(z, w, 2) == Fixed(ns[i], w, 2)[k := 1]
    ensures 0 <= w * i + k < w * |ns| && Join(ns[i := z], w) == Join(ns, w)[w * i + k := 1]
  {
    var last := |ns| - 1;
    var front := ns[..last];
    assert ns == front + [ns[last]];
    JoinAppend(front, ns[last], w);
    LastGroup(w, |ns|);
    if i < last {
      JoinSet(front, w, i, k, z);
      assert ns[i := z] == front[i := z] + [ns[last]];
      JoinAppend(front[i := z], ns[last], w);
      SetInFirst(Join(front, w), Fixed(ns[last], w, 2), w * i + k);
    } else {
      assert ns[i := z] == front + [z];
      JoinAppend(front, z, w);
      SetInSecond(Join(front, w), Fixed(ns[last], w, 2), k);
    }
  }

  lemma LastGroup(w: nat, n: nat)
    requires n > 0
    ensures w * n == w * (n - 1) + w
  {
  }

  lemma SetInFirst(a: seq<int>, b: seq<int>, k: nat)
    requires k < |a|
    ensures a[k := 1] + b == (a + b)[k := 1]
  {
  }

  lemma SetInSecond(a: seq<int>, b: seq<int>, k: nat)
    requires k < |b|
    ensures a + b[k := 1] == (a + b)[|a| + k := 1]
  {
  }

  /** buf[pos / 8] |= 1 << (7 - pos % 8), when that bit is clear. */
  method SetBit(buf: seq<int>, pos: nat) returns (r: seq<int>)
    requires InBase(buf, 256) && pos < 8 * |buf| && Join(buf, 8)[pos] == 0
    ensures |r| == |buf| && InBase(r, 256) && Join(r, 8) == Join(buf, 8)[pos := 1]
  {
    var byte, off := pos / 8, 7 - pos % 8;
    Place(pos);
    PowEleven(11, 8);
    r := SetOf(buf, 8, byte, off);
  }

  method SetOf(buf: seq<int>, w: nat, byte: nat, off: nat) returns (r: seq<int>)
    requires InBase(buf, Pow(2, w)) && byte < |buf| && off < w
    requires 0 <= w * byte + (w - 1 - off) < w * |buf| && Join(buf, w)[w * byte + (w - 1 - off)] == 0
    ensures |r| == |buf| && InBase(r, Pow(2, w)) && Join(r, w) == Join(buf, w)[w * byte + (w - 1 - off) := 1]
  {
    SetWorks(buf, w, byte, off);
    r := buf[byte := buf[byte] + Pow(2, off)];
  }

  lemma SetWorks(buf: seq<int>, w: nat, byte: nat, off: nat)
    requires InBase(buf, Pow(2, w)) && byte < |buf| && off < w
    requires 0 <= w * byte + (w - 1 - off) < w * |buf| && Join(buf, w)[w * byte + (w - 1 - off)] == 0
    ensures
      var r := buf[byte := buf[byte] + Pow(2, off)];
      InBase(r, Pow(2, w)) && Join(r, w) == Join(buf, w)[w * byte + (w - 1 - off) := 1]
  {
    SetStays(buf, w, byte, off);
    SetInJoin(buf, w, byte, w - 1 - off);
    assert w - 1 - (w - 1 - off) == off;
  }

  lemma SetStays(buf: seq<int>, w: nat, byte: nat, off: nat)
    requires InBase(buf, Pow(2, w)) && byte < |buf| && off < w
    requires 0 <= w * byte + (w - 1 - off) < w * |buf| && Join(buf, w)[w * byte + (w - 1 - off)] == 0
    ensures 0 <= buf[byte] + Pow(2, off) < Pow(2, w)
  {
    JoinAt(buf, w, byte, w - 1 - off);
    SetBelow(buf[byte], w, off);
    PowPositive(2, off);
  }

  lemma SetInJoin(ns: seq<int>, w: nat, i: nat, k: nat)
    requires Naturals(ns) && i < |ns| && k < w && 0 <= w * i + k < w * |ns| && Join(ns, w)[w * i + k] == 0
    ensures Pow(2, w - 1 - k) >= 1
    ensures Join(ns[i := ns[i] + Pow(2, w - 1 - k)], w) == Join(ns, w)[w * i + k := 1]
  {
    JoinAt(ns, w, i, k);
    SetInFixed(ns[i], w, w - 1 - k);
    JoinSet(ns, w, i, k, ns[i] + Pow(2, w - 1 - k));
  }

  lemma {:induction false} JoinPrefix(ns: seq<int>, w: nat, k: nat)
    requires Naturals(ns) && k <= |ns|
    ensures 0 <= w * k <= w * |ns| && Join(ns[..k], w) == Join(ns, w)[..w * k]
  {
    var front := ns[..|ns| - if ns == [] then 0 else 1];
    if k < |ns| {
      assert w * |ns| == w * |front| + w;
      JoinPrefix(front, w, k);
      assert front[..k] == ns[..k];
    } else {
      assert ns[..k] == ns;
    }
  }

  lemma {:induction false} JoinZeros(n: nat, w: nat)
    ensures w * n >= 0 && Join(Zeros(n), w) == Zeros(w * n)
  {
    if n > 0 {
      JoinZeros(n - 1, w);
      assert Zeros(n) == Zeros(n - 1) + [0];
      JoinAppend(Zeros(n - 1), 0, w);
      FixedZero(w);
      MoreZeros(w, n);
    }
  }

  lemma MoreZeros(w: nat, n: nat)
    requires n > 0
    ensures w * (n - 1) >= 0 && w * n >= 0 && Zeros(w * (n - 1)) + Zeros(w) == Zeros(w * n)
  {
    assert w * n == w * (n - 1) + w;
  }

  lemma {:induction false} FixedZero(w: nat)
    ensures Fixed(0, w, 2) == Zeros(w)
  {
    if w > 0 {
      FixedZero(w - 1);
    }
  }
}
