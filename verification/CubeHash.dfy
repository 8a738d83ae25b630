/**
CubeHash.  The reference round swaps words four times; the engine never swaps: two unrolled rounds name
other words instead, and after the second one the words are back in place.
*/
module CubeHash {

  /** The word arithmetic: the theorems hold for any. */
  datatype Alu<!W> = Alu(add: (W, W) -> W, rot7: W -> W, rot11: W -> W, xor: (W, W) -> W)

  // ---------------------------------------------------------------- the reference

  /** The index with the bit of weight `m` flipped. */
  function Flip(i: nat, m: nat): nat
    requires Weight(m)
  {
    if HasBit(i, m) then (if i >= m then i - m else 0) else i + m
  }

  predicate HasBit(i: nat, m: nat)
    requires Weight(m)
  {
    match m
    case 1 => i % 2 == 1
    case 2 => i % 4 >= 2
    case 4 => 4 <= i < 8 || 12 <= i < 16
    case 8 => 8 <= i < 16
  }

  predicate Weight(m: nat) { m == 1 || m == 2 || m == 4 || m == 8 }

  lemma FlipTwice(i: nat, m: nat)
    requires Weight(m) && i < 16
    ensures Flip(i, m) < 16 && Flip(Flip(i, m), m) == i
  {
  }

  predicate Words<W>(s: seq<W>) { |s| == 32 }

  /** Swap within the first sixteen words. */
  function SwapLow<W>(s: seq<W>, m: nat): (r: seq<W>)
    requires Words(s) && Weight(m)
    ensures Words(r)
  {
    seq(32, i requires 0 <= i < 32 => if i < 16 then s[Flip(i, m)] else s[i])
  }

  /** Swap within the last sixteen words. */
  function SwapHigh<W>(s: seq<W>, m: nat): (r: seq<W>)
    requires Words(s) && Weight(m)
    ensures Words(r)
  {
    seq(32, i requires 0 <= i < 32 => if i < 16 then s[i] else s[16 + Flip(i - 16, m)])
  }

  /** Add the first half into the second and rotate the first. */
  function AddRotate<W>(s: seq<W>, add: (W, W) -> W, rot: W -> W): (r: seq<W>)
    requires Words(s)
    ensures Words(r)
  {
    seq(32, i requires 0 <= i < 32 => if i < 16 then rot(s[i]) else add(s[i - 16], s[i]))
  }

  /** Xor the second half into the first. */
  function XorLow<W>(s: seq<W>, xor: (W, W) -> W): (r: seq<W>)
    requires Words(s)
    ensures Words(r)
  {
    seq(32, i requires 0 <= i < 32 => if i < 16 then xor(s[i], s[i + 16]) else s[i])
  }

  function HalfRound<W>(s: seq<W>, alu: Alu<W>): (r: seq<W>)
    requires Words(s)
    ensures Words(r)
  {
    SwapHigh(XorLow(SwapLow(AddRotate(s, alu.add, alu.rot7), 8), alu.xor), 2)
  }

  function Round<W>(s: seq<W>, alu: Alu<W>): (r: seq<W>)
    requires Words(s)
    ensures Words(r)
  {
    SwapHigh(XorLow(SwapLow(AddRotate(HalfRound(s, alu), alu.add, alu.rot11), 4), alu.xor), 1)
  }

  // ---------------------------------------------------------------- the reference, word by word

  /** Half a round: add and rotate, swap, xor, swap. */
  lemma PassWords<W>(s: seq<W>, add: (W, W) -> W, rot: W -> W, xor: (W, W) -> W, m: nat, k: nat, i: nat)
    requires Words(s) && Weight(m) && Weight(k) && i < 16
    ensures
      var r := SwapHigh(XorLow(SwapLow(AddRotate(s, add, rot), m), xor), k);
      Flip(i, m) < 16 && Flip(i, k) < 16
      && r[i] == xor(rot(s[Flip(i, m)]), add(s[i], s[16 + i])) && r[16 + i] == add(s[Flip(i, k)], s[16 + Flip(i, k)])
  {
    FlipTwice(i, m);
    FlipTwice(i, k);
  }

  /** The first half of a round: sums go into the high words, and into the low words eight places off their own
      rotated by seven; the sums end two places off. */
  lemma HalfRoundWords<W>(s: seq<W>, alu: Alu<W>, i: nat, i8: nat, i2: nat)
    requires Words(s) && i < 16 && i8 < 16 && i2 < 16
    requires i8 == (if i < 8 then i + 8 else i - 8) && i2 == if i % 4 < 2 then i + 2 else i - 2
    ensures
      var r := HalfRound(s, alu);
      r[i] == alu.xor(alu.rot7(s[i8]), alu.add(s[i], s[16 + i])) && r[16 + i] == alu.add(s[i2], s[16 + i2])
  {
    PassWords(s, alu.add, alu.rot7, alu.xor, 8, 2, i);
    FlipsAre(i);
  }

  /** The second half: rotated by eleven, four places off, and the sums one place off. */
  lemma RoundWords<W>(s: seq<W>, u: seq<W>, alu: Alu<W>, i: nat, i4: nat, i1: nat)
    requires Words(s) && Words(u) && u == HalfRound(s, alu) && i < 16 && i4 < 16 && i1 < 16
    requires i4 == (if i % 8 < 4 then i + 4 else i - 4) && i1 == if i % 2 == 0 then i + 1 else i - 1
    ensures
      var r := Round(s, alu);
      r[i] == alu.xor(alu.rot11(u[i4]), alu.add(u[i], u[16 + i])) && r[16 + i] == alu.add(u[i1], u[16 + i1])
  {
    SecondHalf(s, u, alu);
    PassWords(u, alu.add, alu.rot11, alu.xor, 4, 1, i);
    FlipsAre(i);
  }

  lemma SecondHalf<W>(s: seq<W>, u: seq<W>, alu: Alu<W>)
    requires Words(s) && u == HalfRound(s, alu)
    ensures Round(s, alu) == SwapHigh(XorLow(SwapLow(AddRotate(u, alu.add, alu.rot11), 4), alu.xor), 1)
  {
  }

  lemma FlipsAre(i: nat)
    requires i < 16
    ensures Flip(i, 8) == (if i < 8 then i + 8 else i - 8) && Flip(i, 2) == (if i % 4 < 2 then i + 2 else i - 2)
    ensures Flip(i, 4) == (if i % 8 < 4 then i + 4 else i - 4) && Flip(i, 1) == (if i % 2 == 0 then i + 1 else i - 1)
  {
  }

  function Iterate<S>(f: S -> S, s: S, n: nat): S {
    if n == 0 then s else f(Iterate(f, s, n - 1))
  }

  function RoundOf<W>(alu: Alu<W>): seq<W> -> seq<W> {
    (s: seq<W>) => if Words(s) then Round(s, alu) else s
  }

  function Rounds<W>(s: seq<W>, n: nat, alu: Alu<W>): seq<W>
    requires Words(s)
  {
    Iterate(RoundOf(alu), s, n)
  }

  // ---------------------------------------------------------------- the engine's macros

  /** The pairs of words named by the first pass of ROUND_EVEN, in the order written there. */
  function Even0(i: nat): (nat, nat) {
    match i
    case 0 => (0, 16)
    case 1 => (1, 17)
    case 2 => (2, 18)
    case 3 => (3, 19)
    case 4 => (4, 20)
    case 5 => (5, 21)
    case 6 => (6, 22)
    case 7 => (7, 23)
    case 8 => (8, 24)
    case 9 => (9, 25)
    case 10 => (10, 26)
    case 11 => (11, 27)
    case 12 => (12, 28)
    case 13 => (13, 29)
    case 14 => (14, 30)
    case _ => (15, 31)
  }

  function Even1(i: nat): (nat, nat) {
    match i
    case 0 => (8, 16)
    case 1 => (9, 17)
    case 2 => (10, 18)
    case 3 => (11, 19)
    case 4 => (12, 20)
    case 5 => (13, 21)
    case 6 => (14, 22)
    case 7 => (15, 23)
    case 8 => (0, 24)
    case 9 => (1, 25)
    case 10 => (2, 26)
    case 11 => (3, 27)
    case 12 => (4, 28)
    case 13 => (5, 29)
    case 14 => (6, 30)
    case _ => (7, 31)
  }

  function Even2(i: nat): (nat, nat) {
    match i
    case 0 => (8, 18)
    case 1 => (9, 19)
    case 2 => (10, 16)
    case 3 => (11, 17)
    case 4 => (12, 22)
    case 5 => (13, 23)
    case 6 => (14, 20)
    case 7 => (15, 21)
    case 8 => (0, 26)
    case 9 => (1, 27)
    case 10 => (2, 24)
    case 11 => (3, 25)
    case 12 => (4, 30)
    case 13 => (5, 31)
    case 14 => (6, 28)
    case _ => (7, 29)
  }

  function Even3(i: nat): (nat, nat) {
    match i
    case 0 => (12, 18)
    case 1 => (13, 19)
    case 2 => (14, 16)
    case 3 => (15, 17)
    case 4 => (8, 22)
    case 5 => (9, 23)
    case 6 => (10, 20)
    case 7 => (11, 21)
    case 8 => (4, 26)
    case 9 => (5, 27)
    case 10 => (6, 24)
    case 11 => (7, 25)
    case 12 => (0, 30)
    case 13 => (1, 31)
    case 14 => (2, 28)
    case _ => (3, 29)
  }

  /** The pairs named by the passes of ROUND_ODD. */
  function Odd0(i: nat): (nat, nat) {
    match i
    case 0 => (12, 19)
    case 1 => (13, 18)
    case 2 => (14, 17)
    case 3 => (15, 16)
    case 4 => (8, 23)
    case 5 => (9, 22)
    case 6 => (10, 21)
    case 7 => (11, 20)
    case 8 => (4, 27)
    case 9 => (5, 26)
    case 10 => (6, 25)
    case 11 => (7, 24)
    case 12 => (0, 31)
    case 13 => (1, 30)
    case 14 => (2, 29)
    case _ => (3, 28)
  }

  function Odd1(i: nat): (nat, nat) {
    match i
    case 0 => (4, 19)
    case 1 => (5, 18)
    case 2 => (6, 17)
    case 3 => (7, 16)
    case 4 => (0, 23)
    case 5 => (1, 22)
    case 6 => (2, 21)
    case 7 => (3, 20)
    case 8 => (12, 27)
    case 9 => (13, 26)
    case 10 => (14, 25)
    case 11 => (15, 24)
    case 12 => (8, 31)
    case 13 => (9, 30)
    case 14 => (10, 29)
    case _ => (11, 28)
  }

  function Odd2(i: nat): (nat, nat) {
    match i
    case 0 => (4, 17)
    case 1 => (5, 16)
    case 2 => (6, 19)
    case 3 => (7, 18)
    case 4 => (0, 21)
    case 5 => (1, 20)
    case 6 => (2, 23)
    case 7 => (3, 22)
    case 8 => (12, 25)
    case 9 => (13, 24)
    case 10 => (14, 27)
    case 11 => (15, 26)
    case 12 => (8, 29)
    case 13 => (9, 28)
    case 14 => (10, 31)
    case _ => (11, 30)
  }

  function Odd3(i: nat): (nat, nat) {
    match i
    case 0 => (0, 17)
    case 1 => (1, 16)
    case 2 => (2, 19)
    case 3 => (3, 18)
    case 4 => (4, 21)
    case 5 => (5, 20)
    case 6 => (6, 23)
    case 7 => (7, 22)
    case 8 => (8, 25)
    case 9 => (9, 24)
    case 10 => (10, 27)
    case 11 => (11, 26)
    case 12 => (12, 29)
    case 13 => (13, 28)
    case 14 => (14, 31)
    case _ => (15, 30)
  }

  type Pairs = nat -> (nat, nat)

  ghost predicate Ranged(t: Pairs) { forall i :: 0 <= i < 16 ==> t(i).0 < 16 && 16 <= t(i).1 < 32 }

  /** One word of the first half and one of the second, each named once. */
  ghost predicate Tables(t: Pairs) {
    && Ranged(t)
    && (forall i, j :: 0 <= i < 16 && 0 <= j < 16 && t(i).0 == t(j).0 ==> i == j)
    && (forall i, j :: 0 <= i < 16 && 0 <= j < 16 && t(i).1 == t(j).1 ==> i == j)
  }

  /** The first `n` pairs of an add-and-rotate pass, one after the other. */
  ghost function AddPass<W>(x: seq<W>, t: Pairs, n: nat, add: (W, W) -> W, rot: W -> W): (r: seq<W>)
    requires Words(x) && Tables(t) && n <= 16
    ensures Words(r)
  {
    if n == 0 then x else
    var y, p := AddPass(x, t, n - 1, add, rot), t(n - 1);
    y[p.1 := add(y[p.0], y[p.1])][p.0 := rot(y[p.0])]
  }

  ghost function XorPass<W>(x: seq<W>, t: Pairs, n: nat, xor: (W, W) -> W): (r: seq<W>)
    requires Words(x) && Tables(t) && n <= 16
    ensures Words(r)
  {
    if n == 0 then x else
    var y, p := XorPass(x, t, n - 1, xor), t(n - 1);
    y[p.0 := xor(y[p.0], y[p.1])]
  }

  ghost function AddAll<W>(x: seq<W>, t: Pairs, add: (W, W) -> W, rot: W -> W): (r: seq<W>)
    requires Words(x) && Tables(t)
    ensures Words(r)
  {
    AddPass(x, t, |x| / 2, add, rot)
  }

  ghost function XorAll<W>(x: seq<W>, t: Pairs, xor: (W, W) -> W): (r: seq<W>)
    requires Words(x) && Tables(t)
    ensures Words(r)
  {
    XorPass(x, t, |x| / 2, xor)
  }

  // ---------------------------------------------------------------- the words as the reference sees them

  ghost function Seen<W>(x: seq<W>, t: Pairs): (r: seq<W>)
    requires Words(x) && Ranged(t)
    ensures Words(r)
  {
    seq(32, i requires 0 <= i < 32 => if i < 16 then x[t(i).0] else x[t(i - 16).1])
  }

  lemma {:induction false} AddPassAt<W>(x: seq<W>, t: Pairs, n: nat, add: (W, W) -> W, rot: W -> W, i: nat)
    requires Words(x) && Tables(t) && n <= 16 && i < 16
    ensures
      var y, p := AddPass(x, t, n, add, rot), t(i);
      && y[p.0] == (if i < n then rot(x[p.0]) else x[p.0])
      && y[p.1] == (if i < n then add(x[p.0], x[p.1]) else x[p.1])
  {
    if n > 0 {
      AddPassAt(x, t, n - 1, add, rot, i);
    }
  }

  /** The `i`-th pair of `t` names the words that stand at `i` in both halves of `s`. */
  ghost predicate At<W>(y: seq<W>, t: Pairs, s: seq<W>, i: nat)
    requires Words(y) && Ranged(t) && Words(s) && i < 16
  {
    y[t(i).0] == s[i] && y[t(i).1] == s[16 + i]
  }

  lemma SeenAt<W>(x: seq<W>, t: Pairs, i: nat)
    requires Words(x) && Ranged(t) && i < 16
    ensures At(x, t, Seen(x, t), i)
  {
  }

  lemma {:induction false} SeenIs<W>(y: seq<W>, t: Pairs, s: seq<W>)
    requires Words(y) && Ranged(t) && Words(s) && forall i :: 0 <= i < 16 ==> At(y, t, s, i)
    ensures Seen(y, t) == s
  {
    forall i | 0 <= i < 32 ensures Seen(y, t)[i] == s[i] {
      var k := if i < 16 then i else i - 16;
      SeenAt(y, t, k);
      assert At(y, t, s, k);
    }
  }

  lemma AddRotateAt<W>(x: seq<W>, t: Pairs, add: (W, W) -> W, rot: W -> W, i: nat)
    requires Words(x) && Tables(t) && i < 16
    ensures At(AddAll(x, t, add, rot), t, AddRotate(Seen(x, t), add, rot), i)
  {
    AddPassAt(x, t, |x| / 2, add, rot, i);
    SeenAt(x, t, i);
    var s := Seen(x, t);
    assert AddRotate(s, add, rot)[i] == rot(s[i]);
    assert AddRotate(s, add, rot)[16 + i] == add(s[16 + i - 16], s[16 + i]);
  }

  lemma AddPassIsAddRotate<W>(x: seq<W>, t: Pairs, add: (W, W) -> W, rot: W -> W)
    requires Words(x) && Tables(t)
    ensures Seen(AddAll(x, t, add, rot), t) == AddRotate(Seen(x, t), add, rot)
  {
    var y, s := AddAll(x, t, add, rot), AddRotate(Seen(x, t), add, rot);
    forall i | 0 <= i < 16 ensures At(y, t, s, i) {
      AddRotateAt(x, t, add, rot, i);
    }
    SeenIs(y, t, s);
  }

  lemma {:induction false} XorPassAt<W>(x: seq<W>, t: Pairs, n: nat, xor: (W, W) -> W, i: nat)
    requires Words(x) && Tables(t) && n <= 16 && i < 16
    ensures
      var y, p := XorPass(x, t, n, xor), t(i);
      y[p.0] == (if i < n then xor(x[p.0], x[p.1]) else x[p.0]) && y[p.1] == x[p.1]
  {
    if n > 0 {
      XorPassAt(x, t, n - 1, xor, i);
      XorPassAt(x, t, n - 1, xor, n - 1);
    }
  }

  lemma XorLowAt<W>(x: seq<W>, t: Pairs, xor: (W, W) -> W, i: nat)
    requires Words(x) && Tables(t) && i < 16
    ensures At(XorAll(x, t, xor), t, XorLow(Seen(x, t), xor), i)
  {
    XorPassAt(x, t, |x| / 2, xor, i);
    SeenAt(x, t, i);
    var s := Seen(x, t);
    assert XorLow(s, xor)[i] == xor(s[i], s[i + 16]);
    assert XorLow(s, xor)[16 + i] == s[16 + i];
  }

  lemma {:induction false} XorPassIsXorLow<W>(x: seq<W>, t: Pairs, xor: (W, W) -> W)
    requires Words(x) && Tables(t)
    ensures Seen(XorAll(x, t, xor), t) == XorLow(Seen(x, t), xor)
  {
    var y, s := XorAll(x, t, xor), XorLow(Seen(x, t), xor);
    forall i | 0 <= i < 16 ensures At(y, t, s, i) {
      XorLowAt(x, t, xor, i);
    }
    SeenIs(y, t, s);
  }

  /** `u` names for each index what `t` names for the index with one bit flipped: in the low half by
      `a`, in the high half by `b`, where 0 flips nothing. */
  ghost predicate Renames(t: Pairs, u: Pairs, a: nat, b: nat)
    requires (a == 0 || Weight(a)) && (b == 0 || Weight(b))
  {
    forall i :: 0 <= i < 16 ==> u(i).0 == t(Turned(i, a)).0 && u(i).1 == t(Turned(i, b)).1
  }

  function Turned(i: nat, m: nat): nat
    requires m == 0 || Weight(m)
  {
    if m == 0 then i else Flip(i, m)
  }

  lemma RenamesTables(t: Pairs, u: Pairs, a: nat, b: nat)
    requires (a == 0 || Weight(a)) && (b == 0 || Weight(b)) && Tables(t) && Renames(t, u, a, b)
    ensures Tables(u)
  {
    forall i | 0 <= i < 16 ensures u(i).0 < 16 && 16 <= u(i).1 < 32 {
      TurnedTwice(i, a);
      TurnedTwice(i, b);
      assert t(Turned(i, a)).0 < 16 && 16 <= t(Turned(i, b)).1;
    }
    forall i, j | 0 <= i < 16 && 0 <= j < 16
      ensures u(i).0 == u(j).0 ==> i == j
      ensures u(i).1 == u(j).1 ==> i == j
    {
      RenamedApart(t, u, a, b, i, j);
    }
  }

  lemma RenamedApart(t: Pairs, u: Pairs, a: nat, b: nat, i: nat, j: nat)
    requires (a == 0 || Weight(a)) && (b == 0 || Weight(b)) && Tables(t) && Renames(t, u, a, b) && i < 16 && j < 16
    ensures u(i).0 == u(j).0 ==> i == j
    ensures u(i).1 == u(j).1 ==> i == j
  {
    TurnedApart(i, j, a);
    TurnedApart(i, j, b);
  }

  lemma TurnedApart(i: nat, j: nat, m: nat)
    requires i < 16 && j < 16 && (m == 0 || Weight(m))
    ensures Turned(i, m) < 16 && Turned(j, m) < 16 && (Turned(i, m) == Turned(j, m) ==> i == j)
  {
    TurnedTwice(i, m);
    TurnedTwice(j, m);
  }

  lemma TurnedTwice(i: nat, m: nat)
    requires i < 16 && (m == 0 || Weight(m))
    ensures Turned(i, m) < 16 && Turned(Turned(i, m), m) == i
  {
    if m != 0 { FlipTwice(i, m); }
  }

  lemma {:induction false} SwapLowAt<W>(x: seq<W>, t: Pairs, u: Pairs, m: nat, i: nat)
    requires Words(x) && Ranged(t) && Ranged(u) && Weight(m) && i < 16
    requires u(i).0 == t(Flip(i, m)).0 && u(i).1 == t(i).1
    ensures At(x, u, SwapLow(Seen(x, t), m), i)
  {
    FlipTwice(i, m);
    SeenAt(x, t, i);
    SeenAt(x, t, Flip(i, m));
    var s := Seen(x, t);
    assert SwapLow(s, m)[i] == s[Flip(i, m)] && SwapLow(s, m)[16 + i] == s[16 + i];
  }

  /** Renaming stands for swapping. */
  lemma {:induction false} SwapLowSeen<W>(x: seq<W>, t: Pairs, u: Pairs, m: nat)
    requires Words(x) && Ranged(t) && Ranged(u) && Weight(m) && Renames(t, u, m, 0)
    ensures SwapLow(Seen(x, t), m) == Seen(x, u)
  {
    var s := SwapLow(Seen(x, t), m);
    forall i | 0 <= i < 16 ensures At(x, u, s, i) {
      SwapLowAt(x, t, u, m, i);
    }
    SeenIs(x, u, s);
  }

  lemma {:induction false} SwapHighAt<W>(x: seq<W>, t: Pairs, u: Pairs, m: nat, i: nat)
    requires Words(x) && Ranged(t) && Ranged(u) && Weight(m) && i < 16
    requires u(i).0 == t(i).0 && u(i).1 == t(Flip(i, m)).1
    ensures At(x, u, SwapHigh(Seen(x, t), m), i)
  {
    FlipTwice(i, m);
    SeenAt(x, t, i);
    SeenAt(x, t, Flip(i, m));
    var s := Seen(x, t);
    assert SwapHigh(s, m)[i] == s[i] && SwapHigh(s, m)[16 + i] == s[16 + Flip(i, m)];
  }

  lemma {:induction false} SwapHighSeen<W>(x: seq<W>, t: Pairs, u: Pairs, m: nat)
    requires Words(x) && Ranged(t) && Ranged(u) && Weight(m) && Renames(t, u, 0, m)
    ensures SwapHigh(Seen(x, t), m) == Seen(x, u)
  {
    var s := SwapHigh(Seen(x, t), m);
    forall i | 0 <= i < 16 ensures At(x, u, s, i) {
      SwapHighAt(x, t, u, m, i);
    }
    SeenIs(x, u, s);
  }

  // ---------------------------------------------------------------- one macro is one round

  /** The four passes of a macro. */
  ghost function Macro<W>(x: seq<W>, t0: Pairs, t1: Pairs, t2: Pairs, t3: Pairs, alu: Alu<W>): (r: seq<W>)
    requires Words(x) && Tables(t0) && Tables(t1) && Tables(t2) && Tables(t3)
    ensures Words(r)
  {
    var a := AddAll(x, t0, alu.add, alu.rot7);
    var b := XorAll(a, t1, alu.xor);
    var c := AddAll(b, t2, alu.add, alu.rot11);
    XorAll(c, t3, alu.xor)
  }

  /** The tables of a macro follow the swaps of the reference round; `t4` is where it leaves the words. */
  ghost predicate Follows(t0: Pairs, t1: Pairs, t2: Pairs, t3: Pairs, t4: Pairs) {
    Renames(t0, t1, 8, 0) && Renames(t1, t2, 0, 2) && Renames(t2, t3, 4, 0) && Renames(t3, t4, 0, 1)
  }

  lemma {:induction false} FollowsTables(t0: Pairs, t1: Pairs, t2: Pairs, t3: Pairs, t4: Pairs)
    requires Tables(t0) && Follows(t0, t1, t2, t3, t4)
    ensures Tables(t1) && Tables(t2) && Tables(t3) && Tables(t4)
  {
    RenamesTables(t0, t1, 8, 0);
    RenamesTables(t1, t2, 0, 2);
    RenamesTables(t2, t3, 4, 0);
    RenamesTables(t3, t4, 0, 1);
  }

  /** Half a macro: an add-and-rotate pass, then a xor pass. */
  lemma {:induction false} HalfMacro<W>(x: seq<W>, t: Pairs, u: Pairs, v: Pairs, m: nat, k: nat, alu: Alu<W>, rot: W -> W)
    requires Words(x) && Tables(t) && Tables(u) && Tables(v) && Weight(m) && Weight(k)
    requires Renames(t, u, m, 0) && Renames(u, v, 0, k)
    ensures Seen(XorAll(AddAll(x, t, alu.add, rot), u, alu.xor), v)
         == SwapHigh(XorLow(SwapLow(AddRotate(Seen(x, t), alu.add, rot), m), alu.xor), k)
  {
    var a := AddAll(x, t, alu.add, rot);
    AddPassIsAddRotate(x, t, alu.add, rot);
    SwapLowSeen(a, t, u, m);
    XorPassIsXorLow(a, u, alu.xor);
    SwapHighSeen(XorAll(a, u, alu.xor), u, v, k);
  }

  lemma {:induction false} MacroIsRound<W>(x: seq<W>, t0: Pairs, t1: Pairs, t2: Pairs, t3: Pairs, t4: Pairs, alu: Alu<W>)
    requires Words(x) && Follows(t0, t1, t2, t3, t4)
    requires Tables(t0) && Tables(t1) && Tables(t2) && Tables(t3) && Tables(t4)
    ensures Seen(Macro(x, t0, t1, t2, t3, alu), t4) == Round(Seen(x, t0), alu)
  {
    HalfMacro(x, t0, t1, t2, 8, 2, alu, alu.rot7);
    HalfMacro(XorAll(AddAll(x, t0, alu.add, alu.rot7), t1, alu.xor), t2, t3, t4, 4, 1, alu, alu.rot11);
  }

  lemma Even1Renames()
    ensures Renames(Even0, Even1, 8, 0)
  {
    forall i | 0 <= i < 16 ensures Even1(i).0 == Even0(Turned(i, 8)).0 && Even1(i).1 == Even0(Turned(i, 0)).1 {
    }
  }

  lemma Even2Renames()
    ensures Renames(Even1, Even2, 0, 2)
  {
    forall i | 0 <= i < 16 ensures Even2(i).0 == Even1(Turned(i, 0)).0 && Even2(i).1 == Even1(Turned(i, 2)).1 {
    }
  }

  lemma Even3Renames()
    ensures Renames(Even2, Even3, 4, 0)
  {
    forall i | 0 <= i < 16 ensures Even3(i).0 == Even2(Turned(i, 4)).0 && Even3(i).1 == Even2(Turned(i, 0)).1 {
    }
  }

  lemma Odd0Renames()
    ensures Renames(Even3, Odd0, 0, 1)
  {
    forall i | 0 <= i < 16 ensures Odd0(i).0 == Even3(Turned(i, 0)).0 && Odd0(i).1 == Even3(Turned(i, 1)).1 {
    }
  }

  lemma Odd1Renames()
    ensures Renames(Odd0, Odd1, 8, 0)
  {
    forall i | 0 <= i < 16 ensures Odd1(i).0 == Odd0(Turned(i, 8)).0 && Odd1(i).1 == Odd0(Turned(i, 0)).1 {
    }
  }

  lemma Odd2Renames()
    ensures Renames(Odd1, Odd2, 0, 2)
  {
    forall i | 0 <= i < 16 ensures Odd2(i).0 == Odd1(Turned(i, 0)).0 && Odd2(i).1 == Odd1(Turned(i, 2)).1 {
    }
  }

  lemma Odd3Renames()
    ensures Renames(Odd2, Odd3, 4, 0)
  {
    forall i | 0 <= i < 16 ensures Odd3(i).0 == Odd2(Turned(i, 4)).0 && Odd3(i).1 == Odd2(Turned(i, 0)).1 {
    }
  }

  lemma Even0Renames()
    ensures Renames(Odd3, Even0, 0, 1)
  {
    forall i | 0 <= i < 16 ensures Even0(i).0 == Odd3(Turned(i, 0)).0 && Even0(i).1 == Odd3(Turned(i, 1)).1 {
    }
  }

  lemma Even0InPlace(i: nat)
    requires i < 16
    ensures Even0(i) == (i, 16 + i)
  {
  }

  lemma StartTables()
    ensures Tables(Even0)
  {
    forall i | 0 <= i < 16 ensures Even0(i) == (i, 16 + i) { Even0InPlace(i); }
  }

  lemma {:induction false} EvenTables()
    ensures Follows(Even0, Even1, Even2, Even3, Odd0)
    ensures Tables(Even0) && Tables(Even1) && Tables(Even2) && Tables(Even3) && Tables(Odd0)
  {
    StartTables();
    Even1Renames();
    Even2Renames();
    Even3Renames();
    Odd0Renames();
    FollowsTables(Even0, Even1, Even2, Even3, Odd0);
  }

  lemma {:induction false} OddTables()
    ensures Follows(Odd0, Odd1, Odd2, Odd3, Even0)
    ensures Tables(Odd0) && Tables(Odd1) && Tables(Odd2) && Tables(Odd3) && Tables(Even0)
  {
    EvenTables();
    Odd1Renames();
    Odd2Renames();
    Odd3Renames();
    Even0Renames();
    FollowsTables(Odd0, Odd1, Odd2, Odd3, Even0);
  }

  ghost function RoundEven<W>(x: seq<W>, alu: Alu<W>): (r: seq<W>)
    requires Words(x)
    ensures Words(r)
  {
    EvenTables();
    Macro(x, Even0, Even1, Even2, Even3, alu)
  }

  ghost function RoundOdd<W>(x: seq<W>, alu: Alu<W>): (r: seq<W>)
    requires Words(x)
    ensures Words(r)
  {
    OddTables();
    Macro(x, Odd0, Odd1, Odd2, Odd3, alu)
  }

  /** Two unrolled rounds without swaps are two reference rounds. */
  lemma {:induction false} EvenOddIsTwoRounds<W>(x: seq<W>, alu: Alu<W>)
    requires Words(x)
    ensures RoundOdd(RoundEven(x, alu), alu) == Round(Round(x, alu), alu)
  {
    EvenTables();
    OddTables();
    var y := RoundEven(x, alu);
    MacroIsRound(x, Even0, Even1, Even2, Even3, Odd0, alu);
    MacroIsRound(y, Odd0, Odd1, Odd2, Odd3, Even0, alu);
    SeenInPlace(x);
    SeenInPlace(RoundOdd(y, alu));
  }

  lemma SeenInPlace<W>(x: seq<W>)
    requires Words(x) && Tables(Even0)
    ensures Seen(x, Even0) == x
  {
    forall i | 0 <= i < 16 ensures Even0(i) == (i, 16 + i) { Even0InPlace(i); }
  }

  // ---------------------------------------------------------------- the engine in place

  /** Four passes over the words of `x`, in place. */
  method RunMacro<W>(x: array<W>, t0: Pairs, t1: Pairs, t2: Pairs, t3: Pairs, alu: Alu<W>)
    requires x.Length == 32 && Tables(t0) && Tables(t1) && Tables(t2) && Tables(t3)
    modifies x
    ensures x[..] == Macro(old(x[..]), t0, t1, t2, t3, alu)
  {
    RunAdd(x, t0, alu.add, alu.rot7);
    RunXor(x, t1, alu.xor);
    RunAdd(x, t2, alu.add, alu.rot11);
    RunXor(x, t3, alu.xor);
  }

  method RunAdd<W>(x: array<W>, t: Pairs, add: (W, W) -> W, rot: W -> W)
    requires x.Length == 32 && Tables(t)
    modifies x
    ensures x[..] == AddAll(old(x[..]), t, add, rot)
  {
    for i := 0 to 16
      invariant x[..] == AddPass(old(x[..]), t, i, add, rot)
    {
      var p := t(i);
      x[p.1] := add(x[p.0], x[p.1]);
      x[p.0] := rot(x[p.0]);
    }
  }

  method RunXor<W>(x: array<W>, t: Pairs, xor: (W, W) -> W)
    requires x.Length == 32 && Tables(t)
    modifies x
    ensures x[..] == XorAll(old(x[..]), t, xor)
  {
    for i := 0 to 16
      invariant x[..] == XorPass(old(x[..]), t, i, xor)
    {
      var p := t(i);
      x[p.0] := xor(x[p.0], x[p.1]);
    }
  }

  /** `e` and `o` are what the two macros do to the words. */
  ghost predicate Engine<W(!new)>(e: seq<W> -> seq<W>, o: seq<W> -> seq<W>, alu: Alu<W>) {
    && (forall x: seq<W> {:trigger RoundEven(x, alu)} :: Words(x) ==> e(x) == RoundEven(x, alu))
    && (forall x: seq<W> {:trigger RoundOdd(x, alu)} :: Words(x) ==> o(x) == RoundOdd(x, alu))
  }

  method RunEven<W>(x: array<W>, alu: Alu<W>)
    requires x.Length == 32
    modifies x
    ensures x[..] == RoundEven(old(x[..]), alu)
  {
    EvenTables();
    RunMacro(x, Even0, Even1, Even2, Even3, alu);
  }

  method RunEvenAs<W(!new)>(x: array<W>, alu: Alu<W>, ghost e: seq<W> -> seq<W>, ghost o: seq<W> -> seq<W>)
    requires x.Length == 32 && Engine(e, o, alu)
    modifies x
    ensures x[..] == e(old(x[..]))
  {
    RunEven(x, alu);
  }

  method RunOdd<W>(x: array<W>, alu: Alu<W>)
    requires x.Length == 32
    modifies x
    ensures x[..] == RoundOdd(old(x[..]), alu)
  {
    OddTables();
    RunMacro(x, Odd0, Odd1, Odd2, Odd3, alu);
  }

  method RunOddAs<W(!new)>(x: array<W>, alu: Alu<W>, ghost e: seq<W> -> seq<W>, ghost o: seq<W> -> seq<W>)
    requires x.Length == 32 && Engine(e, o, alu)
    modifies x
    ensures x[..] == o(old(x[..]))
  {
    RunOdd(x, alu);
  }

  ghost function EvenOf<W>(alu: Alu<W>): seq<W> -> seq<W> { (x: seq<W>) => if Words(x) then RoundEven(x, alu) else x }

  ghost function OddOf<W>(alu: Alu<W>): seq<W> -> seq<W> { (x: seq<W>) => if Words(x) then RoundOdd(x, alu) else x }

  /** One pass of the loop body is `f` twice. */
  ghost predicate Doubles<W(!new)>(f: seq<W> -> seq<W>, e: seq<W> -> seq<W>, o: seq<W> -> seq<W>) {
    forall x: seq<W> :: Words(x) ==> o(e(x)) == f(f(x))
  }

  lemma {:induction false} EngineDoubles<W(!new)>(alu: Alu<W>)
    ensures Doubles(RoundOf(alu), EvenOf(alu), OddOf(alu)) && Engine(EvenOf(alu), OddOf(alu), alu)
  {
    var f, e, o := RoundOf(alu), EvenOf(alu), OddOf(alu);
    forall x: seq<W> | Words(x) ensures o(e(x)) == f(f(x)) {
      EvenOddIsTwoRounds(x, alu);
    }
  }

  lemma IterateTwice<S>(f: S -> S, s: S, n: nat)
    ensures Iterate(f, s, n + 2) == f(f(Iterate(f, s, n)))
  {
    assert Iterate(f, s, n + 2) == f(Iterate(f, s, n + 1));
  }

  method RunPairs<W(!new)>(x: array<W>, pairs: nat, alu: Alu<W>, ghost f: seq<W> -> seq<W>,
                           ghost e: seq<W> -> seq<W>, ghost o: seq<W> -> seq<W>)
    requires x.Length == 32 && Doubles(f, e, o) && Engine(e, o, alu)
    modifies x
    ensures x[..] == Iterate(f, old(x[..]), 2 * pairs)
  {
    for j := 0 to pairs
      invariant x[..] == Iterate(f, old(x[..]), 2 * j)
    {
      IterateTwice(f, old(x[..]), 2 * j);
      RunEvenAs(x, alu, e, o);
      RunOddAs(x, alu, e, o);
    }
  }

  /** Even and odd rounds in turn are reference rounds, from any state; SIXTEEN_ROUNDS has eight pairs. */
  method RunRounds<W(!new)>(x: array<W>, pairs: nat, alu: Alu<W>)
    requires x.Length == 32
    modifies x
    ensures x[..] == Rounds(old(x[..]), 2 * pairs, alu)
  {
    EngineDoubles(alu);
    RunPairs(x, pairs, alu, RoundOf(alu), EvenOf(alu), OddOf(alu));
  }

  function Add32(x: bv32, y: bv32): bv32 { x + y }

  function Xor32(x: bv32, y: bv32): bv32 { x ^ y }

  function Rotl7(x: bv32): bv32 { (x << 7) | (x >> 25) }

  function Rotl11(x: bv32): bv32 { (x << 11) | (x >> 21) }

  /** The arithmetic of the engine: 32-bit words. */
  const ALU32: Alu<bv32> := Alu(Add32, Rotl7, Rotl11, Xor32)

  const ROUNDS: nat := 16

  /** The engine rotates to the left by seven and by eleven places, and makes sixteen rounds. */
  lemma EngineArithmetic(x: bv32)
    ensures Rotated7(x, Rotl7(x)) && Rotated11(x, Rotl11(x)) && ROUNDS == 16
  {
    BySeven(x);
    ByEleven(x);
  }

  /** Sums are taken modulo 2^32. */
  lemma EngineSums(x: bv32, y: bv32)
    ensures Add32(x, y) == x + y && Xor32(x, y) == x ^ y
  {
  }

  /** The highest bits of `x` are the lowest of `r`, and the others move up. */
  predicate Rotated7(x: bv32, r: bv32) { r & 0x7F == x >> 25 && r >> 7 == x & 0x01FF_FFFF }

  predicate Rotated11(x: bv32, r: bv32) { r & 0x7FF == x >> 21 && r >> 11 == x & 0x001F_FFFF }

  lemma BySeven(x: bv32)
    ensures Rotated7(x, (x << 7) | (x >> 25))
  {
  }

  lemma ByEleven(x: bv32)
    ensures Rotated11(x, (x << 11) | (x >> 21))
  {
  }

  /** SIXTEEN_ROUNDS on the engine's own words. */
  method SixteenRounds(x: array<bv32>)
    requires x.Length == 32
    modifies x
    ensures x[..] == Rounds(old(x[..]), ROUNDS, ALU32)
  {
    var pairs := ROUNDS / 2;
    RunRounds(x, pairs, ALU32);
  }
}
