/**
Fugue-512.  The engine never moves its 36 words: three copies of the round use renamed words, and a
phase counter says which copy comes next.  The reference round rotates the words for real.
The substitution layer of SMIX is any function on four words.
*/
module Fugue {
  import opened Words

  type Word = bv32
  type Mixer = (Word, Word, Word, Word) -> (Word, Word, Word, Word)
  type State = s: seq<Word> | |s| == 36 witness seq(36, _ => 0)
  type Ix = i: nat | i < 36

  /** The macros, with the state words they name. */
  datatype Step =
    | Tix(x00: Ix, x01: Ix, x04: Ix, x07: Ix, x08: Ix, x22: Ix, x24: Ix, x27: Ix, x30: Ix)
    | Cmix(x00: Ix, x01: Ix, x02: Ix, x04: Ix, x05: Ix, x06: Ix, x18: Ix, x19: Ix, x20: Ix)
    | Smix(x0: Ix, x1: Ix, x2: Ix, x3: Ix)

  function Xor(s: State, d: Ix, x: Ix): State { s[d := s[d] ^ s[x]] }

  function Set(s: State, d: Ix, v: Word): State { s[d := v] }

  function DoTix(t: Step, s: State, q: Word): State
    requires t.Tix?
  {
    Xor(Xor(Xor(Xor(Set(Xor(s, t.x22, t.x00), t.x00, q), t.x08, t.x00), t.x01, t.x24), t.x04, t.x27), t.x07, t.x30)
  }

  function DoCmix(t: Step, s: State): State
    requires t.Cmix?
  {
    Xor(Xor(Xor(Xor(Xor(Xor(s, t.x00, t.x04), t.x01, t.x05), t.x02, t.x06), t.x18, t.x04), t.x19, t.x05), t.x20, t.x06)
  }

  function DoSmix(t: Step, s: State, mix: Mixer): State
    requires t.Smix?
  {
    var r := mix(s[t.x0], s[t.x1], s[t.x2], s[t.x3]);
    Set(Set(Set(Set(s, t.x0, r.0), t.x1, r.1), t.x2, r.2), t.x3, r.3)
  }

  function Pair(c: Step, m: Step, s: State, mix: Mixer): State
    requires c.Cmix? && m.Smix?
  {
    DoSmix(m, DoCmix(c, s), mix)
  }

  // ---------------------------------------------------------------- the reference

  const TIX := Tix(0, 1, 4, 7, 8, 22, 24, 27, 30)
  const CMIX := Cmix(0, 1, 2, 4, 5, 6, 18, 19, 20)
  const SMIX := Smix(0, 1, 2, 3)

  /** The last `n` words come to the front. */
  function Ror(s: State, n: nat): State
    requires n <= 36
  {
    s[36 - n..] + s[..36 - n]
  }

  function SubRound(s: State, mix: Mixer): State {
    Pair(CMIX, SMIX, Ror(s, 3), mix)
  }

  function FourSubRounds(s: State, mix: Mixer): State {
    SubRound(SubRound(SubRound(SubRound(s, mix), mix), mix), mix)
  }

  function Round(s: State, q: Word, mix: Mixer): State { FourSubRounds(DoTix(TIX, s, q), mix) }

  /** One more byte at the low end. */
  function Push(p: Word, b: Byte): Word { (p << 8) | (b as Word) }

  function FoldBytes(f: (Word, Byte) -> Word, bs: seq<Byte>): Word {
    if bs == [] then 0 else f(FoldBytes(f, bs[..|bs| - 1]), bs[|bs| - 1])
  }

  /** A big-endian word from its bytes, one at a time. */
  function Pack(bs: seq<Byte>): Word { FoldBytes(Push, bs) }

  /** A state folded over the first `w` four-byte words of a message. */
  function Fold<S>(f: (S, seq<Byte>) -> S, iv: S, msg: seq<Byte>, w: nat): S
    requires 4 * w <= |msg|
  {
    if w == 0 then iv else f(Fold(f, iv, msg, w - 1), msg[4 * w - 4..4 * w])
  }

  function RoundOf(mix: Mixer): (State, seq<Byte>) -> State {
    (s: State, word: seq<Byte>) => Round(s, Pack(word), mix)
  }

  /** The reference state after the first `w` words of a message. */
  function Absorb(iv: State, msg: seq<Byte>, w: nat, mix: Mixer): State
    requires 4 * w <= |msg|
  {
    Fold(RoundOf(mix), iv, msg, w)
  }

  // ---------------------------------------------------------------- the reference, word by word

  /** The input goes into words zero and eight, and four more words take another one in. */
  lemma TixInput(s: State, q: Word)
    ensures DoTix(TIX, s, q)[0] == q && DoTix(TIX, s, q)[8] == s[8] ^ q
  {
  }

  lemma TixWords(s: State, q: Word)
    ensures DoTix(TIX, s, q)[1] == s[1] ^ s[24] && DoTix(TIX, s, q)[4] == s[4] ^ s[27]
  {
  }

  lemma TixMoreWords(s: State, q: Word)
    ensures DoTix(TIX, s, q)[7] == s[7] ^ s[30] && DoTix(TIX, s, q)[22] == s[22] ^ s[0]
  {
  }

  lemma TixOthers(s: State, q: Word, i: Ix)
    requires i != 0 && i != 1 && i != 4 && i != 7 && i != 8 && i != 22
    ensures DoTix(TIX, s, q)[i] == s[i]
  {
  }

  /** Words four, five and six go into words zero, one and two ... */
  lemma CmixWords(s: State)
    ensures
      var r := DoCmix(CMIX, s);
      r[0] == s[0] ^ s[4] && r[1] == s[1] ^ s[5] && r[2] == s[2] ^ s[6]
  {
    var m := Xor(Xor(Xor(s, 0, 4), 1, 5), 2, 6);
    ThreeXors(s, 0, 1, 2);
    ThreeXors(m, 18, 19, 20);
    CmixThrees(s, m);
    LowWords(s, m, DoCmix(CMIX, s));
  }

  /** ... and into words 18, 19 and 20. */
  lemma CmixHighWords(s: State)
    ensures
      var r := DoCmix(CMIX, s);
      r[18] == s[18] ^ s[4] && r[19] == s[19] ^ s[5] && r[20] == s[20] ^ s[6]
  {
    var m := Xor(Xor(Xor(s, 0, 4), 1, 5), 2, 6);
    ThreeXors(s, 0, 1, 2);
    ThreeXors(m, 18, 19, 20);
    CmixThrees(s, m);
    HighWords(s, m, DoCmix(CMIX, s));
  }

  /** `r` is `s` with words four to six xored into three others. */
  predicate Xored(s: State, r: State, a: Ix, b: Ix, c: Ix) {
    && r[a] == s[a] ^ s[4] && r[b] == s[b] ^ s[5] && r[c] == s[c] ^ s[6]
    && forall i :: 0 <= i < 36 && i != a && i != b && i != c ==> r[i] == s[i]
  }

  lemma ThreeXors(s: State, a: Ix, b: Ix, c: Ix)
    requires a < b < c && (c < 4 || 6 < a)
    ensures Xored(s, Xor(Xor(Xor(s, a, 4), b, 5), c, 6), a, b, c)
  {
  }

  lemma CmixThrees(s: State, m: State)
    requires m == Xor(Xor(Xor(s, 0, 4), 1, 5), 2, 6)
    ensures DoCmix(CMIX, s) == Xor(Xor(Xor(m, 18, 4), 19, 5), 20, 6)
  {
  }

  lemma LowWords(s: State, m: State, r: State)
    requires Xored(s, m, 0, 1, 2) && Xored(m, r, 18, 19, 20)
    ensures r[0] == s[0] ^ s[4] && r[1] == s[1] ^ s[5] && r[2] == s[2] ^ s[6]
  {
  }

  lemma HighWords(s: State, m: State, r: State)
    requires Xored(s, m, 0, 1, 2) && Xored(m, r, 18, 19, 20)
    ensures r[18] == s[18] ^ s[4] && r[19] == s[19] ^ s[5] && r[20] == s[20] ^ s[6]
  {
  }

  lemma CmixOthers(s: State, i: Ix)
    requires i > 2 && i != 18 && i != 19 && i != 20
    ensures DoCmix(CMIX, s)[i] == s[i]
  {
  }

  lemma SmixWords(s: State, mix: Mixer)
    ensures
      var r := DoSmix(SMIX, s, mix);
      && (r[0], r[1], r[2], r[3]) == mix(s[0], s[1], s[2], s[3])
      && forall i :: 4 <= i < 36 ==> r[i] == s[i]
  {
  }

  lemma RorWords(s: State, i: Ix)
    ensures Ror(s, 3)[i] == if i < 3 then s[i + 33] else s[i - 3]
  {
  }

  /** A sub-round moves every word three places up, mixes three words into six, and puts four through `mix`. */
  lemma SubRoundWords(s: State, mix: Mixer)
    ensures
      var r := SubRound(s, mix);
      (r[0], r[1], r[2], r[3]) == mix(s[33] ^ s[1], s[34] ^ s[2], s[35] ^ s[3], s[0])
  {
    var a := Ror(s, 3);
    var c := DoCmix(CMIX, a);
    CmixWords(a);
    CmixOthers(a, 3);
    SmixWords(c, mix);
  }

  lemma SubRoundHighWords(s: State, mix: Mixer)
    ensures
      var r := SubRound(s, mix);
      r[18] == s[15] ^ s[1] && r[19] == s[16] ^ s[2] && r[20] == s[17] ^ s[3]
  {
    var a := Ror(s, 3);
    CmixHighWords(a);
    SmixWords(DoCmix(CMIX, a), mix);
  }

  lemma SubRoundOthers(s: State, mix: Mixer, i: Ix)
    requires i > 3 && i != 18 && i != 19 && i != 20
    ensures SubRound(s, mix)[i] == s[i - 3]
  {
    var a := Ror(s, 3);
    CmixOthers(a, i);
    SmixWords(DoCmix(CMIX, a), mix);
  }

  /** Four sub-rounds follow the input: words that nothing is mixed into end twelve places up. */
  lemma RoundMoves(s: State, q: Word, mix: Mixer, i: Ix)
    requires i == 5 || i == 21 || i == 23
    ensures Round(s, q, mix)[i + 12] == s[i]
  {
    var t := DoTix(TIX, s, q);
    var a := SubRound(t, mix);
    var b := SubRound(a, mix);
    var c := SubRound(b, mix);
    TixOthers(s, q, i);
    SubRoundOthers(t, mix, i + 3);
    SubRoundOthers(a, mix, i + 6);
    SubRoundOthers(b, mix, i + 9);
    SubRoundOthers(c, mix, i + 12);
  }

  // ---------------------------------------------------------------- renaming

  function Shift(i: Ix, k: Ix): Ix { if i + k < 36 then i + k else i + k - 36 }

  /** The state seen through a shift of all indices. */
  function Rot(s: State, k: Ix): State { seq(36, i requires 0 <= i < 36 => s[Shift(i, k)]) }

  function Rename(t: Step, k: Ix): Step {
    match t
    case Tix(a, b, c, d, e, f, g, h, i) =>
      Tix(Shift(a, k), Shift(b, k), Shift(c, k), Shift(d, k), Shift(e, k), Shift(f, k), Shift(g, k), Shift(h, k), Shift(i, k))
    case Cmix(a, b, c, d, e, f, g, h, i) =>
      Cmix(Shift(a, k), Shift(b, k), Shift(c, k), Shift(d, k), Shift(e, k), Shift(f, k), Shift(g, k), Shift(h, k), Shift(i, k))
    case Smix(a, b, c, d) => Smix(Shift(a, k), Shift(b, k), Shift(c, k), Shift(d, k))
  }

  lemma RotSet(s: State, k: Ix, d: Ix, v: Word)
    ensures Set(Rot(s, k), d, v) == Rot(Set(s, Shift(d, k), v), k)
  {
    forall i | 0 <= i < 36 ensures Set(Rot(s, k), d, v)[i] == Rot(Set(s, Shift(d, k), v), k)[i] {
    }
  }

  lemma RotXor(s: State, k: Ix, d: Ix, x: Ix)
    ensures Xor(Rot(s, k), d, x) == Rot(Xor(s, Shift(d, k), Shift(x, k)), k)
  {
    RotSet(s, k, d, s[Shift(d, k)] ^ s[Shift(x, k)]);
  }

  lemma RotTix(t: Step, s: State, k: Ix, q: Word)
    requires t.Tix?
    ensures DoTix(t, Rot(s, k), q) == Rot(DoTix(Rename(t, k), s, q), k)
  {
    var u := Rename(t, k);
    var s1 := Xor(s, u.x22, u.x00);
    RotXor(s, k, t.x22, t.x00);
    var s2 := Set(s1, u.x00, q);
    RotSet(s1, k, t.x00, q);
    var s3 := Xor(s2, u.x08, u.x00);
    RotXor(s2, k, t.x08, t.x00);
    var s4 := Xor(s3, u.x01, u.x24);
    RotXor(s3, k, t.x01, t.x24);
    var s5 := Xor(s4, u.x04, u.x27);
    RotXor(s4, k, t.x04, t.x27);
    RotXor(s5, k, t.x07, t.x30);
  }

  lemma RotCmix(t: Step, s: State, k: Ix)
    requires t.Cmix?
    ensures DoCmix(t, Rot(s, k)) == Rot(DoCmix(Rename(t, k), s), k)
  {
    var u := Rename(t, k);
    var s1 := Xor(s, u.x00, u.x04);
    RotXor(s, k, t.x00, t.x04);
    var s2 := Xor(s1, u.x01, u.x05);
    RotXor(s1, k, t.x01, t.x05);
    var s3 := Xor(s2, u.x02, u.x06);
    RotXor(s2, k, t.x02, t.x06);
    var s4 := Xor(s3, u.x18, u.x04);
    RotXor(s3, k, t.x18, t.x04);
    var s5 := Xor(s4, u.x19, u.x05);
    RotXor(s4, k, t.x19, t.x05);
    RotXor(s5, k, t.x20, t.x06);
  }

  lemma RotSmix(t: Step, s: State, k: Ix, mix: Mixer)
    requires t.Smix?
    ensures DoSmix(t, Rot(s, k), mix) == Rot(DoSmix(Rename(t, k), s, mix), k)
  {
    var u := Rename(t, k);
    var r := mix(s[u.x0], s[u.x1], s[u.x2], s[u.x3]);
    var s1 := Set(s, u.x0, r.0);
    RotSet(s, k, t.x0, r.0);
    var s2 := Set(s1, u.x1, r.1);
    RotSet(s1, k, t.x1, r.1);
    var s3 := Set(s2, u.x2, r.2);
    RotSet(s2, k, t.x2, r.2);
    RotSet(s3, k, t.x3, r.3);
  }

  lemma RorRot(s: State, k: Ix)
    ensures Ror(Rot(s, k), 3) == Rot(s, Shift(33, k))
  {
    var a, b := Ror(Rot(s, k), 3), Rot(s, Shift(33, k));
    forall i | 0 <= i < 36 ensures a[i] == b[i] {
      assert a[i] == s[Shift(Shift(i, 33), k)];
    }
  }

  /** One reference sub-round is the renamed pair of macros, seen three words further. */
  lemma {:induction false} RenamedSubRound(s: State, k: Ix, j: Ix, mix: Mixer)
    requires j == Shift(33, k)
    ensures SubRound(Rot(s, k), mix) == Rot(Pair(Rename(CMIX, j), Rename(SMIX, j), s, mix), j)
  {
    RorRot(s, k);
    RotCmix(CMIX, s, j);
    RotSmix(SMIX, DoCmix(Rename(CMIX, j), s), j, mix);
  }

  // ---------------------------------------------------------------- the three cases of the engine

  /** One case: TIX4, then four times CMIX36 and SMIX, each with the words it names. */
  datatype Plan = Plan(t: Step, c1: Step, m1: Step, c2: Step, m2: Step, c3: Step, m3: Step, c4: Step, m4: Step)

  function Case0(): Plan {
    Plan(Tix(0, 1, 4, 7, 8, 22, 24, 27, 30),
         Cmix(33, 34, 35, 1, 2, 3, 15, 16, 17), Smix(33, 34, 35, 0),
         Cmix(30, 31, 32, 34, 35, 0, 12, 13, 14), Smix(30, 31, 32, 33),
         Cmix(27, 28, 29, 31, 32, 33, 9, 10, 11), Smix(27, 28, 29, 30),
         Cmix(24, 25, 26, 28, 29, 30, 6, 7, 8), Smix(24, 25, 26, 27))
  }

  function Case1(): Plan {
    Plan(Tix(24, 25, 28, 31, 32, 10, 12, 15, 18),
         Cmix(21, 22, 23, 25, 26, 27, 3, 4, 5), Smix(21, 22, 23, 24),
         Cmix(18, 19, 20, 22, 23, 24, 0, 1, 2), Smix(18, 19, 20, 21),
         Cmix(15, 16, 17, 19, 20, 21, 33, 34, 35), Smix(15, 16, 17, 18),
         Cmix(12, 13, 14, 16, 17, 18, 30, 31, 32), Smix(12, 13, 14, 15))
  }

  function Case2(): Plan {
    Plan(Tix(12, 13, 16, 19, 20, 34, 0, 3, 6),
         Cmix(9, 10, 11, 13, 14, 15, 27, 28, 29), Smix(9, 10, 11, 12),
         Cmix(6, 7, 8, 10, 11, 12, 24, 25, 26), Smix(6, 7, 8, 9),
         Cmix(3, 4, 5, 7, 8, 9, 21, 22, 23), Smix(3, 4, 5, 6),
         Cmix(0, 1, 2, 4, 5, 6, 18, 19, 20), Smix(0, 1, 2, 3))
  }

  function Case(r: nat): Plan {
    if r == 0 then Case0() else if r == 1 then Case1() else Case2()
  }

  predicate Shaped(p: Plan) {
    && p.t.Tix? && p.c1.Cmix? && p.m1.Smix? && p.c2.Cmix? && p.m2.Smix?
    && p.c3.Cmix? && p.m3.Smix? && p.c4.Cmix? && p.m4.Smix?
  }

  function DoPairs(p: Plan, s: State, mix: Mixer): State
    requires Shaped(p)
  {
    Pair(p.c4, p.m4, Pair(p.c3, p.m3, Pair(p.c2, p.m2, Pair(p.c1, p.m1, s, mix), mix), mix), mix)
  }

  function DoCase(p: Plan, s: State, q: Word, mix: Mixer): State
    requires Shaped(p)
  {
    DoPairs(p, DoTix(p.t, s, q), mix)
  }

  /** Where the logical first word sits when the phase counter is `r`. */
  function Offset(r: nat): Ix { if r == 0 then 0 else if r == 1 then 24 else 12 }

  /** The plan that the reference round turns into under a shift. */
  function Renamed(k: Ix): Plan {
    var k1 := Shift(33, k);
    var k2 := Shift(33, k1);
    var k3 := Shift(33, k2);
    var k4 := Shift(33, k3);
    Plan(Rename(TIX, k), Rename(CMIX, k1), Rename(SMIX, k1), Rename(CMIX, k2), Rename(SMIX, k2),
         Rename(CMIX, k3), Rename(SMIX, k3), Rename(CMIX, k4), Rename(SMIX, k4))
  }

  lemma CaseIsRenamed(r: nat)
    requires r < 3
    ensures Case(r) == Renamed(Offset(r)) && Shaped(Case(r))
    ensures Shift(24, Offset(r)) == Offset(if r == 2 then 0 else r + 1)
  {
    if r == 0 {
      assert Case0() == Renamed(0);
    } else if r == 1 {
      assert Case1() == Renamed(24);
    } else {
      assert Case2() == Renamed(12);
    }
  }

  lemma RenamedTwice(s: State, k: Ix, j: Ix, i: Ix, mix: Mixer)
    requires j == Shift(33, k) && i == Shift(33, j)
    ensures SubRound(SubRound(Rot(s, k), mix), mix)
         == Rot(Pair(Rename(CMIX, i), Rename(SMIX, i), Pair(Rename(CMIX, j), Rename(SMIX, j), s, mix), mix), i)
  {
    RenamedSubRound(s, k, j, mix);
    RenamedSubRound(Pair(Rename(CMIX, j), Rename(SMIX, j), s, mix), j, i, mix);
  }

  lemma {:induction false} RenamedPairs(s: State, k: Ix, mix: Mixer)
    ensures FourSubRounds(Rot(s, k), mix) == Rot(DoPairs(Renamed(k), s, mix), Shift(24, k))
  {
    var k1 := Shift(33, k);
    var k2 := Shift(33, k1);
    var k3 := Shift(33, k2);
    var k4 := Shift(33, k3);
    FourPairs(Renamed(k), s, k, k1, k2, k3, k4, mix);
  }

  lemma FourPairs(p: Plan, s: State, k: Ix, k1: Ix, k2: Ix, k3: Ix, k4: Ix, mix: Mixer)
    requires k1 == Shift(33, k) && k2 == Shift(33, k1) && k3 == Shift(33, k2) && k4 == Shift(33, k3)
    requires p.c1 == Rename(CMIX, k1) && p.m1 == Rename(SMIX, k1) && p.c2 == Rename(CMIX, k2) && p.m2 == Rename(SMIX, k2)
    requires p.c3 == Rename(CMIX, k3) && p.m3 == Rename(SMIX, k3) && p.c4 == Rename(CMIX, k4) && p.m4 == Rename(SMIX, k4)
    requires Shaped(p)
    ensures FourSubRounds(Rot(s, k), mix) == Rot(DoPairs(p, s, mix), k4)
  {
    var a := Pair(p.c2, p.m2, Pair(p.c1, p.m1, s, mix), mix);
    var b := Pair(p.c4, p.m4, Pair(p.c3, p.m3, a, mix), mix);
    TwoPairs(s, k, k1, k2, p.c1, p.m1, p.c2, p.m2, a, mix);
    TwoPairs(a, k2, k3, k4, p.c3, p.m3, p.c4, p.m4, b, mix);
    TwiceTwo(Rot(s, k), Rot(a, k2), Rot(b, k4), mix);
  }

  lemma TwiceTwo(x: State, y: State, z: State, mix: Mixer)
    requires SubRound(SubRound(x, mix), mix) == y && SubRound(SubRound(y, mix), mix) == z
    ensures FourSubRounds(x, mix) == z
  {
  }

  lemma TwoPairs(s: State, k: Ix, j: Ix, i: Ix, c1: Step, m1: Step, c2: Step, m2: Step, a: State, mix: Mixer)
    requires j == Shift(33, k) && i == Shift(33, j)
    requires c1 == Rename(CMIX, j) && m1 == Rename(SMIX, j) && c2 == Rename(CMIX, i) && m2 == Rename(SMIX, i)
    requires a == Pair(c2, m2, Pair(c1, m1, s, mix), mix)
    ensures SubRound(SubRound(Rot(s, k), mix), mix) == Rot(a, i)
  {
    RenamedTwice(s, k, j, i, mix);
  }

  lemma {:induction false} CaseIsRound(r: nat, s: State, q: Word, mix: Mixer)
    requires r < 3
    ensures Shaped(Case(r))
    ensures Round(Rot(s, Offset(r)), q, mix)
         == Rot(DoCase(Case(r), s, q, mix), Offset(if r == 2 then 0 else r + 1))
  {
    var k := Offset(r);
    CaseIsRenamed(r);
    RotTix(TIX, s, k, q);
    RenamedPairs(DoTix(Rename(TIX, k), s, q), k, mix);
  }

  // ---------------------------------------------------------------- bytes and prefixes

  lemma PackNext(bs: seq<Byte>, b: Byte)
    ensures Pack(bs + [b]) == Push(Pack(bs), b)
  {
    assert (bs + [b])[..|bs|] == bs;
  }

  /** The word at the front of a buffer. */
  function Dec32be(bs: seq<Byte>): (r: Word)
    requires |bs| >= 4
  {
    ((bs[0] as Word) << 24) | ((bs[1] as Word) << 16) | ((bs[2] as Word) << 8) | (bs[3] as Word)
  }

  lemma Joined(a: Byte, b: Byte, c: Byte, d: Byte)
    ensures Push(Push(Push(Push(0, a), b), c), d)
         == ((a as Word) << 24) | ((b as Word) << 16) | ((c as Word) << 8) | (d as Word)
  {
  }

  lemma FoldFour(f: (Word, Byte) -> Word, bs: seq<Byte>)
    requires |bs| == 4
    ensures FoldBytes(f, bs) == f(f(f(f(0, bs[0]), bs[1]), bs[2]), bs[3])
  {
    assert bs[..3][..2] == bs[..2] && bs[..2][..1] == bs[..1] && bs[..1][..0] == [];
    assert FoldBytes(f, bs[..1]) == f(0, bs[0]);
    assert FoldBytes(f, bs[..2]) == f(f(0, bs[0]), bs[1]);
    assert FoldBytes(f, bs[..3]) == f(f(f(0, bs[0]), bs[1]), bs[2]);
  }

  lemma PackFour(bs: seq<Byte>)
    requires |bs| == 4
    ensures Pack(bs) == Dec32be(bs)
  {
    FoldFour(Push, bs);
    Joined(bs[0], bs[1], bs[2], bs[3]);
  }

  /** The four bytes of a word, the highest first. */
  predicate HasBytes(x: Word, a: Byte, b: Byte, c: Byte, d: Byte) {
    x >> 24 == a as Word && (x >> 16) & 0xFF == b as Word && (x >> 8) & 0xFF == c as Word && x & 0xFF == d as Word
  }

  lemma PackBytes(bs: seq<Byte>)
    requires |bs| == 4
    ensures HasBytes(Pack(bs), bs[0], bs[1], bs[2], bs[3])
  {
    FoldFour(Push, bs);
    PushedBytes(bs[0], bs[1], bs[2], bs[3]);
  }

  lemma PushedBytes(a: Byte, b: Byte, c: Byte, d: Byte)
    ensures HasBytes(Push(Push(Push(Push(0, a), b), c), d), a, b, c, d)
  {
    Joined(a, b, c, d);
    BytesOf(a, b, c, d, Push(Push(Push(Push(0, a), b), c), d));
  }

  lemma BytesOf(a: Byte, b: Byte, c: Byte, d: Byte, x: Word)
    requires x == ((a as Word) << 24) | ((b as Word) << 16) | ((c as Word) << 8) | (d as Word)
    ensures x >> 24 == a as Word && (x >> 16) & 0xFF == b as Word
    ensures (x >> 8) & 0xFF == c as Word && x & 0xFF == d as Word
  {
  }

  lemma FoldNext<S>(f: (S, seq<Byte>) -> S, iv: S, msg: seq<Byte>, w: nat)
    requires 4 * w + 4 <= |msg|
    ensures Fold(f, iv, msg, w + 1) == f(Fold(f, iv, msg, w), msg[4 * w..4 * w + 4])
  {
    assert 4 * (w + 1) - 4 == 4 * w;
  }

  lemma {:induction false} FoldPrefix<S>(f: (S, seq<Byte>) -> S, iv: S, msg: seq<Byte>, more: seq<Byte>, w: nat)
    requires 4 * w <= |msg|
    ensures Fold(f, iv, msg + more, w) == Fold(f, iv, msg, w)
  {
    if w > 0 {
      FoldPrefix(f, iv, msg, more, w - 1);
      assert (msg + more)[4 * w - 4..4 * w] == msg[4 * w - 4..4 * w];
    }
  }

  // ---------------------------------------------------------------- padding

  function PadLength(n: nat): nat { (4 - n % 4) % 4 }

  /** The last message byte when `n` extra bits are given. */
  function Extra(ub: Byte, n: nat): seq<Byte>
    requires n < 8
  {
    if n == 0 then [] else [Kept(ub, n)]
  }

  function Kept(ub: Byte, n: nat): Byte
    requires n < 8
  {
    ub & !((0xFF as Byte) >> n)
  }

  /** Message bits, zeros up to a word, and the length in bits as two more words. */
  function Padded(msg: seq<Byte>, ub: Byte, n: nat): seq<Byte>
    requires n < 8
  {
    Laid(msg + Extra(ub, n), Enc64((8 * |msg| + n) % TWO64))
  }

  function Laid(m: seq<Byte>, count: seq<Byte>): (r: seq<Byte>)
    ensures |r| == |m| + PadLength(|m|) + |count|
  {
    m + Zeros(PadLength(|m|)) + count
  }

  /** Of the byte of extra bits the first `n` are kept. */
  lemma KeptBits(ub: Byte)
    ensures Kept(ub, 1) == ub & 0x80 && Kept(ub, 2) == ub & 0xC0 && Kept(ub, 3) == ub & 0xE0 && Kept(ub, 4) == ub & 0xF0
    ensures Kept(ub, 5) == ub & 0xF8 && Kept(ub, 6) == ub & 0xFC && Kept(ub, 7) == ub & 0xFE
  {
  }

  /** After the message and the extra bits come zeros up to the next whole word, fewer than four, and the number of
      bits of both as eight bytes, the highest first. */
  lemma PaddedShape(msg: seq<Byte>, ub: Byte, n: nat, k: nat)
    requires n < 8 && k == |msg| + if n == 0 then 0 else 1
    ensures
      var p := Padded(msg, ub, n);
      && |p| % 4 == 0 && k + 8 <= |p| < k + 12
      && p[..|msg|] == msg && (n > 0 ==> p[|msg|] == Kept(ub, n))
      && (forall i :: k <= i < |p| - 8 ==> p[i] == 0)
      && BigEndian(p[|p| - 8..]) == (8 * |msg| + n) % TWO64
  {
    var m, bits := msg + Extra(ub, n), (8 * |msg| + n) % TWO64;
    EncodedValue(bits);
    PadsToWord(|m|);
    LaidShape(m, Enc64(bits));
  }

  lemma PadsToWord(k: nat)
    ensures PadLength(k) < 4 && (k + PadLength(k) + 8) % 4 == 0
  {
  }

  lemma LaidShape(m: seq<Byte>, count: seq<Byte>)
    requires |count| == 8
    ensures
      var p := Laid(m, count);
      && |p| == |m| + PadLength(|m|) + 8 && p[..|m|] == m && p[|p| - 8..] == count
      && forall i :: |m| <= i < |p| - 8 ==> p[i] == 0
  {
  }

  /** What the final rounds work on: the reference state over the padded message. */
  function Final(iv: State, msg: seq<Byte>, ub: Byte, n: nat, mix: Mixer): State
    requires n < 8
  {
    var p := Padded(msg, ub, n);
    Absorb(iv, p, |p| / 4, mix)
  }
}
