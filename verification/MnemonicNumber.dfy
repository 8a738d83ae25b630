/** A phrase as one number: its words are the digits, in base 2048, of the entropy and its checksum. */
module MnemonicNumber {
  import opened Positional
  import opened Mnemonic

  /** The bits of digits of `w` bits each are the same number. */
  lemma {:induction false} JoinValue(ns: seq<int>, w: nat, base: int)
    requires w >= 1 && base == Pow(2, w) && InBase(ns, base)
    ensures Value(Join(ns, w), 2) == Value(ns, base)
  {
    if ns != [] {
      var front, z := ns[..|ns| - 1], ns[|ns| - 1];
      JoinValue(front, w, base);
      ValueSplit(Join(front, w), Fixed(z, w, 2), 2);
      ValueOfFixed(z, w, 2);
    }
  }

  lemma {:induction false} JoinFirst(ns: seq<int>, w: nat)
    requires ns != [] && forall i :: 0 <= i < |ns| ==> ns[i] >= 0
    ensures w <= |Join(ns, w)| && Join(ns, w)[..w] == Fixed(ns[0], w, 2)
  {
    var front := ns[..|ns| - 1];
    if front != [] {
      JoinFirst(front, w);
      Prefix(Join(front, w), Fixed(ns[|ns| - 1], w, 2), w);
    } else {
      Prefix(Fixed(ns[0], w, 2), [], w);
      assert Join(front, w) == [];
    }
  }

  lemma Prefix(a: seq<int>, b: seq<int>, k: nat)
    requires k <= |a|
    ensures (a + b)[..k] == a[..k] && (k == |a| ==> (a + b)[..k] == a)
  {
  }

  lemma PowTwo(m: nat)
    requires m >= 1
    ensures Pow(2, m) >= 2
  {
    PowPositive(2, m - 1);
  }

  /** The first bits of a number are what a shift right leaves. */
  lemma {:induction false} HighBits(z: int, k: nat, m: nat)
    requires 0 <= z < Pow(2, k + m)
    ensures Pow(2, m) >= 1 && Value(Fixed(z, k + m, 2)[..k], 2) == z / Pow(2, m)
  {
    var bits := Fixed(z, k + m, 2);
    ValueOfFixed(z, k + m, 2);
    CutBits(bits, bits[..k], bits[k..], m);
    Shifted(z, Value(bits[..k], 2), Value(bits[k..], 2), m);
  }

  lemma {:induction false} CutBits(bits: seq<int>, high: seq<int>, low: seq<int>, m: nat)
    requires bits == high + low && |low| == m && InBase(high, 2) && InBase(low, 2)
    ensures Value(bits, 2) == Value(high, 2) * Pow(2, m) + Value(low, 2)
    ensures Value(high, 2) >= 0 && 0 <= Value(low, 2) < Pow(2, m) && Pow(2, m) >= 1
  {
    ValueSplit(high, low, 2);
    ValueNonNegative(high, 2);
    ValueNonNegative(low, 2);
    ValueBelow(low, 2);
  }

  lemma Shifted(z: int, q: int, r: int, m: nat)
    requires Pow(2, m) >= 1 && z == q * Pow(2, m) + r && 0 <= r < Pow(2, m) && q >= 0
    ensures z / Pow(2, m) == q
  {
    if m > 0 {
      PowTwo(m);
      DivMod(q, r, Pow(2, m));
    }
  }

  lemma CheckValue(hs: seq<int>, w: nat, k: nat, m: nat)
    requires hs != [] && InBase(hs, 256) && w == k + m && Pow(2, w) == 256
    ensures k <= |Join(hs, w)| && Pow(2, m) >= 1 && Value(Join(hs, w)[..k], 2) == hs[0] / Pow(2, m)
  {
    JoinFirst(hs, w);
    HighBits(hs[0], k, m);
    assert Join(hs, w)[..k] == Join(hs, w)[..w][..k];
  }

  lemma PhraseCounts(n: nat, c: nat)
    requires GoodCount(n) && c == n / 3
    ensures c == ChecksumBits(n) <= 8 && 3 * EntropyBytes(n) == 4 * n
  {
  }

  lemma PhraseBitsValue(ent: seq<int>, n: nat, hash: Hash, c: nat, m: nat, eight: nat)
    requires GoodCount(n) && InBase(ent, 256) && |ent| == EntropyBytes(n) && HashOk(hash)
    requires c == ChecksumBits(n) && c + m == eight == 8 && Pow(2, eight) == 256
    ensures Pow(2, m) >= 1 && Value(PhraseBits(ent, n, hash), 2) == Value(ent, 256) * Pow(2, c) + hash(ent)[0] / Pow(2, m)
  {
    CheckValue(hash(ent), eight, c, m);
    ValueSplit(Join(ent, eight), Join(hash(ent), eight)[..c], 2);
    JoinValue(ent, eight, 256);
  }

  lemma IndicesValue(ent: seq<int>, n: nat, hash: Hash, eleven: nat)
    requires GoodCount(n) && InBase(ent, 256) && |ent| == EntropyBytes(n) && HashOk(hash)
    requires eleven == 11 && Pow(2, eleven) == 2048
    ensures Value(Indices(ent, n, hash), 2048) == Value(PhraseBits(ent, n, hash), 2)
  {
    IndicesInList(ent, n, hash);
    JoinChunks(PhraseBits(ent, n, hash), eleven, n);
    JoinValue(Indices(ent, n, hash), eleven, 2048);
  }

  /** Twelve, fifteen, up to twenty-four words: four thirds of a byte each, and the rest of their bits is the start of
      the hash.  Read in base 2048 they are the entropy followed by those bits. */
  lemma {:induction false} PhraseNumber(ent: seq<int>, n: nat, hash: Hash, c: nat, m: nat)
    requires GoodCount(n) && InBase(ent, 256) && |ent| == EntropyBytes(n) && HashOk(hash)
    requires c == n / 3 && c + m == 8
    ensures 3 * |ent| == 4 * n && Pow(2, m) >= 1
    ensures Value(Indices(ent, n, hash), 2048) == Value(ent, 256) * Pow(2, c) + hash(ent)[0] / Pow(2, m)
  {
    PhraseCounts(n, c);
    var eleven, eight := 11, 8;
    PowEleven(eleven, eight);
    IndicesValue(ent, n, hash, eleven);
    PhraseBitsValue(ent, n, hash, c, m, eight);
  }

  /** The five lengths of a phrase. */
  lemma PhraseLengths(n: nat)
    ensures GoodCount(n) <==> 12 <= n <= 24 && n % 3 == 0
  {
  }
}
