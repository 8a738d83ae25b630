/**
Mnemonic phrases: entropy bits and a few bits of their hash, read eleven at a time as words of a sorted
list.
*/
module Mnemonic {
  import opened Positional

  /** The hash of some bytes, as its bytes. */
  type Hash = seq<int> -> seq<int>

  ghost predicate HashOk(hash: Hash) { forall bs :: |hash(bs)| == 32 && InBase(hash(bs), 256) }

  // ---------------------------------------------------------------- bits in groups

  /** The bits of numbers of `w` bits each. */
  function Join(ns: seq<int>, w: nat): (bits: seq<int>)
    requires forall i :: 0 <= i < |ns| ==> ns[i] >= 0
    ensures |bits| == w * |ns| && InBase(bits, 2)
  {
    if ns == [] then [] else
    var front := ns[..|ns| - 1];
    assert w * |ns| == w * |front| + w;
    Join(front, w) + Fixed(ns[|ns| - 1], w, 2)
  }

  /** Bits, `w` at a time, as numbers. */
  function Chunks(bits: seq<int>, w: nat, n: nat): (ns: seq<int>)
    requires |bits| == w * n && InBase(bits, 2)
    ensures |ns| == n && forall i :: 0 <= i < n ==> ns[i] >= 0
  {
    if n == 0 then [] else
    assert w * n == w * (n - 1) + w;
    var k := w * (n - 1);
    ValueNonNegative(bits[k..], 2);
    Chunks(bits[..k], w, n - 1) + [Value(bits[k..], 2)]
  }

  lemma {:induction false} JoinChunks(bits: seq<int>, w: nat, n: nat)
    requires |bits| == w * n && InBase(bits, 2)
    ensures Join(Chunks(bits, w, n), w) == bits
  {
    if n > 0 {
      assert w * n == w * (n - 1) + w;
      var k := w * (n - 1);
      JoinChunks(bits[..k], w, n - 1);
      FixedOfValue(bits[k..], 2);
      var ns := Chunks(bits, w, n);
      assert ns[..n - 1] == Chunks(bits[..k], w, n - 1);
      assert bits == bits[..k] + bits[k..];
    }
  }

  lemma ChunksAppend(bits: seq<int>, group: seq<int>, w: nat, n: nat)
    requires |bits| == w * n && |group| == w && InBase(bits, 2) && InBase(group, 2)
    ensures w * (n + 1) == w * n + w && Chunks(bits + group, w, n + 1) == Chunks(bits, w, n) + [Value(group, 2)]
  {
    assert w * (n + 1) == w * n + w;
    var all := bits + group;
    assert all[..w * n] == bits && all[w * n..] == group;
    assert n + 1 - 1 == n;
  }

  lemma JoinAppend(front: seq<int>, z: int, w: nat)
    requires z >= 0 && forall i :: 0 <= i < |front| ==> front[i] >= 0
    ensures Join(front + [z], w) == Join(front, w) + Fixed(z, w, 2)
  {
    assert (front + [z])[..|front|] == front;
  }

  lemma {:induction false} ChunksJoin(ns: seq<int>, w: nat)
    requires forall i :: 0 <= i < |ns| ==> 0 <= ns[i] < Pow(2, w)
    ensures Chunks(Join(ns, w), w, |ns|) == ns
  {
    if ns != [] {
      var front, z := ns[..|ns| - 1], ns[|ns| - 1];
      ChunksJoin(front, w);
      ChunksJoinStep(front, z, w);
      assert ns == front + [z];
    }
  }

  lemma ChunksJoinStep(front: seq<int>, z: int, w: nat)
    requires 0 <= z < Pow(2, w) && forall i :: 0 <= i < |front| ==> front[i] >= 0
    requires Chunks(Join(front, w), w, |front|) == front
    ensures Chunks(Join(front + [z], w), w, |front| + 1) == front + [z]
  {
    JoinAppend(front, z, w);
    ChunksAppend(Join(front, w), Fixed(z, w, 2), w, |front|);
    ValueOfFixed(z, w, 2);
  }

  lemma {:induction false} ChunksBelow(bits: seq<int>, w: nat, n: nat)
    requires |bits| == w * n && InBase(bits, 2)
    ensures forall i :: 0 <= i < n ==> 0 <= Chunks(bits, w, n)[i] < Pow(2, w)
  {
    if n > 0 {
      assert w * n == w * (n - 1) + w;
      ChunksBelow(bits[..w * (n - 1)], w, n - 1);
      ValueBelow(bits[w * (n - 1)..], 2);
      ValueNonNegative(bits[w * (n - 1)..], 2);
    }
  }

  // ---------------------------------------------------------------- phrases as indices

  /** Phrase lengths and how many of their bits are checksum. */
  predicate GoodCount(n: nat) { n == 12 || n == 15 || n == 18 || n == 21 || n == 24 }

  function ChecksumBits(n: nat): nat { n * 11 / 33 }

  function EntropyBytes(n: nat): nat { (n * 11 - ChecksumBits(n)) / 8 }

  lemma Counts(n: nat)
    requires GoodCount(n)
    ensures ChecksumBits(n) <= 8 && 8 * EntropyBytes(n) + ChecksumBits(n) == 11 * n && EntropyBytes(n) >= 16
  {
  }

  /** Entropy bits and then checksum bits. */
  ghost function PhraseBits(ent: seq<int>, n: nat, hash: Hash): (bits: seq<int>)
    requires GoodCount(n) && InBase(ent, 256) && |ent| == EntropyBytes(n) && HashOk(hash)
    ensures |bits| == 11 * n && InBase(bits, 2)
  {
    Counts(n);
    Join(ent, 8) + Join(hash(ent), 8)[..ChecksumBits(n)]
  }

  /** The word indices of some entropy. */
  ghost function Indices(ent: seq<int>, n: nat, hash: Hash): (ns: seq<int>)
    requires GoodCount(n) && InBase(ent, 256) && |ent| == EntropyBytes(n) && HashOk(hash)
    ensures |ns| == n
  {
    Chunks(PhraseBits(ent, n, hash), 11, n)
  }

  /** The entropy that a list of indices carries. */
  function EntropyOf(ns: seq<int>): (ent: seq<int>)
    requires GoodCount(|ns|) && forall i :: 0 <= i < |ns| ==> ns[i] >= 0
    ensures |ent| == EntropyBytes(|ns|)
  {
    Counts(|ns|);
    Chunks(Join(ns, 11)[..8 * EntropyBytes(|ns|)], 8, EntropyBytes(|ns|))
  }

  predicate InList(ns: seq<int>) { forall i :: 0 <= i < |ns| ==> 0 <= ns[i] < 2048 }

  /** What the checker asks of the indices: the last bits are the first bits of the hash. */
  ghost predicate Passes(ns: seq<int>, hash: Hash)
    requires InList(ns) && HashOk(hash)
  {
    && GoodCount(|ns|)
    && (Counts(|ns|); Join(ns, 11)[8 * EntropyBytes(|ns|)..] == Join(hash(EntropyOf(ns)), 8)[..ChecksumBits(|ns|)])
  }

  lemma PowEleven(w: nat, v: nat)
    requires w == 11 && v == 8
    ensures Pow(2, w) == 2048 && Pow(2, v) == 256
  {
    var four := 4;
    assert Pow(2, four) == 16;
    PowAdd(2, four, four);
    PowAdd(2, 8, 3);
  }

  lemma EntropyInBase(ns: seq<int>)
    requires GoodCount(|ns|) && forall i :: 0 <= i < |ns| ==> ns[i] >= 0
    ensures InBase(EntropyOf(ns), 256)
  {
    Counts(|ns|);
    PowEleven(11, 8);
    var k := EntropyBytes(|ns|);
    ChunksBelow(Join(ns, 11)[..8 * k], 8, k);
  }

  lemma IndicesInList(ent: seq<int>, n: nat, hash: Hash)
    requires GoodCount(n) && InBase(ent, 256) && |ent| == EntropyBytes(n) && HashOk(hash)
    ensures InList(Indices(ent, n, hash))
  {
    PowEleven(11, 8);
    ChunksBelow(PhraseBits(ent, n, hash), 11, n);
  }

  /** The indices of any entropy pass the check and carry that entropy. */
  lemma GeneratedPasses(ent: seq<int>, n: nat, hash: Hash)
    requires GoodCount(n) && InBase(ent, 256) && |ent| == EntropyBytes(n) && HashOk(hash)
    ensures
      var ns := Indices(ent, n, hash);
      InList(ns) && EntropyOf(ns) == ent && Passes(ns, hash)
  {
    Counts(n);
    IndicesInList(ent, n, hash);
    var bits := PhraseBits(ent, n, hash);
    var ns := Indices(ent, n, hash);
    JoinChunks(bits, 11, n);
    assert bits[..8 * |ent|] == Join(ent, 8);
    PowEleven(11, 8);
    ChunksJoin(ent, 8);
    assert bits[8 * |ent|..] == Join(hash(ent), 8)[..ChecksumBits(n)];
  }

  /** Indices that pass are the indices of the entropy they carry. */
  lemma PassingIsGenerated(ns: seq<int>, hash: Hash)
    requires InList(ns) && HashOk(hash) && Passes(ns, hash)
    ensures InBase(EntropyOf(ns), 256) && Indices(EntropyOf(ns), |ns|, hash) == ns
  {
    var n := |ns|;
    Counts(n);
    EntropyInBase(ns);
    var ent := EntropyOf(ns);
    var bits := Join(ns, 11);
    var k := 8 * EntropyBytes(n);
    JoinChunks(bits[..k], 8, EntropyBytes(n));
    assert bits == bits[..k] + bits[k..];
    assert PhraseBits(ent, n, hash) == bits;
    PowEleven(11, 8);
    ChunksJoin(ns, 11);
  }

  /** The indices encode that entropy. */
  ghost predicate Encodes(ns: seq<int>, ent: seq<int>, hash: Hash)
    requires HashOk(hash)
  {
    GoodCount(|ns|) && InBase(ent, 256) && |ent| == EntropyBytes(|ns|) && Indices(ent, |ns|, hash) == ns
  }

  /** A list of indices passes if and only if it is the encoding of some entropy, and then of exactly one. */
  lemma PassesIffGenerated(ns: seq<int>, hash: Hash)
    requires InList(ns) && HashOk(hash)
    ensures Passes(ns, hash) <==> exists ent :: Encodes(ns, ent, hash)
    ensures forall a, b :: Encodes(ns, a, hash) && Encodes(ns, b, hash) ==> a == b
  {
    if Passes(ns, hash) {
      PassingIsGenerated(ns, hash);
      assert Encodes(ns, EntropyOf(ns), hash);
    }
    forall ent | Encodes(ns, ent, hash) ensures Passes(ns, hash) && ent == EntropyOf(ns) {
      GeneratedPasses(ent, |ns|, hash);
    }
  }
}
