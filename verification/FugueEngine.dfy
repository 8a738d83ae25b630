/** The Fugue-512 engine: buffering of arbitrary chunks, the phase counter and the realignment at close. */
module FugueEngine {
  import opened Fugue
  import opened Lists
  import opened Words

  // ---------------------------------------------------------------- the macros, in place

  method RunTix(s: array<Word>, t: Step, q: Word)
    requires s.Length == 36 && t.Tix?
    modifies s
    ensures s[..] == DoTix(t, old(s[..]), q)
  {
    XorInto(s, t.x22, t.x00);
    Store(s, t.x00, q);
    XorInto(s, t.x08, t.x00);
    XorInto(s, t.x01, t.x24);
    XorInto(s, t.x04, t.x27);
    XorInto(s, t.x07, t.x30);
  }

  method XorInto(s: array<Word>, d: Ix, x: Ix)
    requires s.Length == 36
    modifies s
    ensures s[..] == Xor(old(s[..]), d, x)
  {
    s[d] := s[d] ^ s[x];
  }

  method Store(s: array<Word>, d: Ix, v: Word)
    requires s.Length == 36
    modifies s
    ensures s[..] == Set(old(s[..]), d, v)
  {
    s[d] := v;
  }

  method RunPair(s: array<Word>, c: Step, m: Step, mix: Mixer)
    requires s.Length == 36 && c.Cmix? && m.Smix?
    modifies s
    ensures s[..] == Pair(c, m, old(s[..]), mix)
  {
    XorInto(s, c.x00, c.x04);
    XorInto(s, c.x01, c.x05);
    XorInto(s, c.x02, c.x06);
    XorInto(s, c.x18, c.x04);
    XorInto(s, c.x19, c.x05);
    XorInto(s, c.x20, c.x06);
    RunSmix(s, m, mix);
  }

  method RunSmix(s: array<Word>, m: Step, mix: Mixer)
    requires s.Length == 36 && m.Smix?
    modifies s
    ensures s[..] == DoSmix(m, old(s[..]), mix)
  {
    var r := mix(s[m.x0], s[m.x1], s[m.x2], s[m.x3]);
    Store(s, m.x0, r.0);
    Store(s, m.x1, r.1);
    Store(s, m.x2, r.2);
    Store(s, m.x3, r.3);
  }

  method RunCase(s: array<Word>, p: Plan, q: Word, mix: Mixer)
    requires s.Length == 36 && Shaped(p)
    modifies s
    ensures s[..] == DoCase(p, old(s[..]), q, mix)
  {
    RunTix(s, p.t, q);
    RunPair(s, p.c1, p.m1, mix);
    RunPair(s, p.c2, p.m2, mix);
    RunPair(s, p.c3, p.m3, mix);
    RunPair(s, p.c4, p.m4, mix);
  }

  // ---------------------------------------------------------------- how many words are absorbed

  /** The number of words absorbed after `len` more bytes: a full pending word is held back until more
      input comes, and an empty update counts as more input. */
  function Absorbed(w: nat, before: nat, len: nat): (r: nat)
    requires 4 * w <= before <= 4 * w + 4
    ensures 4 * r <= before + len <= 4 * r + 4
    ensures len > 0 ==> r == (before + len - 1) / 4
  {
    if len == 0 then (if before == 4 * w + 4 then w + 1 else w) else (before + len - 1) / 4
  }

  function Next(r: nat): nat { if r == 2 then 0 else r + 1 }

  /** The phase in which word `w` is absorbed. */
  function Turn(w: nat): (r: nat)
    ensures r < 3
  {
    if w == 0 then 0 else Next(Turn(w - 1))
  }

  predicate RunsAt(f: (State, seq<Byte>) -> State, pack: seq<Byte> -> Word, mix: Mixer,
                   r: nat, s: State, word: seq<Byte>) {
    Shaped(Case(r)) && f(Rot(s, Offset(r)), word) == Rot(DoCase(Case(r), s, pack(word), mix), Offset(Next(r)))
  }

  /** The three cases carry out `f` on the logical state. */
  ghost predicate Runs(f: (State, seq<Byte>) -> State, pack: seq<Byte> -> Word, mix: Mixer) {
    forall r: nat, s: State, word: seq<Byte> :: r < 3 ==> RunsAt(f, pack, mix, r, s, word)
  }

  ghost predicate Packs(pack: seq<Byte> -> Word) {
    forall bs: seq<Byte> {:trigger Pack(bs)} :: pack(bs) == Pack(bs)
  }

  lemma {:induction false} EngineRuns(mix: Mixer)
    ensures Runs(RoundOf(mix), Pack, mix)
  {
    var f := RoundOf(mix);
    forall r: nat, s: State, word: seq<Byte> | r < 3
      ensures RunsAt(f, Pack, mix, r, s, word) {
      CaseIsRound(r, s, Pack(word), mix);
      assert f(Rot(s, Offset(r)), word) == Round(Rot(s, Offset(r)), Pack(word), mix);
    }
  }

  lemma AbsorbedNone(w: nat, before: nat, len: nat)
    requires 4 * w <= before < 4 * w + 4 && before + len <= 4 * w + 4
    ensures Absorbed(w, before, len) == w
  {
  }

  lemma AbsorbedSome(w: nat, before: nat, len: nat, v: nat, i: nat)
    requires 4 * w <= before <= 4 * w + 4 && before + i == 4 * v && i <= len <= i + 4 && (i == len ==> len == 0)
    requires len == 0 ==> before == 4 * w + 4
    ensures Absorbed(w, before, len) == v
  {
  }

  class Context {
    const words: array<Word>
    const mix: Mixer
    ghost const round: (State, seq<Byte>) -> State
    ghost const pack: seq<Byte> -> Word
    var partial: Word
    var partialLen: nat
    var roundShift: nat
    var bitCount: nat

    /** After `msg`, of which `w` words are absorbed: the logical state is the reference state. */
    ghost predicate Holds(iv: State, msg: seq<Byte>, w: nat)
      reads this, words
    {
      Buffered(iv, msg, w) && bitCount == 8 * |msg| % TWO64
    }

    ghost predicate Buffered(iv: State, msg: seq<Byte>, w: nat)
      reads this, words
    {
      && words.Length == 36 && Runs(round, pack, mix) && Packs(pack)
      && 4 * w <= |msg| <= 4 * w + 4
      && Rot(words[..], Offset(Turn(w))) == Fold(round, iv, msg, w)
      && roundShift == Turn(w)
      && partialLen == |msg| - 4 * w
      && partial == pack(msg[4 * w..])
    }

    constructor (iv: State, mixer: Mixer)
      ensures Holds(iv, [], 0) && mix == mixer && round == RoundOf(mixer) && fresh(words)
    {
      words := new Word[36](i requires 0 <= i < 36 => iv[i]);
      mix, round, pack := mixer, RoundOf(mixer), Pack;
      partial, partialLen, roundShift, bitCount := 0, 0, 0, 0;
      new;
      EngineRuns(mixer);
      assert words[..] == iv;
      assert Rot(words[..], 0) == iv;
    }

    /** The case that the phase counter selects, and the next value of the counter. */
    method RunPhase(r: nat, p: Word) returns (next: nat)
      requires words.Length == 36 && r < 3
      modifies words
      ensures Shaped(Case(r)) && words[..] == DoCase(Case(r), old(words[..]), p, mix)
      ensures next == Next(r)
    {
      if r == 0 {
        RunCase(words, Case0(), p, mix);
        next := 1;
      } else if r == 1 {
        RunCase(words, Case1(), p, mix);
        next := 2;
      } else {
        RunCase(words, Case2(), p, mix);
        next := 0;
      }
    }

    /** One pass of the loop body: the word in `p` goes in. */
    method Step(ghost iv: State, ghost msg: seq<Byte>, ghost w: nat, r: nat, p: Word) returns (next: nat)
      requires words.Length == 36 && Runs(round, pack, mix) && Packs(pack) && r < 3 && 4 * w + 4 <= |msg| && p == pack(msg[4 * w..4 * w + 4])
      requires Rot(words[..], Offset(r)) == Fold(round, iv, msg, w)
      modifies words
      ensures next == Next(r) && Rot(words[..], Offset(next)) == Fold(round, iv, msg, w + 1)
    {
      FoldNext(round, iv, msg, w);
      assert RunsAt(round, pack, mix, r, words[..], msg[4 * w..4 * w + 4]);
      next := RunPhase(r, p);
    }

    /** The loop over whole words: word `w` is in `p0`, and `data` from `i0` on is still to be read.
        At least one byte stays back unless the update was empty. */
    method Loop(ghost iv: State, ghost all: seq<Byte>, ghost m: nat, ghost w: nat,
                data: seq<Byte>, i0: nat, p0: Word) returns (i: nat, r: nat, ghost v: nat)
      requires words.Length == 36 && Runs(round, pack, mix) && Packs(pack) && m + |data| == |all| && data == all[m..] && roundShift == Turn(w)
      requires m + i0 == 4 * w + 4 && i0 <= |data| && (i0 == |data| ==> data == [])
      requires p0 == pack(all[4 * w..4 * w + 4]) && Rot(words[..], Offset(roundShift)) == Fold(round, iv, all, w)
      modifies words
      ensures m + i == 4 * v && i <= |data| <= i + 4 && (i == |data| ==> data == [])
      ensures r == Turn(v) && Rot(words[..], Offset(r)) == Fold(round, iv, all, v)
    {
      var p := p0;
      i, r, v := i0, roundShift, w;
      var more := true;
      while more
        invariant 0 <= i <= |data| && (i == |data| ==> data == []) && m + i == if more then 4 * v + 4 else 4 * v
        invariant more ==> p == pack(all[4 * v..4 * v + 4])
        invariant !more ==> |data| - i <= 4
        invariant r == Turn(v) && Rot(words[..], Offset(r)) == Fold(round, iv, all, v)
        decreases |data| - i, more
      {
        r := Step(iv, all, v, r, p);
        v := v + 1;
        if |data| - i <= 4 {
          more := false;
        } else {
          p := ReadWord(pack, all, m, data, i);
          i := i + 4;
        }
      }
    }

    /** Everything but the bit counter. */
    method Feed(ghost iv: State, ghost msg: seq<Byte>, ghost w: nat, data: seq<Byte>)
      requires Buffered(iv, msg, w)
      modifies this`partial, this`partialLen, this`roundShift, words
      ensures Buffered(iv, msg + data, Absorbed(w, |msg|, |data|))
    {
      ghost var all := msg + data;
      FoldPrefix(round, iv, msg, data, w);
      assert all[4 * w..|msg|] == msg[4 * w..];
      var count := if partialLen >= 4 then 0 else if |data| < 4 - partialLen then |data| else 4 - partialLen;
      var p := Gather(pack, all, 4 * w, |msg|, data, 0, count, partial);
      if partialLen < 4 && count == |data| {
        partial := p;
        partialLen := partialLen + count;
        assert all[4 * w..|msg| + count] == all[4 * w..];
        AbsorbedNone(w, |msg|, |data|);
        return;
      }
      var i, r, v := Loop(iv, all, |msg|, w, data, count, p);
      AbsorbedSome(w, |msg|, |data|, v, i);
      Rest(iv, all, |msg|, v, data, i, r);
    }

    /** The bytes after the last whole word wait for the next call. */
    method Rest(ghost iv: State, ghost all: seq<Byte>, ghost m: nat, ghost v: nat, data: seq<Byte>, i: nat, r: nat)
      requires words.Length == 36 && Runs(round, pack, mix) && Packs(pack) && m + |data| == |all| && data == all[m..]
      requires m + i == 4 * v && i <= |data| <= i + 4 && r == Turn(v)
      requires Rot(words[..], Offset(r)) == Fold(round, iv, all, v)
      modifies this`partial, this`partialLen, this`roundShift
      ensures Buffered(iv, all, v)
    {
      partial := GatherRest(pack, all, 4 * v, data, i);
      partialLen := |data| - i;
      roundShift := r;
    }

    method Update(ghost iv: State, ghost msg: seq<Byte>, ghost w: nat, data: seq<Byte>)
      requires Holds(iv, msg, w)
      modifies this, words
      ensures Holds(iv, msg + data, Absorbed(w, |msg|, |data|))
    {
      CounterAdds(|msg|, |data|);
      bitCount := (bitCount + 8 * |data|) % TWO64;
      Feed(iv, msg, w, data);
    }

    /** Padding, the length, and the realignment of the words; `junk` is what the buffer held before. */
    method Close(ghost iv: State, ghost msg: seq<Byte>, ghost w: nat, ub: Byte, n: nat, junk: seq<Byte>)
      returns (s: State)
      requires Holds(iv, msg, w) && n < 8 && |junk| == 16
      modifies this, words
      ensures s == Fold(round, iv, Padded(msg, ub, n), |Padded(msg, ub, n)| / 4)
    {
      ghost var padded := Padded(msg, ub, n);
      var tail := Tail(msg, w, partialLen, bitCount, ub, n, junk);
      Update(iv, msg, w, tail);
      FoldPrefix(round, iv, padded, junk[12..], |padded| / 4);
      s := Realigned();
    }

    method Realigned() returns (s: State)
      requires words.Length == 36 && roundShift < 3
      ensures s == Rot(words[..], Offset(roundShift))
    {
      var rms := roundShift * 12;
      RealignIsRot(words[..], roundShift);
      s := words[36 - rms..] + words[..36 - rms];
    }
  }

  /** What `Close` hands to the core: padding and length, then four bytes that stay pending. */
  method Tail(ghost msg: seq<Byte>, ghost w: nat, partialLen: nat, bitCount: nat, ub: Byte, n: nat, junk: seq<Byte>)
    returns (tail: seq<Byte>)
    requires 4 * w <= |msg| <= 4 * w + 4 && partialLen == |msg| - 4 * w && bitCount == 8 * |msg| % TWO64
    requires n < 8 && |junk| == 16
    ensures msg + tail == Padded(msg, ub, n) + junk[12..]
    ensures Absorbed(w, |msg|, |tail|) == |Padded(msg, ub, n)| / 4
  {
    var count := Enc64((bitCount + n) % TWO64);
    PaddedIs(msg, ub, n, bitCount, count);
    tail := TailWith(msg, w, partialLen, count, ub, n, junk);
  }

  lemma PaddedIs(msg: seq<Byte>, ub: Byte, n: nat, bitCount: nat, count: seq<Byte>)
    requires n < 8 && bitCount == 8 * |msg| % TWO64 && count == Enc64((bitCount + n) % TWO64)
    ensures Padded(msg, ub, n) == Laid(msg + Extra(ub, n), count)
  {
    SameBits(|msg|, n, bitCount);
    PaddedBits(msg, ub, n, (bitCount + n) % TWO64, count);
  }

  lemma PaddedBits(msg: seq<Byte>, ub: Byte, n: nat, bits: nat, count: seq<Byte>)
    requires n < 8 && bits == (8 * |msg| + n) % TWO64 && count == Enc64(bits)
    ensures Padded(msg, ub, n) == Laid(msg + Extra(ub, n), count)
  {
  }

  lemma SameBits(size: nat, n: nat, bitCount: nat)
    requires bitCount == 8 * size % TWO64
    ensures (bitCount + n) % TWO64 == (8 * size + n) % TWO64
  {
    CounterAddsBits(size, n);
  }

  method TailWith(ghost msg: seq<Byte>, ghost w: nat, partialLen: nat, count: seq<Byte>, ub: Byte, n: nat, junk: seq<Byte>)
    returns (tail: seq<Byte>)
    requires 4 * w <= |msg| <= 4 * w + 4 && partialLen == |msg| - 4 * w && |count| == 8 && n < 8 && |junk| == 16
    ensures msg + tail == Laid(msg + Extra(ub, n), count) + junk[12..]
    ensures Absorbed(w, |msg|, |tail|) == |Laid(msg + Extra(ub, n), count)| / 4
  {
    var plen := partialLen;
    var head := junk[..4];
    if plen == 0 && n == 0 {
      plen := 4;
    } else if plen < 4 || n != 0 {
      if plen == 4 {
        plen := 0;
      }
      head := FillHead(head, plen, ub, n);
    }
    var buf := head + count + junk[12..];
    NoBitsKept(ub);
    Layout(msg, w, plen, Extra(ub, n), Kept(ub, n), head, count, junk[12..]);
    tail := buf[plen..];
    LaidLength(msg + Extra(ub, n), count);
    TailAbsorbed(w, |msg|, |tail|, |Laid(msg + Extra(ub, n), count)|);
  }

  /** The bits of the last byte, then zeros up to the end of the word. */
  method FillHead(head: seq<Byte>, plen: nat, ub: Byte, n: nat) returns (r: seq<Byte>)
    requires |head| == 4 && plen < 4 && n < 8
    ensures |r| == 4 && r[plen..] == [Kept(ub, n)] + Zeros(3 - plen)
  {
    r := head[plen := Kept(ub, n)];
    var u := plen + 1;
    while u < 4
      invariant plen + 1 <= u <= 4 && |r| == 4 && r[plen] == Kept(ub, n)
      invariant forall k :: plen < k < u ==> r[k] == 0
    {
      r := r[u := 0];
      u := u + 1;
    }
  }

  lemma NoBitsKept(ub: Byte)
    ensures Kept(ub, 0) == 0
  {
    assert (0xFF as Byte) >> 0 == 0xFF;
    assert ub & !(0xFF as Byte) == 0;
  }

  /** The bytes handed to the core are the padding of the message, and four bytes that stay pending. */
  lemma Layout(msg: seq<Byte>, w: nat, plen: nat, extra: seq<Byte>, k: Byte, head: seq<Byte>, count: seq<Byte>,
               rest: seq<Byte>)
    requires |head| == 4 && (extra == [k] || (extra == [] && k == 0))
    requires 4 * w <= |msg| <= 4 * w + 4 && plen <= 4
    requires plen == 4 ==> extra == [] && (|msg| == 4 * w || |msg| == 4 * w + 4)
    requires plen < 4 ==> head[plen..] == [k] + Zeros(3 - plen)
    requires plen < 4 ==> |msg| == 4 * w + plen || (plen == 0 && |msg| == 4 * w + 4)
    requires plen == 0 ==> extra == [k]
    ensures msg + (head + count + rest)[plen..]
         == msg + extra + Zeros(PadLength(|msg + extra|)) + count + rest
  {
    assert (head + count + rest)[plen..] == head[plen..] + count + rest;
    PadLengthIs(|msg + extra|, plen + |extra|, if |msg| == 4 * w + 4 && plen == 0 then w + 1 else w);
    LayoutHead(msg, plen, extra, k, head);
  }

  lemma TailAbsorbed(w: nat, before: nat, tail: nat, whole: nat)
    requires 4 * w <= before <= 4 * w + 4 && tail > 0 && before + tail == whole + 4 && whole % 4 == 0
    ensures Absorbed(w, before, tail) == whole / 4
  {
  }

  lemma LaidLength(m: seq<Byte>, count: seq<Byte>)
    requires |count| == 8
    ensures |Laid(m, count)| % 4 == 0
  {
    PadFills(|m|);
    EightMore(|m| + PadLength(|m|));
  }

  lemma EightMore(n: nat)
    requires n % 4 == 0
    ensures (n + 8) % 4 == 0
  {
  }

  lemma PadFills(k: nat)
    ensures (k + PadLength(k)) % 4 == 0
  {
  }

  lemma PadLengthIs(len: nat, over: nat, w: nat)
    requires 1 <= over <= 4 && (len == 4 * w + over || (over == 4 && len == 4 * w))
    ensures PadLength(len) == 4 - over
  {
  }

  lemma LayoutHead(msg: seq<Byte>, plen: nat, extra: seq<Byte>, k: Byte, head: seq<Byte>)
    requires |head| == 4 && plen <= 4 && (extra == [k] || (extra == [] && k == 0))
    requires plen == 0 ==> extra == [k]
    requires plen == 4 ==> extra == []
    requires plen < 4 ==> head[plen..] == [k] + Zeros(3 - plen)
    ensures msg + head[plen..] == msg + extra + Zeros(4 - plen - |extra|)
  {
    if extra == [] && plen < 4 {
      assert head[plen..] == Zeros(4 - plen);
    }
  }

  lemma CounterAddsBits(a: nat, n: nat)
    ensures (8 * a % TWO64 + n) % TWO64 == (8 * a + n) % TWO64
  {
    var q := 8 * a / TWO64;
    assert 8 * a + n == TWO64 * q + (8 * a % TWO64 + n);
    ModShift(8 * a % TWO64 + n, q);
  }

  /** Moving the last words to the front undoes the renaming. */
  lemma RealignIsRot(s: State, r: nat)
    requires r < 3
    ensures s[36 - 12 * r..] + s[..36 - 12 * r] == Rot(s, Offset(r))
  {
  }

  /** A message fed in any chunks, empty ones included, and closed: the reference state of the padded message. */
  method Digest(iv: State, mix: Mixer, chunks: seq<seq<Byte>>, ub: Byte, n: nat, junk: seq<Byte>) returns (s: State)
    requires n < 8 && |junk| == 16
    ensures s == Final(iv, Flat(chunks), ub, n, mix)
  {
    var c := new Context(iv, mix);
    ghost var w := 0;
    var k := 0;
    assert chunks[..0] == [];
    while k < |chunks|
      invariant 0 <= k <= |chunks| && c.Holds(iv, Flat(chunks[..k]), w) && fresh(c) && fresh(c.words)
      invariant c.round == RoundOf(mix)
    {
      assert chunks[..k + 1][..k] == chunks[..k];
      ghost var msg := Flat(chunks[..k]);
      c.Update(iv, msg, w, chunks[k]);
      w := Absorbed(w, |msg|, |chunks[k]|);
      k := k + 1;
    }
    assert chunks[..k] == chunks;
    s := c.Close(iv, Flat(chunks), w, ub, n, junk);
  }

  lemma CounterAdds(a: nat, b: nat)
    ensures (8 * a % TWO64 + 8 * b) % TWO64 == 8 * (a + b) % TWO64
  {
    var q := 8 * a / TWO64;
    assert 8 * a == TWO64 * q + 8 * a % TWO64;
    var x := 8 * a % TWO64 + 8 * b;
    assert 8 * (a + b) == TWO64 * q + x;
    ModShift(x, q);
  }

  lemma ModShift(x: nat, q: nat)
    ensures (TWO64 * q + x) % TWO64 == x % TWO64
  {
    var d := x / TWO64;
    assert TWO64 * q + x == TWO64 * (q + d) + x % TWO64;
  }

  method ReadWord(ghost pack: seq<Byte> -> Word, ghost all: seq<Byte>, ghost m: nat, data: seq<Byte>, i: nat) returns (p: Word)
    requires Packs(pack) && i + 4 <= |data| && m + |data| == |all| && data == all[m..]
    ensures p == pack(all[m + i..m + i + 4])
  {
    var four := data[i..i + 4];
    assert pack(four) == Pack(four);
    assert four == all[m + i..m + i + 4];
    PackFour(four);
    p := Dec32be(four);
  }

  /** The bytes that are left, as a word of their own. */
  method GatherRest(ghost pack: seq<Byte> -> Word, ghost all: seq<Byte>, ghost from: nat, data: seq<Byte>, i: nat)
    returns (p: Word)
    requires Packs(pack) && i <= |data| && from <= |all| && data[i..] == all[from..]
    ensures p == pack(all[from..])
  {
    assert all[from..from] == [] && pack([]) == Pack([]);
    assert data[i..] == data[i..i + (|data| - i)] && all[from..] == all[from..from + (|data| - i)];
    p := Gather(pack, all, from, from, data, i, |data| - i, 0);
  }

  /** `count` bytes of `data`, from `i`, shifted into `p`; they sit at `at` in the whole message. */
  method Gather(ghost pack: seq<Byte> -> Word, ghost all: seq<Byte>, ghost from: nat, ghost at: nat, data: seq<Byte>, i: nat, count: nat, p0: Word)
    returns (p: Word)
    requires Packs(pack) && from <= at && i + count <= |data| && at + count <= |all|
    requires data[i..i + count] == all[at..at + count] && p0 == pack(all[from..at])
    ensures p == pack(all[from..at + count])
  {
    p := p0;
    assert pack(all[from..at]) == Pack(all[from..at]);
    var k := 0;
    while k < count
      invariant 0 <= k <= count && p == Pack(all[from..at + k])
    {
      assert data[i + k] == data[i..i + count][k] == all[at + k];
      assert all[from..at + k + 1] == all[from..at + k] + [all[at + k]];
      PackNext(all[from..at + k], data[i + k]);
      p := Push(p, data[i + k]);
      k := k + 1;
    }
    assert pack(all[from..at + k]) == Pack(all[from..at + k]);
  }
}
