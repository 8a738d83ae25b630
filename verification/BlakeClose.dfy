/** BLAKE-256 and BLAKE-224: what `close` does, against the padding and the counters of the specification. */
module BlakeClose {
  import opened Blake
  import opened Words

  // ---------------------------------------------------------------- bits

  function Bits8(b: Byte): (r: seq<bool>)
    ensures |r| == 8
  {
    [b & 0x80 != 0, b & 0x40 != 0, b & 0x20 != 0, b & 0x10 != 0, b & 0x08 != 0, b & 0x04 != 0, b & 0x02 != 0, b & 0x01 != 0]
  }

  function Expand(f: Byte -> seq<bool>, bs: seq<Byte>): seq<bool> {
    if bs == [] then [] else Expand(f, bs[..|bs| - 1]) + f(bs[|bs| - 1])
  }

  function Bits(bs: seq<Byte>): seq<bool> { Expand(Bits8, bs) }

  function Falses(n: nat): (r: seq<bool>)
    ensures |r| == n
  {
    seq(n, _ => false)
  }

  lemma {:induction false} ExpandAppend(f: Byte -> seq<bool>, a: seq<Byte>, b: seq<Byte>)
    ensures Expand(f, a + b) == Expand(f, a) + Expand(f, b)
  {
    if b == [] {
      assert a + b == a;
    } else {
      var front, z := b[..|b| - 1], b[|b| - 1];
      ExpandAppend(f, a, front);
      assert (a + b)[..|a + b| - 1] == a + front;
      assert Expand(f, a + front) + f(z) == Expand(f, a) + (Expand(f, front) + f(z));
    }
  }

  lemma {:induction false} ExpandZeros(f: Byte -> seq<bool>, n: nat)
    requires f(0) == Falses(8)
    ensures Expand(f, Zeros(n)) == Falses(8 * n)
  {
    if n > 0 {
      ExpandZeros(f, n - 1);
      assert Zeros(n)[..n - 1] == Zeros(n - 1);
      assert Falses(8 * n) == Falses(8 * (n - 1)) + Falses(8);
    }
  }

  lemma ExpandOne(f: Byte -> seq<bool>, b: Byte)
    ensures Expand(f, [b]) == f(b)
  {
    assert [b][..0] == [];
  }

  lemma ZeroBits()
    ensures Bits8(0) == Falses(8)
  {
  }

  // ---------------------------------------------------------------- the padding of the specification

  /** All message bits: whole bytes and then the first `n` bits of one more. */
  function Message(msg: seq<Byte>, ub: Byte, n: nat): seq<bool>
    requires n < 8
  {
    Bits(msg) + Bits8(ub)[..n]
  }

  /** A one, the fewest zeros that leave room, one bit that tells the two sizes apart, the length. */
  function Padding(len: nat, last: bool, count: seq<Byte>): seq<bool> {
    [true] + Falses((446 - len) % 512) + [last] + Bits(count)
  }

  /** The count under which block `i` of a message of `len` bits is compressed: the message bits up to
      its end, or zero when it holds none. */
  function Count(len: nat, i: nat): nat {
    if len <= 512 * i then 0 else (if len < 512 * (i + 1) then len else 512 * (i + 1)) % TWO64
  }

  /** The chaining value after `k` blocks of `data`. */
  function Reference<S>(f: Compress<S>, iv: S, data: seq<Byte>, len: nat, k: nat): S
    requires BLOCK * k <= |data|
  {
    if k == 0 then iv
    else f(Reference(f, iv, data, len, k - 1), data[BLOCK * (k - 1)..BLOCK * k], Count(len, k - 1))
  }

  /** The padding fills a whole number of 512-bit blocks, with the fewest zeros: up to 446 bits of the last block can
      be message. */
  lemma PaddingFills(msg: seq<Byte>, ub: Byte, n: nat, last: bool, count: seq<Byte>, zeros: nat)
    requires n < 8 && |count| == 8 && zeros < 512 && (8 * |msg| + n + 66 + zeros) % 512 == 0
    ensures Padding(8 * |msg| + n, last, count) == [true] + Falses(zeros) + [last] + Bits(count)
    ensures |Message(msg, ub, n) + Padding(8 * |msg| + n, last, count)| == 8 * |msg| + n + zeros + 66
  {
    BitCount(Bits8, msg);
    BitCount(Bits8, count);
    ZerosAre(8 * |msg| + n, zeros);
  }

  lemma ZerosAre(len: nat, zeros: nat)
    requires zeros < 512 && (len + 66 + zeros) % 512 == 0
    ensures (446 - len) % 512 == zeros
  {
    var q := (len + 66 + zeros) / 512;
    assert 446 - len == 512 * (1 - q) + zeros;
  }

  lemma {:induction false} BitCount(f: Byte -> seq<bool>, bs: seq<Byte>)
    requires forall b :: |f(b)| == 8
    ensures |Expand(f, bs)| == 8 * |bs|
  {
    if bs != [] {
      BitCount(f, bs[..|bs| - 1]);
    }
  }

  /** The counts under which the blocks are compressed: 512 bits more for each block of message bits, all bits for the
      one they end in, and zero for a block of padding only. */
  lemma CountsAre(len: nat, i: nat)
    ensures 512 * i + 512 <= len ==> Count(len, i) == (512 * i + 512) % 0x1_0000_0000_0000_0000
    ensures 512 * i < len <= 512 * i + 512 ==> Count(len, i) == len % 0x1_0000_0000_0000_0000
    ensures len <= 512 * i ==> Count(len, i) == 0
  {
  }

  // ---------------------------------------------------------------- the padding of the engine

  /** The first `n` bits of the last byte stay, a one follows, and zeros fill it. */
  lemma PadBytes(ub: Byte)
    ensures PadByte(ub, 0) == 0x80 && PadByte(ub, 1) == (ub & 0x80) | 0x40 && PadByte(ub, 2) == (ub & 0xC0) | 0x20
    ensures PadByte(ub, 3) == (ub & 0xE0) | 0x10 && PadByte(ub, 4) == (ub & 0xF0) | 0x08 && PadByte(ub, 5) == (ub & 0xF8) | 0x04
    ensures PadByte(ub, 6) == (ub & 0xFC) | 0x02 && PadByte(ub, 7) == (ub & 0xFE) | 0x01
  {
  }

  /** The highest bit of a byte comes first. */
  lemma BitAt(b: Byte, i: nat)
    requires i < 8
    ensures Bits8(b)[i] <==> (b << i) & 0x80 != 0
  {
    match i
    case 0 =>
    case 1 =>
    case 2 =>
    case 3 =>
    case 4 =>
    case 5 =>
    case 6 =>
    case 7 =>
  }

  function PadByte(ub: Byte, n: nat): Byte
    requires n < 8
  {
    (ub & (0 - Top(n))) | Top(n)
  }

  /** 0x80 shifted right by `n`. */
  function Top(n: nat): Byte
    requires n < 8
  {
    match n
    case 0 => 0x80
    case 1 => 0x40
    case 2 => 0x20
    case 3 => 0x10
    case 4 => 0x08
    case 5 => 0x04
    case 6 => 0x02
    case 7 => 0x01
  }

  function Mark(last: bool): Byte { if last then 1 else 0 }

  /** The bytes before the length when they fit in the last block: `k` of them. */
  function Head(b: Byte, last: bool, k: nat): (r: seq<Byte>)
    requires k >= 1
    ensures |r| == k
  {
    Marked([b] + Zeros(k - 1), Mark(last))
  }

  function LongHead(b: Byte, last: bool, k: nat): (r: seq<Byte>)
    requires k >= 1
    ensures |r| == k + 56
  {
    [b] + Zeros(k - 1) + Zeros(55) + [Mark(last)]
  }

  /** What is appended to a message that ends with `ptr` bytes in the buffer. */
  function Tail(ptr: nat, ub: Byte, n: nat, last: bool, count: seq<Byte>): (r: seq<Byte>)
    requires ptr < BLOCK && n < 8 && |count| == 8
    ensures |r| == if 8 * ptr + n <= 446 then 64 - ptr else 128 - ptr
  {
    EngineHead(ptr, PadByte(ub, n), n, last) + count
  }

  lemma PadByteBits(ub: Byte, n: nat)
    requires n < 8
    ensures Bits8(PadByte(ub, n)) == Bits8(ub)[..n] + [true] + Falses(7 - n)
  {
    match n
    case 0 =>
    case 1 =>
    case 2 =>
    case 3 =>
    case 4 =>
    case 5 =>
    case 6 =>
    case 7 =>
  }

  lemma MarkBits(b: Byte, last: bool)
    requires !Bits8(b)[7]
    ensures Bits8(b | Mark(last)) == Bits8(b)[..7] + [last]
  {
  }

  /** What matters about the bits of the padding byte, whose message bits are `u`, and of the mark. */
  predicate ByteFacts(f: Byte -> seq<bool>, b: Byte, u: seq<bool>, last: bool) {
    && |u| < 8
    && f(0) == Falses(8) && f(Mark(last)) == Falses(7) + [last] && f(b) == u + [true] + Falses(7 - |u|)
    && (|u| < 7 ==> f(b | Mark(last)) == u + [true] + Falses(6 - |u|) + [last])
  }

  lemma MarkAlone(last: bool)
    ensures Bits8(0) == Falses(8) && Bits8(Mark(last)) == Falses(7) + [last]
  {
    ZeroBits();
    if last {
      assert Bits8(1) == [false, false, false, false, false, false, false, true];
    }
  }

  lemma MarkJoined(ub: Byte, n: nat, last: bool)
    requires n < 7
    ensures Bits8(PadByte(ub, n) | Mark(last)) == Bits8(ub)[..n] + [true] + Falses(6 - n) + [last]
  {
    PadByteBits(ub, n);
    JoinBits(PadByte(ub, n), Bits8(ub)[..n], last);
  }

  lemma JoinBits(b: Byte, u: seq<bool>, last: bool)
    requires |u| < 7 && Bits8(b) == u + [true] + Falses(7 - |u|)
    ensures Bits8(b | Mark(last)) == u + [true] + Falses(6 - |u|) + [last]
  {
    assert (u + [true] + Falses(7 - |u|))[..7] == u + [true] + Falses(6 - |u|);
    assert !(u + [true] + Falses(7 - |u|))[7];
    MarkBits(b, last);
  }

  lemma {:induction false} BytesAreFine(ub: Byte, n: nat, last: bool)
    requires n < 8
    ensures ByteFacts(Bits8, PadByte(ub, n), Bits8(ub)[..n], last)
  {
    PadByteBits(ub, n);
    MarkAlone(last);
    if n < 7 {
      MarkJoined(ub, n, last);
    }
  }

  lemma HeadExpands(f: Byte -> seq<bool>, b: Byte, u: seq<bool>, last: bool, k: nat)
    requires ByteFacts(f, b, u, last) && k >= 1 && (k == 1 ==> |u| < 7)
    ensures Expand(f, Head(b, last, k)) == u + [true] + Falses(8 * k - |u| - 2) + [last]
  {
    if k == 1 {
      assert Head(b, last, 1) == [b | Mark(last)];
      ExpandOne(f, b | Mark(last));
    } else {
      HeadIsLong(b, last, k);
      LongExpands(f, b, u, Mark(last), last, k - 2);
    }
  }

  lemma LongExpands(f: Byte -> seq<bool>, b: Byte, u: seq<bool>, m: Byte, last: bool, k: nat)
    requires |u| < 8 && f(0) == Falses(8) && f(m) == Falses(7) + [last] && f(b) == u + [true] + Falses(7 - |u|)
    ensures Expand(f, [b] + Zeros(k) + [m]) == u + [true] + Falses(8 * k + 14 - |u|) + [last]
  {
    ExpandAppend(f, [b] + Zeros(k), [m]);
    ExpandAppend(f, [b], Zeros(k));
    ExpandZeros(f, k);
    ExpandOne(f, m);
    ExpandOne(f, b);
    ThreeFalses(7 - |u|, 8 * k);
    var x, y := Falses(7 - |u|), Falses(8 * k);
    assert (u + [true] + x) + y + (Falses(7) + [last]) == u + [true] + (x + y + Falses(7)) + [last];
  }

  lemma ThreeFalses(a: nat, b: nat)
    ensures Falses(a) + Falses(b) + Falses(7) == Falses(a + b + 7)
  {
  }

  lemma OrZero(m: Byte)
    ensures 0 | m == m
  {
  }

  lemma HeadIsLong(b: Byte, last: bool, k: nat)
    requires k >= 2
    ensures Head(b, last, k) == [b] + Zeros(k - 2) + [Mark(last)]
  {
    OrZero(Mark(last));
  }

  lemma LongHeadIsHead(b: Byte, last: bool, k: nat)
    requires k >= 1
    ensures LongHead(b, last, k) == Head(b, last, k + 56)
  {
    HeadIsLong(b, last, k + 56);
    assert Zeros(k - 1) + Zeros(55) == Zeros(k + 54);
  }

  function EngineHead(ptr: nat, b: Byte, n: nat, last: bool): (r: seq<Byte>)
    requires ptr < BLOCK && n < 8
    ensures |r| == if 8 * ptr + n <= 446 then 56 - ptr else 120 - ptr
  {
    if 8 * ptr + n <= 446 then Head(b, last, 56 - ptr) else LongHead(b, last, 64 - ptr)
  }

  function Gap(bits: nat): nat
    requires bits < 512
  {
    if bits <= 446 then 446 - bits else 958 - bits
  }

  lemma EngineHeadExpands(f: Byte -> seq<bool>, ptr: nat, b: Byte, u: seq<bool>, last: bool)
    requires ptr < BLOCK && ByteFacts(f, b, u, last)
    ensures Expand(f, EngineHead(ptr, b, |u|, last)) == u + [true] + Falses(Gap(8 * ptr + |u|)) + [last]
  {
    var k := if 8 * ptr + |u| <= 446 then 56 - ptr else 120 - ptr;
    HeadExpands(f, b, u, last, k);
    EngineHeadIs(ptr, b, |u|, last);
    assert 8 * k - |u| - 2 == Gap(8 * ptr + |u|);
  }

  lemma EngineHeadIs(ptr: nat, b: Byte, n: nat, last: bool)
    requires ptr < BLOCK && n < 8
    ensures EngineHead(ptr, b, n, last) == Head(b, last, if 8 * ptr + n <= 446 then 56 - ptr else 120 - ptr)
  {
    if 8 * ptr + n > 446 {
      LongHeadIsHead(b, last, 64 - ptr);
    }
  }

  /** Bit for bit, what the engine appends is the padding of the specification. */
  lemma TailIsPadding(msg: seq<Byte>, ptr: nat, ub: Byte, n: nat, last: bool, count: seq<Byte>, k: nat)
    requires ptr < BLOCK && n < 8 && |msg| == BLOCK * k + ptr && |count| == 8
    ensures
      Bits(msg + Tail(ptr, ub, n, last, count)) == Message(msg, ub, n) + Padding(8 * |msg| + n, last, count)
  {
    BytesAreFine(ub, n, last);
    EngineHeadExpands(Bits8, ptr, PadByte(ub, n), Bits8(ub)[..n], last);
    GapIs(8 * |msg| + n, 8 * ptr + n, k);
    Assemble(Bits8, msg, EngineHead(ptr, PadByte(ub, n), n, last), count, Bits8(ub)[..n], Gap(8 * ptr + n), last);
  }

  lemma Assemble(f: Byte -> seq<bool>, msg: seq<Byte>, head: seq<Byte>, count: seq<Byte>, u: seq<bool>, gap: nat, last: bool)
    requires Expand(f, head) == u + [true] + Falses(gap) + [last]
    ensures Expand(f, msg + (head + count))
         == (Expand(f, msg) + u) + ([true] + Falses(gap) + [last] + Expand(f, count))
  {
    ExpandAppend(f, msg, head + count);
    ExpandAppend(f, head, count);
  }

  lemma GapIs(len: nat, bits: nat, k: nat)
    requires len == 512 * k + bits && bits < 512
    ensures (446 - len) % 512 == Gap(bits)
  {
    var z: int := k;
    assert 446 - len == (if bits <= 446 then -512 * z else -512 * z - 512) + Gap(bits);
  }

  // ---------------------------------------------------------------- the counter words

  /** The two words hold `bits` modulo 2^64, and `bits` is a whole number of blocks. */
  predicate Counts(bits: nat, t0: nat, t1: nat) {
    t0 < TWO32 && t1 < TWO32 && t0 % 512 == 0 && bits % TWO64 == t1 * TWO32 + t0
  }

  function Tick0(t0: nat): nat { (t0 + 512) % TWO32 }

  function Tick1(t0: nat, t1: nat): nat { if Tick0(t0) < 512 then (t1 + 1) % TWO32 else t1 }

  lemma TickCounts(bits: nat, t0: nat, t1: nat)
    requires Counts(bits, t0, t1)
    ensures Counts(bits + 512, Tick0(t0), Tick1(t0, t1))
  {
    var w := bits / TWO64;
    assert bits == w * TWO64 + (t1 * TWO32 + t0);
    if t0 + 512 < TWO32 {
      ModIs(bits + 512, w, t1 * TWO32 + t0 + 512);
    } else {
      assert t0 + 512 == TWO32;
      if t1 + 1 < TWO32 {
        ModIs(bits + 512, w, (t1 + 1) * TWO32);
      } else {
        ModIs(bits + 512, w + 1, 0);
      }
    }
  }

  lemma ModIs(x: nat, w: nat, r: nat)
    requires x == w * TWO64 + r && r < TWO64
    ensures x % TWO64 == r
  {
  }

  /** The words `close` sets before the block that ends the message. */
  function Set0(t0: nat, bits: nat): nat
    requires bits < 512
  {
    if bits == 0 then 0xFFFFFE00 else if t0 == 0 then 0xFFFFFE00 + bits else (t0 + bits + TWO32 - 512) % TWO32
  }

  function Set1(t0: nat, t1: nat, bits: nat): nat {
    if bits == 0 then 0xFFFFFFFF else if t0 == 0 then (t1 + TWO32 - 1) % TWO32 else t1
  }

  lemma TickSet(t0: nat, t1: nat, bits: nat)
    requires t0 < TWO32 && t1 < TWO32 && t0 % 512 == 0 && bits < 512
    ensures Tick0(Set0(t0, bits)) == if bits == 0 then 0 else t0 + bits
    ensures Tick1(Set0(t0, bits), Set1(t0, t1, bits)) == if bits == 0 then 0 else t1
  {
    assert t0 + 512 <= TWO32;
    assert TWO32 == 512 * (TWO32 / 512);
  }

  /** After the engine's own addition of 512 they hold the true count, or zero when the block holds no
      message bit; and the length that goes into the padding is the true one. */
  lemma SetCounts(before: nat, t0: nat, t1: nat, bits: nat)
    requires Counts(before, t0, t1) && bits < 512
    ensures
      var v0 := Tick0(Set0(t0, bits));
      var v1 := Tick1(Set0(t0, bits), Set1(t0, t1, bits));
      v1 * TWO32 + v0 == if bits == 0 then 0 else (before + bits) % TWO64
    ensures (before + bits) % TWO64 == t1 * TWO32 + (t0 + bits) && t0 + bits < TWO32
  {
    TickSet(t0, t1, bits);
    var w := before / TWO64;
    assert before == w * TWO64 + (t1 * TWO32 + t0);
    assert t0 + 512 <= TWO32;
    ModIs(before + bits, w, t1 * TWO32 + t0 + bits);
  }

  /** Before `close`, counter words and chaining value are those of the specification, for any longer message. */
  lemma {:induction false} BlocksCount<S(!new)>(f: Compress<S>, iv: S, msg: seq<Byte>, len: nat, k: nat)
    requires BLOCK * k <= |msg| && 512 * k <= len
    ensures
      var c := Blocks(AbsorbOf(f), Chain(iv, 0, 0), msg, k);
      Counts(512 * k, c.t0, c.t1) && c.h == Reference(f, iv, msg, len, k)
  {
    TicksOn(f, AbsorbOf(f), len);
    BlocksTick(f, AbsorbOf(f), Chain(iv, 0, 0), msg, len, k);
  }

  /** Absorbing a block compresses it under its count and leaves the counter words at the bits so far. */
  ghost predicate TicksAt<S>(f: Compress<S>, g: Step<Chain<S>>, len: nat, c: Chain<S>, block: seq<Byte>, j: nat) {
    Counts(512 * j, c.t0, c.t1) && 512 * (j + 1) <= len ==>
      Counts(512 * (j + 1), g(c, block).t0, g(c, block).t1) && g(c, block).h == f(c.h, block, Count(len, j))
  }

  ghost predicate Ticks<S(!new)>(f: Compress<S>, g: Step<Chain<S>>, len: nat) {
    forall c: Chain<S>, block: seq<Byte>, j: nat :: TicksAt(f, g, len, c, block, j)
  }

  lemma {:induction false} BlocksTick<S(!new)>(f: Compress<S>, g: Step<Chain<S>>, c0: Chain<S>, msg: seq<Byte>, len: nat, k: nat)
    requires Ticks(f, g, len) && c0.t0 == 0 && c0.t1 == 0 && BLOCK * k <= |msg| && 512 * k <= len
    ensures
      var c := Blocks(g, c0, msg, k);
      Counts(512 * k, c.t0, c.t1) && c.h == Reference(f, c0.h, msg, len, k)
  {
    if k > 0 {
      BlocksTick(f, g, c0, msg, len, k - 1);
      BlocksNext(g, c0, msg, k - 1);
      ReferenceUnfold(f, c0.h, msg, len, k - 1);
      assert TicksAt(f, g, len, Blocks(g, c0, msg, k - 1), msg[BLOCK * (k - 1)..BLOCK * k], k - 1);
    }
  }

  lemma TicksOn<S(!new)>(f: Compress<S>, g: Step<Chain<S>>, len: nat)
    requires g == AbsorbOf(f)
    ensures Ticks(f, g, len)
  {
    forall c: Chain<S>, block: seq<Byte>, j: nat ensures TicksAt(f, g, len, c, block, j) {
      if Counts(512 * j, c.t0, c.t1) && 512 * (j + 1) <= len {
        TickOne(f, g, c, block, len, j);
      }
    }
  }

  lemma TickOne<S>(f: Compress<S>, g: Step<Chain<S>>, c: Chain<S>, block: seq<Byte>, len: nat, k: nat)
    requires g == AbsorbOf(f) && Counts(512 * k, c.t0, c.t1) && 512 * (k + 1) <= len
    ensures
      var d := g(c, block);
      Counts(512 * (k + 1), d.t0, d.t1) && d.h == f(c.h, block, Count(len, k))
  {
    AbsorbCounts(f, c, block, len, k);
  }

  lemma AbsorbCounts<S>(f: Compress<S>, c: Chain<S>, block: seq<Byte>, len: nat, k: nat)
    requires Counts(512 * k, c.t0, c.t1) && 512 * (k + 1) <= len
    ensures
      var d := Absorb(f, c, block);
      Counts(512 * (k + 1), d.t0, d.t1) && d.h == f(c.h, block, Count(len, k))
  {
    TickCounts(512 * k, c.t0, c.t1);
    var d := Absorb(f, c, block);
    assert d.t0 == Tick0(c.t0) && d.t1 == Tick1(c.t0, c.t1);
    assert Count(len, k) == 512 * (k + 1) % TWO64;
  }

  lemma {:induction false} ReferencePrefix<S>(f: Compress<S>, iv: S, data: seq<Byte>, more: seq<Byte>, len: nat, k: nat)
    requires BLOCK * k <= |data|
    ensures Reference(f, iv, data + more, len, k) == Reference(f, iv, data, len, k)
  {
    if k > 0 {
      ReferencePrefix(f, iv, data, more, len, k - 1);
      assert (data + more)[BLOCK * (k - 1)..BLOCK * k] == data[BLOCK * (k - 1)..BLOCK * k];
    }
  }

  lemma ReferenceNext<S>(f: Compress<S>, iv: S, data: seq<Byte>, block: seq<Byte>, rest: seq<Byte>, all: seq<Byte>,
                         len: nat, k: nat)
    requires |data| == BLOCK * k && |block| == BLOCK && all == data + block + rest
    ensures Reference(f, iv, all, len, k + 1) == f(Reference(f, iv, data, len, k), block, Count(len, k))
  {
    assert all == data + (block + rest);
    ReferencePrefix(f, iv, data, block + rest, len, k);
    assert all[BLOCK * k..BLOCK * (k + 1)] == block;
    ReferenceUnfold(f, iv, all, len, k);
  }

  lemma ReferenceUnfold<S>(f: Compress<S>, iv: S, data: seq<Byte>, len: nat, k: nat)
    requires BLOCK * (k + 1) <= |data|
    ensures Reference(f, iv, data, len, k + 1)
         == f(Reference(f, iv, data, len, k), data[BLOCK * k..BLOCK * (k + 1)], Count(len, k))
  {
  }

  // ---------------------------------------------------------------- close

  /** The padding byte and zeros, from `ptr` up to `end`. */
  method Fill(u: array<Byte>, ptr: nat, b: Byte, end: nat)
    requires ptr < end <= u.Length
    modifies u
    ensures u[ptr..end] == [b] + Zeros(end - ptr - 1)
  {
    u[ptr] := b;
    var i := ptr + 1;
    while i < end
      invariant ptr < i <= end && u[ptr..i] == [b] + Zeros(i - ptr - 1)
    {
      u[i] := 0;
      i := i + 1;
    }
  }

  /** The end of a last block: padding byte, zeros, mark and length. */
  method FillLast(ptr: nat, b: Byte, last: bool, count: seq<Byte>) returns (tail: seq<Byte>)
    requires ptr < 56
    ensures tail == Head(b, last, 56 - ptr) + count
  {
    var u := new Byte[BLOCK];
    Fill(u, ptr, b, 56);
    tail := Marked(u[ptr..56], Mark(last)) + count;
  }

  function Marked(head: seq<Byte>, m: Byte): (r: seq<Byte>)
    requires head != []
    ensures |r| == |head|
  {
    head[|head| - 1 := head[|head| - 1] | m]
  }

  method FillFirst(ptr: nat, b: Byte) returns (tail: seq<Byte>)
    requires ptr < BLOCK
    ensures tail == [b] + Zeros(63 - ptr)
  {
    var u := new Byte[BLOCK];
    Fill(u, ptr, b, BLOCK);
    tail := u[ptr..BLOCK];
  }

  /** An update that completes exactly one block. */
  lemma FeedOne<C>(g: Step<C>, c: Context<C>, data: seq<Byte>)
    requires |c.pending + data| == BLOCK
    ensures Feed(g, c, data) == Context(g(c.chain, c.pending + data), [])
  {
    FeedIs(g, c, data, 1);
    var all := c.pending + data;
    BlocksNext(g, c.chain, all, 0);
    assert all[BLOCK * 0..BLOCK * 1] == all;
  }

  /** One block through the engine, from counter words `t0` and `t1`. */
  method LastBlock<S(!new)>(e: Engine<S>, data: seq<Byte>, t0: nat, t1: nat)
    requires e.Valid() && e.ptr + |data| == BLOCK && e.step == AbsorbOf(e.compress)
    modifies e, e.buf
    ensures e.Valid() && e.ptr == 0
    ensures e.h == e.compress(old(e.h), old(e.buf[..e.ptr]) + data, Tick1(t0, t1) * TWO32 + Tick0(t0))
  {
    e.t0, e.t1 := t0, t1;
    ghost var was := e.Value();
    FeedOne(e.step, was, data);
    e.Update(data);
    assert e.Value().pending == [];
    assert e.step(was.chain, was.pending + data) == Absorb(e.compress, was.chain, was.pending + data);
  }

  /** The engine stands behind the `k` blocks of `data`, with the rest of the message in its buffer. */
  ghost predicate Stands<S(!new)>(e: Engine<S>, iv: S, data: seq<Byte>, pending: seq<Byte>, len: nat, k: nat)
    reads e, e.buf
  {
    && e.Valid() && e.step == AbsorbOf(e.compress)
    && |data| == BLOCK * k && e.buf[..e.ptr] == pending
    && 512 * k <= len < 512 * (k + 1)
    && e.h == Reference(e.compress, iv, data, len, k)
  }

  /** The block that ends the message; `tail` fills the buffer. */
  method EndMessage<S(!new)>(e: Engine<S>, ghost iv: S, ghost data: seq<Byte>, ghost pending: seq<Byte>,
                             tail: seq<Byte>, ghost rest: seq<Byte>, ghost len: nat, ghost k: nat, u0: nat, u1: nat)
    requires Stands(e, iv, data, pending, len, k) && e.ptr + |tail| == BLOCK
    requires Tick1(u0, u1) * TWO32 + Tick0(u0) == if len == 512 * k then 0 else len % TWO64
    modifies e, e.buf
    ensures e.Valid() && e.ptr == 0
    ensures
      var all := data + pending + (tail + rest);
      |all| >= BLOCK * (k + 1) && e.h == Reference(e.compress, iv, all, len, k + 1)
  {
    LastBlock(e, tail, u0, u1);
    OneMore(e.compress, iv, data + pending, data, pending, tail, rest, len, k);
  }

  /** A block of padding only. */
  method EndPadding<S(!new)>(e: Engine<S>, ghost iv: S, ghost data: seq<Byte>, ghost pending: seq<Byte>,
                             ghost first: seq<Byte>, second: seq<Byte>, ghost len: nat, ghost k: nat)
    requires e.Valid() && e.step == AbsorbOf(e.compress) && e.ptr == 0 && |second| == BLOCK && len < 512 * (k + 1)
    requires |data| == BLOCK * k && |pending| + |first| == BLOCK
    requires e.h == Reference(e.compress, iv, data + pending + (first + second), len, k + 1)
    modifies e, e.buf
    ensures e.Valid()
    ensures
      var all := data + pending + (first + second);
      |all| == BLOCK * (k + 2) && e.h == Reference(e.compress, iv, all, len, k + 2)
  {
    assert e.buf[..e.ptr] == [] && [] + second == second;
    LastBlock(e, second, 0xFFFFFE00, 0xFFFFFFFF);
    TwoMore(e.compress, iv, data + pending, data, pending, first, second, len, k);
  }

  /** Where the engine stands after a message. */
  lemma StandsAfter<S(!new)>(e: Engine<S>, iv: S, msg: seq<Byte>, len: nat, k: nat)
    requires e.Valid() && e.step == AbsorbOf(e.compress) && e.Value() == Feed(e.step, Context(Chain(iv, 0, 0), []), msg)
    requires k == |msg| / BLOCK && 8 * |msg| <= len < 8 * |msg| + 8
    ensures Stands(e, iv, msg[..BLOCK * k], msg[BLOCK * k..], len, k) && Counts(512 * k, e.t0, e.t1)
  {
    assert [] + msg == msg;
    FeedIs(e.step, Context(Chain(iv, 0, 0), []), msg, k);
    BlocksCount(e.compress, iv, msg, len, k);
    assert msg == msg[..BLOCK * k] + msg[BLOCK * k..];
    ReferencePrefix(e.compress, iv, msg[..BLOCK * k], msg[BLOCK * k..], len, k);
  }

  /** What is appended, block by block; `b` is the padding byte. */
  method FillBlocks(ptr: nat, b: Byte, n: nat, last: bool, count: seq<Byte>) returns (first: seq<Byte>, second: seq<Byte>)
    requires ptr < BLOCK && n < 8 && |count| == 8
    ensures first + second == EngineHead(ptr, b, n, last) + count
    ensures |first| == BLOCK - ptr && |second| == if 8 * ptr + n <= 446 then 0 else BLOCK
  {
    if 8 * ptr + n <= 446 {
      first := FillLast(ptr, b, last, count);
      second := [];
    } else {
      first := FillFirst(ptr, b);
      second := Zeros(55) + [Mark(last)] + count;
      Regroup([b] + Zeros(63 - ptr), Zeros(55), [Mark(last)], count);
    }
  }

  lemma Regroup<T>(a: seq<T>, b: seq<T>, c: seq<T>, d: seq<T>)
    ensures a + (b + c + d) == a + b + c + d
  {
  }

  method FillTail(ptr: nat, ub: Byte, n: nat, last: bool, count: seq<Byte>) returns (first: seq<Byte>, second: seq<Byte>)
    requires ptr < BLOCK && n < 8 && |count| == 8
    ensures first + second == Tail(ptr, ub, n, last, count)
    ensures |first| == BLOCK - ptr && |second| == if 8 * ptr + n <= 446 then 0 else BLOCK
  {
    first, second := FillBlocks(ptr, PadByte(ub, n), n, last, count);
  }

  method Finish<S(!new)>(e: Engine<S>, ghost iv: S, ghost data: seq<Byte>, ghost pending: seq<Byte>, first: seq<Byte>,
                         second: seq<Byte>, ghost len: nat, ghost k: nat, u0: nat, u1: nat)
    requires Stands(e, iv, data, pending, len, k) && e.ptr + |first| == BLOCK && (second == [] || |second| == BLOCK)
    requires Tick1(u0, u1) * TWO32 + Tick0(u0) == if len == 512 * k then 0 else len % TWO64
    modifies e, e.buf
    ensures
      var all, j := data + pending + (first + second), if second == [] then k + 1 else k + 2;
      |all| == BLOCK * j && e.h == Reference(e.compress, iv, all, len, j)
  {
    EndMessage(e, iv, data, pending, first, second, len, k, u0, u1);
    if second != [] {
      EndPadding(e, iv, data, pending, first, second, len, k);
    }
  }

  /** `h` is the chaining value of the specification over a padded message of `len` bits. */
  ghost predicate IsDigest<S(!new)>(f: Compress<S>, iv: S, all: seq<Byte>, len: nat, h: S) {
    |all| % BLOCK == 0 && h == Reference(f, iv, all, len, |all| / BLOCK)
  }

  lemma DigestIs<S(!new)>(f: Compress<S>, iv: S, all: seq<Byte>, len: nat, j: nat, h: S)
    requires |all| == BLOCK * j && h == Reference(f, iv, all, len, j)
    ensures IsDigest(f, iv, all, len, h)
  {
  }

  /** `close` leaves the chaining value of the specification over the padded message. */
  method Close<S(!new)>(e: Engine<S>, ghost iv: S, ghost msg: seq<Byte>, ub: Byte, n: nat, last: bool)
    requires e.Valid() && n < 8 && e.step == AbsorbOf(e.compress)
    requires e.Value() == Feed(e.step, Context(Chain(iv, 0, 0), []), msg)
    modifies e, e.buf
    ensures
      var len := 8 * |msg| + n;
      IsDigest(e.compress, iv, msg + Tail(|msg| % BLOCK, ub, n, last, Enc64(len % TWO64)), len, e.h)
  {
    ghost var k, len := |msg| / BLOCK, 8 * |msg| + n;
    var count := CloseCounted(e, iv, msg, ub, n, last, len, k);
  }

  method CloseCounted<S(!new)>(e: Engine<S>, ghost iv: S, ghost msg: seq<Byte>, ub: Byte, n: nat, last: bool,
                               ghost len: nat, ghost k: nat)
    returns (count: seq<Byte>)
    requires e.Valid() && n < 8 && e.step == AbsorbOf(e.compress)
    requires e.Value() == Feed(e.step, Context(Chain(iv, 0, 0), []), msg)
    requires k == |msg| / BLOCK && len == 8 * |msg| + n
    modifies e, e.buf
    ensures count == Enc64(len % TWO64)
    ensures IsDigest(e.compress, iv, msg + Tail(|msg| % BLOCK, ub, n, last, count), len, e.h)
  {
    var first, second, u0, u1;
    count, first, second, u0, u1 := Prepare(e, iv, msg, ub, n, last, len, k);
    CloseWith(e, iv, msg, first, second, len, k, u0, u1);
  }

  /** The length, the bytes to append and the counter words to set. */
  method Prepare<S(!new)>(e: Engine<S>, ghost iv: S, ghost msg: seq<Byte>, ub: Byte, n: nat, last: bool,
                          ghost len: nat, ghost k: nat)
    returns (count: seq<Byte>, first: seq<Byte>, second: seq<Byte>, u0: nat, u1: nat)
    requires e.Valid() && e.step == AbsorbOf(e.compress) && e.Value() == Feed(e.step, Context(Chain(iv, 0, 0), []), msg)
    requires k == |msg| / BLOCK && len == 8 * |msg| + n && n < 8
    ensures Stands(e, iv, msg[..BLOCK * k], msg[BLOCK * k..], len, k)
    ensures Tick1(u0, u1) * TWO32 + Tick0(u0) == if len == 512 * k then 0 else len % TWO64
    ensures e.ptr + |first| == BLOCK && (second == [] || |second| == BLOCK)
    ensures count == Enc64(len % TWO64) && first + second == Tail(|msg| % BLOCK, ub, n, last, count)
  {
    count, u0, u1 := CloseWords(e, iv, msg, n, len, k);
    first, second := FillTail(e.ptr, ub, n, last, count);
  }

  method CloseWords<S(!new)>(e: Engine<S>, ghost iv: S, ghost msg: seq<Byte>, n: nat, ghost len: nat, ghost k: nat)
    returns (count: seq<Byte>, u0: nat, u1: nat)
    requires e.Valid() && e.step == AbsorbOf(e.compress) && e.Value() == Feed(e.step, Context(Chain(iv, 0, 0), []), msg)
    requires k == |msg| / BLOCK && len == 8 * |msg| + n && n < 8
    ensures Stands(e, iv, msg[..BLOCK * k], msg[BLOCK * k..], len, k) && e.ptr == |msg| % BLOCK
    ensures Tick1(u0, u1) * TWO32 + Tick0(u0) == if len == 512 * k then 0 else len % TWO64
    ensures count == Enc64(len % TWO64)
  {
    ClosingWords(e, iv, msg, n, len, k);
    var bits := 8 * e.ptr + n;
    u0, u1 := Set0(e.t0, bits), Set1(e.t0, e.t1, bits);
    count := Enc32(e.t1) + Enc32(e.t0 + bits);
  }

  lemma {:induction false} ClosingWords<S(!new)>(e: Engine<S>, iv: S, msg: seq<Byte>, n: nat, len: nat, k: nat)
    requires e.Valid() && e.step == AbsorbOf(e.compress) && e.Value() == Feed(e.step, Context(Chain(iv, 0, 0), []), msg)
    requires k == |msg| / BLOCK && len == 8 * |msg| + n && n < 8
    ensures Stands(e, iv, msg[..BLOCK * k], msg[BLOCK * k..], len, k) && e.ptr == |msg| % BLOCK
    ensures
      var bits := 8 * e.ptr + n;
      var u0, u1 := Set0(e.t0, bits), Set1(e.t0, e.t1, bits);
      && (Tick1(u0, u1) * TWO32 + Tick0(u0) == if len == 512 * k then 0 else len % TWO64)
      && Enc32(e.t1) + Enc32(e.t0 + bits) == Enc64(len % TWO64)
  {
    StandsAfter(e, iv, msg, len, k);
    var bits := 8 * e.ptr + n;
    assert len == 512 * k + bits;
    SetCounts(512 * k, e.t0, e.t1, bits);
    LengthWords(len % TWO64, e.t1, e.t0 + bits);
  }

  method CloseWith<S(!new)>(e: Engine<S>, ghost iv: S, ghost msg: seq<Byte>, first: seq<Byte>,
                            second: seq<Byte>, ghost len: nat, ghost k: nat, u0: nat, u1: nat)
    requires BLOCK * k <= |msg| && Stands(e, iv, msg[..BLOCK * k], msg[BLOCK * k..], len, k)
    requires e.ptr + |first| == BLOCK && (second == [] || |second| == BLOCK)
    requires Tick1(u0, u1) * TWO32 + Tick0(u0) == if len == 512 * k then 0 else len % TWO64
    modifies e, e.buf
    ensures IsDigest(e.compress, iv, msg + (first + second), len, e.h)
  {
    ghost var data, pending := msg[..BLOCK * k], msg[BLOCK * k..];
    assert data + pending == msg;
    Finish(e, iv, data, pending, first, second, len, k, u0, u1);
    DigestIs(e.compress, iv, msg + (first + second), len, if second == [] then k + 1 else k + 2, e.h);
  }

  lemma LengthWords(x: nat, th: nat, tl: nat)
    requires x == th * TWO32 + tl && tl < TWO32
    ensures x / TWO32 == th && x % TWO32 == tl
  {
  }

  /** The block that ends the message, under the count that the specification asks for. */
  lemma OneMore<S>(f: Compress<S>, iv: S, msg: seq<Byte>, data: seq<Byte>, pending: seq<Byte>, tail: seq<Byte>,
                   rest: seq<Byte>, len: nat, k: nat)
    requires |data| == BLOCK * k && msg == data + pending && |pending| + |tail| == BLOCK
    requires 512 * k <= len < 512 * (k + 1)
    ensures Reference(f, iv, msg + (tail + rest), len, k + 1)
         == f(Reference(f, iv, data, len, k), pending + tail, if len == 512 * k then 0 else len % TWO64)
  {
    assert msg + (tail + rest) == data + (pending + tail) + rest;
    ReferenceNext(f, iv, data, pending + tail, rest, msg + (tail + rest), len, k);
  }

  /** A block of padding alone is compressed under zero. */
  lemma TwoMore<S>(f: Compress<S>, iv: S, msg: seq<Byte>, data: seq<Byte>, pending: seq<Byte>, first: seq<Byte>,
                   second: seq<Byte>, len: nat, k: nat)
    requires |data| == BLOCK * k && msg == data + pending && |pending| + |first| == BLOCK && |second| == BLOCK
    requires len < 512 * (k + 1)
    ensures Reference(f, iv, msg + (first + second), len, k + 2)
         == f(Reference(f, iv, msg + (first + second), len, k + 1), second, 0)
  {
    var all := msg + (first + second);
    assert all[BLOCK * (k + 1)..BLOCK * (k + 2)] == second;
    ReferenceUnfold(f, iv, all, len, k + 1);
  }
}
