/**
BLAKE-256 and BLAKE-224: a buffer that takes arbitrary chunks, a bit counter in two 32-bit words that
`close` sets back before the last blocks, and the padding.  The compression function is any function
of the chaining value, the block and the counter.
*/
module Blake {
  import opened Lists
  import opened Words

  const BLOCK: nat := 64

  /** Chaining value and counter words. */
  datatype Chain<S> = Chain(h: S, t0: nat, t1: nat)

  /** What is known after some updates: the state after whole blocks, and the bytes of the next one. */
  datatype Context<C> = Context(chain: C, pending: seq<Byte>)

  type Step<!C> = (C, seq<Byte>) -> C

  type Compress<!S> = (S, seq<Byte>, nat) -> S

  // ---------------------------------------------------------------- what the engine does

  /** A full block: count its bits with carry, then compress under the new count. */
  function Absorb<S>(f: Compress<S>, c: Chain<S>, block: seq<Byte>): Chain<S> {
    var t0 := (c.t0 + 512) % TWO32;
    var t1 := if t0 < 512 then (c.t1 + 1) % TWO32 else c.t1;
    Chain(f(c.h, block, t1 * TWO32 + t0), t0, t1)
  }

  function AbsorbOf<S>(f: Compress<S>): Step<Chain<S>> {
    (c: Chain<S>, block: seq<Byte>) => Absorb(f, c, block)
  }

  /** The first `k` blocks of some bytes. */
  function Blocks<C>(g: Step<C>, c: C, data: seq<Byte>, k: nat): C
    requires BLOCK * k <= |data|
  {
    if k == 0 then c else g(Blocks(g, c, data, k - 1), data[BLOCK * (k - 1)..BLOCK * k])
  }

  function Feed<C>(g: Step<C>, c: Context<C>, data: seq<Byte>): Context<C> {
    var all := c.pending + data;
    var k := |all| / BLOCK;
    Context(Blocks(g, c.chain, all, k), all[BLOCK * k..])
  }

  class Engine<S(!new)> {
    const compress: Compress<S>
    ghost const step: Step<Chain<S>>
    const buf: array<Byte>
    var ptr: nat
    var t0: nat
    var t1: nat
    var h: S

    ghost predicate Valid()
      reads this, buf
    {
      buf.Length == BLOCK && ptr < BLOCK && Steps()
    }

    ghost predicate Steps() {
      forall c: Chain<S>, b: seq<Byte> {:trigger Absorb(compress, c, b)} :: step(c, b) == Absorb(compress, c, b)
    }

    ghost function Value(): Context<Chain<S>>
      reads this, buf
      requires Valid()
    {
      Context(Chain(h, t0, t1), buf[..ptr])
    }

    constructor (f: Compress<S>, iv: S)
      ensures Valid() && Value() == Context(Chain(iv, 0, 0), []) && compress == f && step == AbsorbOf(f) && fresh(buf)
    {
      compress, step := f, AbsorbOf(f);
      buf := new Byte[BLOCK](_ => 0);
      ptr, t0, t1, h := 0, 0, 0, iv;
    }

    /** `len` bytes of `data`, from `i`, into the buffer at `ptr`. */
    method Copy(data: seq<Byte>, i: nat, len: nat)
      requires buf.Length == BLOCK && ptr + len <= BLOCK && i + len <= |data|
      modifies this`ptr, buf
      ensures ptr == old(ptr) + len && buf[..ptr] == old(buf[..ptr]) + data[i..i + len]
    {
      ghost var was := buf[..ptr];
      var p, j := ptr, 0;
      while j < len
        invariant 0 <= j <= len && ptr == p && buf[..p + j] == was + data[i..i + j]
      {
        buf[p + j] := data[i + j];
        j := j + 1;
      }
      ptr := p + len;
    }

    method CompressBuffer()
      requires buf.Length == BLOCK && ptr == BLOCK && Steps()
      modifies this
      ensures Chain(h, t0, t1) == step(old(Chain(h, t0, t1)), buf[..]) && ptr == 0
    {
      assert step(Chain(h, t0, t1), buf[..]) == Absorb(compress, Chain(h, t0, t1), buf[..]);
      t0 := (t0 + 512) % TWO32;
      if t0 < 512 {
        t1 := (t1 + 1) % TWO32;
      }
      h := compress(h, buf[..], t1 * TWO32 + t0);
      ptr := 0;
    }

    method Update(data: seq<Byte>)
      requires Valid()
      modifies this, buf
      ensures Valid() && Value() == Feed(step, old(Value()), data)
    {
      ghost var was := Value();
      ghost var all := was.pending + data;
      if |data| < BLOCK - ptr {
        Copy(data, 0, |data|);
        assert data[0..|data|] == data;
        FeedIs(step, was, data, 0);
        return;
      }
      var i := 0;
      ghost var k := 0;
      while i < |data|
        invariant Valid() && i <= |data| && |was.pending| + i == BLOCK * k + ptr
        invariant Chain(h, t0, t1) == Blocks(step, was.chain, all, k)
        invariant buf[..ptr] == all[BLOCK * k..BLOCK * k + ptr]
        decreases |data| - i
      {
        var clen := BLOCK - ptr;
        if clen > |data| - i {
          clen := |data| - i;
        }
        k := Take(data, i, clen, was.chain, all, |was.pending|, k);
        i := i + clen;
      }
      FeedIs(step, was, data, k);
    }

    /** One pass of the loop: fill the buffer, and compress it when it is full. */
    method Take(data: seq<Byte>, i: nat, clen: nat, ghost c: Chain<S>, ghost all: seq<Byte>, ghost p: nat, ghost k: nat)
      returns (ghost next: nat)
      requires Valid() && p + |data| == |all| && data == all[p..] && i + clen <= |data| && p + i == BLOCK * k + ptr
      requires clen > 0 && ptr + clen <= BLOCK
      requires Chain(h, t0, t1) == Blocks(step, c, all, k) && buf[..ptr] == all[BLOCK * k..BLOCK * k + ptr]
      modifies this, buf
      ensures Valid() && p + i + clen == BLOCK * next + ptr
      ensures Chain(h, t0, t1) == Blocks(step, c, all, next) && buf[..ptr] == all[BLOCK * next..BLOCK * next + ptr]
    {
      next := k;
      assert data[i..i + clen] == all[BLOCK * k + ptr..BLOCK * k + ptr + clen];
      Copy(data, i, clen);
      if ptr == BLOCK {
        assert buf[..] == buf[..ptr] == all[BLOCK * k..BLOCK * (k + 1)];
        BlocksNext(step, c, all, k);
        CompressBuffer();
        next := k + 1;
        assert buf[..0] == all[BLOCK * next..BLOCK * next];
      } else {
        assert buf[..ptr] == all[BLOCK * k..BLOCK * k + ptr];
      }
    }
  }

  lemma BlocksNext<C>(g: Step<C>, c: C, data: seq<Byte>, k: nat)
    requires BLOCK * (k + 1) <= |data|
    ensures Blocks(g, c, data, k + 1) == g(Blocks(g, c, data, k), data[BLOCK * k..BLOCK * (k + 1)])
  {
  }

  lemma FeedIs<C>(g: Step<C>, c: Context<C>, data: seq<Byte>, k: nat)
    requires BLOCK * k <= |c.pending + data| < BLOCK * k + BLOCK
    ensures Feed(g, c, data) == Context(Blocks(g, c.chain, c.pending + data, k), (c.pending + data)[BLOCK * k..])
  {
  }

  // ---------------------------------------------------------------- chunks do not matter

  lemma {:induction false} BlocksPrefix<C>(g: Step<C>, c: C, data: seq<Byte>, more: seq<Byte>, k: nat)
    requires BLOCK * k <= |data|
    ensures Blocks(g, c, data + more, k) == Blocks(g, c, data, k)
  {
    if k > 0 {
      BlocksPrefix(g, c, data, more, k - 1);
      assert (data + more)[BLOCK * (k - 1)..BLOCK * k] == data[BLOCK * (k - 1)..BLOCK * k];
    }
  }

  lemma {:induction false} BlocksSplit<C>(g: Step<C>, c: C, data: seq<Byte>, j: nat, k: nat)
    requires BLOCK * (j + k) <= |data|
    ensures Blocks(g, c, data, j + k) == Blocks(g, Blocks(g, c, data, j), data[BLOCK * j..], k)
  {
    if k > 0 {
      BlocksSplit(g, c, data, j, k - 1);
      BlocksNext(g, c, data, j + k - 1);
      BlocksNext(g, Blocks(g, c, data, j), data[BLOCK * j..], k - 1);
      assert data[BLOCK * j..][BLOCK * (k - 1)..BLOCK * k] == data[BLOCK * (j + k - 1)..BLOCK * (j + k)];
    }
  }

  /** Two updates are one update with both pieces. */
  lemma FeedFeed<C>(g: Step<C>, c: Context<C>, a: seq<Byte>, b: seq<Byte>)
    requires |c.pending| < BLOCK
    ensures Feed(g, Feed(g, c, a), b) == Feed(g, c, a + b)
  {
    var one := c.pending + a;
    var j := |one| / BLOCK;
    var mid := Feed(g, c, a);
    var rest := mid.pending + b;
    var k := |rest| / BLOCK;
    var all := c.pending + (a + b);
    assert all == one + b;
    BlocksPrefix(g, c.chain, one, b, j);
    assert all[BLOCK * j..] == rest;
    BlocksSplit(g, c.chain, all, j, k);
    assert rest[BLOCK * k..] == all[BLOCK * (j + k)..];
    FeedIs(g, c, a + b, j + k);
  }

  method UpdateAll<S(!new)>(e: Engine<S>, chunks: seq<seq<Byte>>)
    requires e.Valid()
    modifies e, e.buf
    ensures e.Valid() && e.Value() == Feed(e.step, old(e.Value()), Flat(chunks))
  {
    var k := 0;
    ghost var was := e.Value();
    FeedIs(e.step, was, [], 0);
    assert was.pending + [] == was.pending && chunks[..0] == [];
    while k < |chunks|
      invariant 0 <= k <= |chunks| && e.Valid() && e.Value() == Feed(e.step, was, Flat(chunks[..k]))
    {
      assert chunks[..k + 1][..k] == chunks[..k];
      FeedFeed(e.step, was, Flat(chunks[..k]), chunks[k]);
      e.Update(chunks[k]);
      k := k + 1;
    }
    assert chunks[..k] == chunks;
  }
}
