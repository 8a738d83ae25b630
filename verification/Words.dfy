/** Bytes, and the big-endian form of words. */
module Words {
  type Byte = bv8

  const TWO32: nat := 0x1_0000_0000
  const TWO64: nat := 0x1_0000_0000_0000_0000

  function Zeros(n: nat): (r: seq<Byte>)
    ensures |r| == n
  {
    seq(n, _ => 0)
  }

  function ByteOf(x: nat): Byte { if x == 0 then 0 else ByteOf(x - 1) + 1 }

  function Enc32(x: nat): (r: seq<Byte>)
    ensures |r| == 4
  {
    [ByteOf(x / 0x1000000 % 0x100), ByteOf(x / 0x10000 % 0x100), ByteOf(x / 0x100 % 0x100), ByteOf(x % 0x100)]
  }

  function Enc64(x: nat): (r: seq<Byte>)
    ensures |r| == 8
  {
    Enc32(x / TWO32) + Enc32(x % TWO32)
  }

  /** The number that bytes stand for, the highest first. */
  function BigEndian(bs: seq<Byte>): nat {
    if bs == [] then 0 else 256 * BigEndian(bs[..|bs| - 1]) + bs[|bs| - 1] as nat
  }

  lemma {:induction false} ByteOfValue(x: nat)
    requires x < 256
    ensures ByteOf(x) as nat == x
  {
    if x > 0 {
      ByteOfValue(x - 1);
      Plus(ByteOf(x - 1));
    }
  }

  lemma Plus(b: Byte)
    requires b as nat < 255
    ensures (b + 1) as nat == b as nat + 1
  {
  }

  lemma FourBytes(a: Byte, b: Byte, c: Byte, d: Byte, more: seq<Byte>)
    ensures BigEndian(more + [a, b, c, d])
         == 256 * (256 * (256 * (256 * BigEndian(more) + a as nat) + b as nat) + c as nat) + d as nat
  {
    TwoBytes(more, a, b);
    TwoBytes(more + [a, b], c, d);
    assert more + [a, b, c, d] == more + [a, b] + [c, d];
  }

  lemma TwoBytes(more: seq<Byte>, a: Byte, b: Byte)
    ensures BigEndian(more + [a, b]) == 256 * (256 * BigEndian(more) + a as nat) + b as nat
  {
    OneByte(more, a);
    OneByte(more + [a], b);
    assert more + [a, b] == more + [a] + [b];
  }

  lemma OneByte(more: seq<Byte>, b: Byte)
    ensures BigEndian(more + [b]) == 256 * BigEndian(more) + b as nat
  {
    assert (more + [b])[..|more|] == more;
  }

  lemma Digits256(x: nat)
    requires x < TWO32
    ensures x == 256 * (256 * (256 * (x / 0x100_0000 % 0x100) + x / 0x1_0000 % 0x100) + x / 0x100 % 0x100) + x % 0x100
  {
    var a, b := x / 0x100, x / 0x1_0000;
    assert a / 0x100 == b && b / 0x100 == x / 0x100_0000;
  }

  lemma AppendWord(more: seq<Byte>, x: nat)
    requires x < TWO32
    ensures BigEndian(more + Enc32(x)) == TWO32 * BigEndian(more) + x
  {
    ByteOfValue(x / 0x1000000 % 0x100);
    ByteOfValue(x / 0x10000 % 0x100);
    ByteOfValue(x / 0x100 % 0x100);
    ByteOfValue(x % 0x100);
    FourBytes(Enc32(x)[0], Enc32(x)[1], Enc32(x)[2], Enc32(x)[3], more);
    Digits256(x);
    assert Enc32(x) == [Enc32(x)[0], Enc32(x)[1], Enc32(x)[2], Enc32(x)[3]];
  }

  /** Eight bytes give back the number below 2^64 that they were made from. */
  lemma EncodedValue(x: nat)
    requires x < TWO64
    ensures BigEndian(Enc64(x)) == x
  {
    AppendWord([], x / TWO32);
    assert [] + Enc32(x / TWO32) == Enc32(x / TWO32);
    AppendWord(Enc32(x / TWO32), x % TWO32);
  }
}
