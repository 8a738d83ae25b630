/** The encoding as section 4 of RFC 4648 words it: groups of 24 bits, cut into four numbers of six bits. */
module Base64Text {
  import opened Base64

  /** The alphabet by its character codes: capitals, small letters, digits, plus and slash. */
  function Letter(d: int): char
    requires 0 <= d < 64
  {
    (if d < 26 then 65 + d else if d < 52 then 71 + d else if d < 62 then d - 4 else if d == 62 then 43 else 47) as char
  }

  lemma LetterIs(d: Sextet)
    ensures CODE.letter(d) == Letter(d)
  {
  }

  /** The four numbers of a group of three bytes. */
  lemma GroupCut(x: Byte, y: Byte, z: Byte, v: int)
    requires v == (x as int) * 65536 + (y as int) * 256 + z
    ensures First(x) == v / 262144 && Second(x, y) == v / 4096 % 64
    ensures Third(y, z) == v / 64 % 64 && Fourth(z) == v % 64
  {
    Sum(First(x), Second(x, y), Third(y, z), Fourth(z), v);
  }

  lemma Sum(a: Sextet, b: Sextet, c: Sextet, d: Sextet, v: int)
    requires v == a * 262144 + b * 4096 + c * 64 + d
    ensures a == v / 262144 && b == v / 4096 % 64 && c == v / 64 % 64 && d == v % 64
  {
  }

  /** A group of three bytes, written. */
  function Group(x: int, y: int, z: int): string
    requires 0 <= x < 256 && 0 <= y < 256 && 0 <= z < 256
  {
    var v := x * 65536 + y * 256 + z;
    [Letter(v / 262144), Letter(v / 4096 % 64), Letter(v / 64 % 64), Letter(v % 64)]
  }

  lemma GroupIs(x: Byte, y: Byte, z: Byte)
    ensures Group(x, y, z) == [Letter(First(x)), Letter(Second(x, y)), Letter(Third(y, z)), Letter(Fourth(z))]
  {
    GroupCut(x, y, z, (x as int) * 65536 + (y as int) * 256 + z);
  }

  lemma TextIs(a: Sextet, b: Sextet, c: Sextet, d: Sextet)
    ensures Text(CODE, [a, b, c, d]) == [Letter(a), Letter(b), Letter(c), Letter(d)]
    ensures Text(CODE, [a, b]) == [Letter(a), Letter(b)] && Text(CODE, [a, b, c]) == [Letter(a), Letter(b), Letter(c)]
  {
    LetterIs(a);
    LetterIs(b);
    LetterIs(c);
    LetterIs(d);
  }

  lemma GroupWritten(x: Byte, y: Byte, z: Byte)
    ensures Text(CODE, FourOf(CODE, [x, y, z])) == Group(x, y, z)
  {
    GroupIs(x, y, z);
    TextIs(First(x), Second(x, y), Third(y, z), Fourth(z));
  }

  lemma FewWritten(x: Byte, y: Byte)
    ensures Text(CODE, Split(CODE, [x])) == Group(x, 0, 0)[..2]
    ensures Text(CODE, Split(CODE, [x, y])) == Group(x, y, 0)[..3]
  {
    GroupIs(x, 0, 0);
    GroupIs(x, y, 0);
    TextIs(First(x), Second(x, 0), 0, 0);
    TextIs(First(x), Second(x, y), Third(y, 0), 0);
  }

  /** The group that some bytes start with: of one or two bytes at the end the bits missing are zero, and padding
      characters stand for the letters of zeros alone. */
  function FirstGroup(b: seq<Byte>): (g: string)
    requires b != []
    ensures |g| == 4
  {
    if |b| == 1 then Group(b[0], 0, 0)[..2] + "=="
    else if |b| == 2 then Group(b[0], b[1], 0)[..3] + "="
    else Group(b[0], b[1], b[2])
  }

  /** The encoding is group after group, for every three bytes and what is left of them. */
  lemma {:induction false} EncodedGroups(b: seq<Byte>, i: nat)
    requires 3 * i < |b|
    ensures 4 * i + 4 <= |Encode(b)| == (|b| + 2) / 3 * 4
    ensures Encode(b)[4 * i..4 * i + 4] == FirstGroup(b[3 * i..])
  {
    EncodedLength(b);
    if i > 0 {
      EncodedGroups(b[3..], i - 1);
      EncodedRest(b);
      Later(Encode(b), Encode(b[3..]), Text(CODE, FourOf(CODE, [b[0], b[1], b[2]])), i);
      assert b[3..][3 * (i - 1)..] == b[3 * i..];
    } else {
      EncodedFirst(b);
      assert b[3 * i..] == b;
    }
  }

  lemma Later(e: string, rest: string, four: string, i: nat)
    requires e == four + rest && |four| == 4 && i > 0 && 4 * i <= |rest|
    ensures e[4 * i..4 * i + 4] == rest[4 * (i - 1)..4 * (i - 1) + 4]
  {
  }

  lemma EncodedFirst(b: seq<Byte>)
    requires b != []
    ensures |Encode(b)| >= 4 && Encode(b)[..4] == FirstGroup(b)
  {
    EncodedLength(b);
    if |b| == 1 {
      FewWritten(b[0], 0);
      assert b == [b[0]];
    } else if |b| == 2 {
      FewWritten(b[0], b[1]);
      assert b == [b[0], b[1]];
    } else {
      GroupWritten(b[0], b[1], b[2]);
      EncodedRest(b);
    }
  }

  lemma EncodedRest(b: seq<Byte>)
    requires |b| >= 3
    ensures Encode(b) == Text(CODE, FourOf(CODE, [b[0], b[1], b[2]])) + Encode(b[3..])
  {
    var d, e := FourOf(CODE, b), Split(CODE, b[3..]);
    assert d == FourOf(CODE, [b[0], b[1], b[2]]);
    TextMore(CODE, d, e);
    assert |Split(CODE, b)| == 4 + |e|;
  }
}
