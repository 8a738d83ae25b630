/** What the DER readers take, in bytes and numbers. */
module DerForm {
  import opened Der
  import opened Positional

  lemma TwoTo56(n: nat)
    requires n == 7
    ensures Pow(256, n) == 0x100_0000_0000_0000
  {
    var three := 3;
    assert Pow(256, three) == 0x100_0000;
    PowAdd(256, three, three);
    PowAdd(256, three + three, 1);
    assert Pow(256, 1) == 256;
  }

  /** A length below 128 is its own byte. */
  lemma ShortLength(n: int, rest: Bytes)
    requires 0 <= n < 128
    ensures ReadLength([n] + rest) == Cut(n, rest)
  {
    assert ([n] + rest)[1..] == rest;
  }

  /** Otherwise the low seven bits count the bytes of the length that follow, the highest first; leading zeros do not
      matter, but the length must be below 2^56. */
  lemma LongLength(body: Bytes, rest: Bytes)
    requires |body| < 128 && InBase(body, 256)
    ensures ReadLength([128 + |body|] + body + rest)
         == if Value(body, 256) < 0x100_0000_0000_0000 then Cut(Value(body, 256), rest) else Failed
  {
    var t := [128 + |body|] + body + rest;
    assert t[1..1 + |body|] == body && t[1 + |body|..] == rest;
    FitsIff(body, 7);
    TwoTo56(7);
    StripValue(body);
  }

  lemma CutLength(n: int, t: Bytes)
    requires |t| < n < 128
    ensures ReadLength([128 + n] + t) == Failed && ReadLength([]) == Failed
  {
  }

  /** Two tagged integers in a tagged sequence, with lengths of one byte: the answer is the two numbers if both are
      below the order, whatever the outer length says and whatever follows. */
  lemma {:induction false} SignatureRead(l: int, r: Bytes, s: Bytes, rest: Bytes, order: int)
    requires 0 <= l < 128 && |r| < 128 && |s| < 128 && InBase(r, 256) && InBase(s, 256) && order <= Pow(256, 32)
    ensures Parse([0x30, l] + ([0x02, |r|] + r + ([0x02, |s|] + s + rest)), order)
         == if Value(r, 256) < order && Value(s, 256) < order then Signature(Value(r, 256), Value(s, 256))
            else Signature(0, 0)
  {
    var i, j := [0x02] + [|r|] + r, [0x02] + [|s|] + s;
    var p := Parts([l], i, [|r|], r, j, [|s|], s, rest);
    assert [0x30, l] + ([0x02, |r|] + r + ([0x02, |s|] + s + rest)) == [0x30] + ([l] + (i + (j + rest)));
    EncodingParses([0x30] + ([l] + (i + (j + rest))), p, order);
    CompactIsValues(r, s, order);
  }

  /** A template with `n` bytes of outer length: the version, the tag and length of the key, and 32 bytes of key. */
  predicate Template(der: Bytes, n: nat, key: Bytes) {
    && |der| >= n + 38 && der[0] == 0x30
    && ((n == 1 && der[1] < 0x80) || (n == 2 && der[1] == 0x81) || (n == 3 && der[1] == 0x82))
    && der[n + 1] == 2 && der[n + 2] == 1 && der[n + 3] == 1 && der[n + 4] == 4 && der[n + 5] == 32
    && der[n + 6..n + 38] == key
  }

  /** A private key is read exactly from a template that holds it, if it is valid. */
  lemma ImportsExactly(der: Bytes, valid: Bytes -> bool, key: Bytes)
    ensures Imported(der, valid) == Key(key) <==>
              valid(key) && (Template(der, 1, key) || Template(der, 2, key) || Template(der, 3, key))
  {
    var o := OuterSize(der);
    if |der| >= 1 + o + 37 {
      FiveBytes(der, 1 + o);
    }
  }
}
