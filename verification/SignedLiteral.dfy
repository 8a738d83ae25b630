/** The texts of a signed-checkpoint document spelled out, and each of the verifier's answers by its own condition. */
module SignedLiteral {
  import opened SignedText
  import opened SignedCheckpoints
  import Base64

  // ---------------------------------------------------------------- the canonical message

  /** One entry more goes behind the others, after a semicolon. */
  lemma SerializeMore(a: seq<Entry>, e: Entry)
    requires a != []
    ensures Serialize(a + [e]) == Serialize(a) + ";" + (Dec(e.height) + ":" + e.hash + ":" + Dec(e.timestamp))
  {
    assert (a + [e])[..|a|] == a;
  }

  lemma SerializeFirst(e: Entry)
    ensures Serialize([]) == "" && Serialize([e]) == Dec(e.height) + ":" + e.hash + ":" + Dec(e.timestamp)
  {
    assert [e][..0] == [];
    assert Serialize([e]) == "" + "" + SerializeOne(e) == SerializeOne(e);
  }

  // ---------------------------------------------------------------- numbers

  /** The value of a text of digits, the highest first. */
  function Value(s: string): int {
    if s == "" then 0 else 10 * Value(s[..|s| - 1]) + (s[|s| - 1] as int - '0' as int)
  }

  /** Numbers are printed in decimal without a leading zero. */
  lemma {:induction false} DecimalDigits(n: nat)
    ensures Value(DecNat(n)) == n && (n > 0 ==> DecNat(n)[0] != '0') && (n == 0 ==> DecNat(n) == "0")
  {
    var c := ('0' as int + n % 10) as char;
    if n >= 10 {
      DecimalDigits(n / 10);
      assert DecNat(n)[..|DecNat(n)| - 1] == DecNat(n / 10);
    } else {
      assert [c][..0] == "";
    }
  }

  lemma WrapsAgain(m: int, c: int)
    ensures Wrap(Wrap(m) * 10 + c) == Wrap(m * 10 + c)
  {
    var k := (m + 0x8000_0000) / 0x1_0000_0000;
    assert Wrap(m) == m - k * 0x1_0000_0000;
    SameWrap(m * 10 + c, 10 * k);
  }

  lemma SameWrap(x: int, k: int)
    ensures Wrap(x - k * 0x1_0000_0000) == Wrap(x)
  {
    var y := x + 0x8000_0000;
    assert y - k * 0x1_0000_0000 == (y / 0x1_0000_0000 - k) * 0x1_0000_0000 + y % 0x1_0000_0000;
  }

  /** A run of digits is read as its value in 32 bits, with a sign. */
  lemma {:induction false} DigitsRead(s: string)
    requires forall i :: 0 <= i < |s| ==> '0' <= s[i] <= '9'
    ensures ReadDigits(s, 0) == (Value(s) + 0x8000_0000) % 0x1_0000_0000 - 0x8000_0000
  {
    if s != "" {
      var n := |s| - 1;
      var front, c := s[..n], s[n] as int - '0' as int;
      DigitsRead(front);
      assert s == front + [s[n]];
      ReadAppend(front, [s[n]], 0);
      ReadLast(s[n], ReadDigits(front, 0));
      WrapsAgain(Value(front), c);
    }
  }

  lemma ReadLast(c: char, n: int)
    requires '0' <= c <= '9'
    ensures ReadDigits([c], n) == Wrap(n * 10 + (c as int - '0' as int))
  {
    assert [c][1..] == "";
  }

  /** An integer field: the quoted name, any blanks and colons, and its digits. */
  lemma IntField(before: string, field: string, w: string, digits: string, rest: string)
    requires Free(before, Q) && Free(field, Q) && forall i :: 0 <= i < |w| ==> w[i] == ' ' || w[i] == ':' || w[i] == '\t'
    requires digits != "" && forall i :: 0 <= i < |digits| ==> '0' <= digits[i] <= '9'
    requires rest != "" ==> rest[0] < '0' || rest[0] > '9'
    ensures ExtractInt(before + ([Q] + (field + [Q] + (w + (digits + rest)))), field)
         == (Value(digits) + 0x8000_0000) % 0x1_0000_0000 - 0x8000_0000
  {
    FirstSegment(before, field, w + (digits + rest));
    DigitsAfterBlanks(w, digits, rest);
    DigitsRead(digits);
  }

  lemma DigitsAfterBlanks(w: string, digits: string, rest: string)
    requires forall i :: 0 <= i < |w| ==> w[i] == ' ' || w[i] == ':' || w[i] == '\t'
    requires digits != "" && forall i :: 0 <= i < |digits| ==> '0' <= digits[i] <= '9'
    requires rest != "" ==> rest[0] < '0' || rest[0] > '9'
    ensures ReadDigits(Drop(w + (digits + rest), Blank), 0) == ReadDigits(digits, 0)
  {
    assert (digits + rest)[0] == digits[0];
    DropAll(w, digits + rest, Blank);
    ReadAppend(digits, rest, 0);
  }

  /** A string field: the quoted name, any blanks and colons, and the text up to the next quote. */
  lemma TextField(before: string, field: string, w: string, value: string, rest: string)
    requires Free(before, Q) && Free(field, Q) && forall i :: 0 <= i < |w| ==> w[i] == ' ' || w[i] == ':' || w[i] == '\t'
    requires Free(value, Q)
    ensures ExtractString(before + ([Q] + (field + [Q] + (w + ([Q] + (value + [Q] + rest))))), field) == value
  {
    FirstSegment(before, field, w + ([Q] + (value + [Q] + rest)));
    TextAfterBlanks(w, [Q] + (value + [Q] + rest), value, rest);
  }

  lemma TextAfterBlanks(w: string, u: string, value: string, rest: string)
    requires (forall i :: 0 <= i < |w| ==> w[i] == ' ' || w[i] == ':' || w[i] == '\t') && Free(value, Q)
    requires u == [Q] + (value + [Q] + rest)
    ensures ReadString(w + u) == value
  {
    assert u != "" && u[0] == Q && !Blank(Q);
    DropAll(w, u, Blank);
    assert u[1..] == value + [Q] + rest;
    FindQuote(value, rest);
    assert u[1..1 + |value|] == value;
  }

  // ---------------------------------------------------------------- the document

  /** Segments two by two: a text, and a name or value between quotes. */
  lemma Pair(a: string, b: string, more: seq<string>, tail: string)
    ensures Quoted([a, b] + more, tail) == a + (Key(b) + Quoted(more, tail))
  {
    var segs := [a, b] + more;
    assert segs[1..] == [b] + more && segs[1..][1..] == more;
    assert Quoted(segs[1..], tail) == b + [Q] + Quoted(more, tail);
    assert a + [Q] + (b + [Q] + Quoted(more, tail)) == a + (([Q] + b + [Q]) + Quoted(more, tail));
  }

  /** The text of one entry: each name and the hash between quotes. */
  lemma ObjectText(e: Entry)
    ensures Object(e)
         == "{" + (Key("height") + (": " + Dec(e.height) + ", " + (Key("hash") + (": " + (Key(e.hash) +
            (", " + (Key("timestamp") + (": " + Dec(e.timestamp) + "}"))))))))
  {
    var h, t := ": " + Dec(e.height) + ", ", ": " + Dec(e.timestamp) + "}";
    Pair(", ", "timestamp", [], t);
    Pair(": ", e.hash, [", ", "timestamp"], t);
    Pair(h, "hash", [": ", e.hash] + [", ", "timestamp"], t);
    Pair("{", "height", [h, "hash"] + ([": ", e.hash] + [", ", "timestamp"]), t);
    assert [", ", "timestamp"] + [] == [", ", "timestamp"];
    assert ObjectSegments(e) == ["{", "height"] + ([h, "hash"] + ([": ", e.hash] + [", ", "timestamp"]));
  }

  /** The text of the document: five fields, and the objects of the array on lines of their own. */
  lemma DocumentText(es: seq<Entry>, address: string, message: string, signature: string)
    ensures Document(es, address, message, signature)
         == "{\n  " + (Key("format_version") + (": 1,\n  " + (Key("signing_address") + (": " + (Key(address) +
            (",\n  " + (Key("message") + (": " + (Key(message) + (",\n  " + (Key("signature") + (": " + (Key(signature) +
            (",\n  " + (Key("entries") + (": [" + ("\n" + (Body(Texts(es)) + ("  " + "]\n}\n")))))))))))))))))))
  {
    var t := DocumentTail(es);
    var segs := DocumentSegments(address, message, signature);
    FourPairs(segs[8], segs[9], segs[10], segs[11], segs[12], segs[13], segs[14], segs[15], [], t);
    FourPairs(segs[0], segs[1], segs[2], segs[3], segs[4], segs[5], segs[6], segs[7], segs[8..], t);
    assert segs == [segs[0], segs[1], segs[2], segs[3], segs[4], segs[5], segs[6], segs[7]] + segs[8..];
    assert segs[8..] == [segs[8], segs[9], segs[10], segs[11], segs[12], segs[13], segs[14], segs[15]] + [];
  }

  lemma FourPairs(a: string, b: string, c: string, d: string, e: string, f: string, g: string, h: string,
                  more: seq<string>, tail: string)
    ensures Quoted([a, b, c, d, e, f, g, h] + more, tail)
         == a + (Key(b) + (c + (Key(d) + (e + (Key(f) + (g + (Key(h) + Quoted(more, tail))))))))
  {
    Pair(g, h, more, tail);
    Pair(e, f, [g, h] + more, tail);
    Pair(c, d, [e, f] + ([g, h] + more), tail);
    Pair(a, b, [c, d] + ([e, f] + ([g, h] + more)), tail);
    assert [a, b, c, d, e, f, g, h] + more == [a, b] + ([c, d] + ([e, f] + ([g, h] + more)));
  }

  /** Each object stands after four blanks, and a comma ends every line but the last. */
  lemma {:induction false} BodyLines(ts: seq<string>, t: string)
    ensures Body([t]) == "    " + t + "\n"
    ensures ts != [] ==> Body([t] + ts) == "    " + t + ",\n" + Body(ts)
  {
    assert [t][1..] == [] && ([t] + ts)[1..] == ts;
    assert "    " + t + "" + "\n" + Body([]) == "    " + t + "\n";
    assert "    " + t + "," + "\n" + Body(ts) == "    " + t + ",\n" + Body(ts);
  }

  // ---------------------------------------------------------------- the verdict

  predicate AcceptableHash(h: string) { |h| == 64 && forall i :: 0 <= i < 64 ==> h[i] in "0123456789abcdef" }

  /** What is read of one object of the array is what an entry may hold. */
  predicate Acceptable(obj: string) {
    && ExtractInt(obj, "height") > 0 && ExtractInt(obj, "timestamp") > 0
    && AcceptableHash(ExtractString(obj, "hash"))
  }

  lemma HexIs(h: string)
    ensures h != "" && GoodHash(h) <==> AcceptableHash(h)
  {
    forall c: char ensures LowerHex(c) <==> c in "0123456789abcdef" {
      HexDigit(c);
    }
    assert forall i :: 0 <= i < |h| ==> (LowerHex(h[i]) <==> h[i] in "0123456789abcdef");
  }

  lemma HexDigit(c: char)
    ensures LowerHex(c) <==> c in "0123456789abcdef"
  {
  }

  lemma AcceptableIs(obj: string)
    ensures Sound(ReadEntry(obj)) <==> Acceptable(obj)
  {
    HexIs(ReadEntry(obj).hash);
  }

  lemma {:induction false} EntriesAre(read: string -> Entry, objs: seq<string>)
    ensures
      var r := ReadEntries(read, objs);
      && (r.Entries? <==> forall i :: 0 <= i < |objs| ==> Sound(read(objs[i])))
      && (r.Entries? ==> |r.es| == |objs| && forall i :: 0 <= i < |objs| ==> r.es[i] == read(objs[i]))
  {
    if objs != [] {
      var n := |objs| - 1;
      EntriesAre(read, objs[..n]);
      assert forall i :: 0 <= i < n ==> objs[..n][i] == objs[i];
    }
  }

  /** What the verifier reads of a document. */
  predicate Reads(doc: string, address: string, signature: string, message: string, objs: seq<string>) {
    && address == ExtractString(doc, "signing_address") && signature == ExtractString(doc, "signature")
    && message == ExtractString(doc, "message") && objs == ExtractObjects(doc, "entries")
  }

  /** The first test that fails names the reason ... */
  lemma FirstReason(doc: string, recovers: Recovery, address: string, signature: string, message: string, objs: seq<string>)
    requires Reads(doc, address, signature, message, objs)
    ensures
      var v := Verify(doc, recovers);
      if address == "" || signature == "" || message == "" then v == Rejected(NoFields)
      else if address != TRUSTED then v == Rejected(NotTrusted)
      else if !SixtyFive(recovers, address, message, signature) then v == Rejected(BadSignature)
      else if objs == [] then v == Rejected(NoEntries)
      else v == EntriesVerdict(objs, message, address)
  {
    SignedIs(recovers, address, message, signature);
    VerifyJudges(doc, recovers, address, signature, message, objs);
    JudgedInOrder(TRUSTED, address, signature, message, objs, Checker(recovers));
  }

  lemma VerifyJudges(doc: string, recovers: Recovery, address: string, signature: string, message: string, objs: seq<string>)
    requires Reads(doc, address, signature, message, objs)
    ensures Verify(doc, recovers) == Judge(TRUSTED, address, signature, message, objs, ReadEntry, Checker(recovers))
  {
  }

  lemma JudgedInOrder(trusted: string, address: string, signature: string, message: string, objs: seq<string>, valid: Signatures)
    ensures
      var v := Judge(trusted, address, signature, message, objs, ReadEntry, valid);
      if address == "" || signature == "" || message == "" then v == Rejected(NoFields)
      else if address != trusted then v == Rejected(NotTrusted)
      else if !valid(address, message, signature) then v == Rejected(BadSignature)
      else if objs == [] then v == Rejected(NoEntries)
      else v == EntriesVerdict(objs, message, address)
  {
  }

  /** ... and with all fields in order the entries decide. */
  function EntriesVerdict(objs: seq<string>, message: string, signer: string): Verdict {
    match ReadEntries(ReadEntry, objs)
    case Malformed => Rejected(BadEntry)
    case Entries(es) => if Serialize(es) != message then Rejected(Mismatch) else Accepted(es, signer)
  }

  predicate AllAcceptable(objs: seq<string>) { forall i :: 0 <= i < |objs| ==> Acceptable(objs[i]) }

  function ReadEach(objs: seq<string>): (es: seq<Entry>)
    ensures |es| == |objs|
  {
    seq(|objs|, i requires 0 <= i < |objs| =>
      Entry(ExtractInt(objs[i], "height"), ExtractString(objs[i], "hash"), ExtractInt(objs[i], "timestamp")))
  }

  lemma EachIs(objs: seq<string>, i: nat)
    requires i < |objs|
    ensures ReadEach(objs)[i] == ReadEntry(objs[i])
  {
  }

  lemma ReadAllIs(objs: seq<string>)
    ensures ReadEntries(ReadEntry, objs) == if AllAcceptable(objs) then Entries(ReadEach(objs)) else Malformed
  {
    EntriesAre(ReadEntry, objs);
    forall i | 0 <= i < |objs| ensures Sound(ReadEntry(objs[i])) <==> Acceptable(objs[i]) {
      AcceptableIs(objs[i]);
    }
    AllAre(ReadEntry, objs, ReadEntries(ReadEntry, objs), ReadEach(objs));
  }

  lemma AllAre(read: string -> Entry, objs: seq<string>, r: Entries, es: seq<Entry>)
    requires forall i :: 0 <= i < |objs| ==> (Sound(read(objs[i])) <==> Acceptable(objs[i]))
    requires r.Entries? <==> forall i :: 0 <= i < |objs| ==> Sound(read(objs[i]))
    requires r.Entries? ==> |r.es| == |objs| && forall i :: 0 <= i < |objs| ==> r.es[i] == read(objs[i])
    requires |es| == |objs| && forall i :: 0 <= i < |objs| ==> es[i] == read(objs[i])
    ensures r == if AllAcceptable(objs) then Entries(es) else Malformed
  {
    if r.Entries? {
      assert r.es == es;
    }
  }

  /** Every object must be acceptable, and the canonical message of what is read of them must be the signed one. */
  lemma EntriesDecide(objs: seq<string>, message: string, signer: string)
    ensures EntriesVerdict(objs, message, signer)
         == if !AllAcceptable(objs) then Rejected(BadEntry)
            else if Serialize(ReadEach(objs)) != message then Rejected(Mismatch)
            else Accepted(ReadEach(objs), signer)
  {
    ReadAllIs(objs);
  }

  /** The text of a signature stands for 65 bytes, and these recover the key of the address. */
  predicate SixtyFive(recovers: Recovery, address: string, message: string, signature: string) {
    var r := Base64.Decode(signature);
    r.Bytes? && |r.bytes| == 65 && recovers(address, message, r.bytes)
  }

  lemma SignedIs(recovers: Recovery, address: string, message: string, signature: string)
    ensures Checker(recovers)(address, message, signature) <==> SixtyFive(recovers, address, message, signature)
  {
  }
}
