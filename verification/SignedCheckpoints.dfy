/** The signed-checkpoint document: what the verifier accepts, and the round trip from printer to verifier. */
module SignedCheckpoints {
  import opened SignedText
  import Base64

  const TRUSTED := "TG8f76yktTxDrT7JJymY3wVAusXiD3fVvX"

  predicate LowerHex(c: char) { '0' <= c <= '9' || 'a' <= c <= 'f' }

  predicate GoodHash(h: string) { |h| == 64 && forall i :: 0 <= i < |h| ==> LowerHex(h[i]) }

  /** What the verifier asks of an entry; its numbers are C `int`s. */
  predicate Good(e: Entry) { 0 < e.height < 0x8000_0000 && 0 < e.timestamp < 0x8000_0000 && GoodHash(e.hash) }

  predicate AllGood(es: seq<Entry>) { forall i :: 0 <= i < |es| ==> Good(es[i]) }

  // ---------------------------------------------------------------- the verifier

  datatype Reason = NoFields | NotTrusted | BadSignature | NoEntries | BadEntry | Mismatch

  datatype Verdict = Accepted(entries: seq<Entry>, signer: string) | Rejected(reason: Reason)

  function ReadEntry(obj: string): Entry {
    Entry(ExtractInt(obj, "height"), ExtractString(obj, "hash"), ExtractInt(obj, "timestamp"))
  }

  predicate Sound(e: Entry) { e.height > 0 && e.hash != "" && e.timestamp > 0 && GoodHash(e.hash) }

  datatype Entries = Malformed | Entries(es: seq<Entry>)

  function ReadEntries(read: string -> Entry, objs: seq<string>): Entries {
    if objs == [] then Entries([]) else
    match ReadEntries(read, objs[..|objs| - 1])
    case Malformed => Malformed
    case Entries(es) =>
      var e := read(objs[|objs| - 1]);
      if Sound(e) then Entries(es + [e]) else Malformed
  }

  const COMPACT_SIZE := 65

  /** Address decoding and key recovery: whether the bytes of a compact signature of the message recover the
      key of the address. */
  type Recovery = (string, string, seq<Base64.Byte>) -> bool

  /** What the verifier asks of the text of a signature. */
  predicate Signed(recovers: Recovery, address: string, message: string, signature: string) {
    match Base64.Decode(signature)
    case Invalid => false
    case Bytes(bytes) => |bytes| == COMPACT_SIZE && recovers(address, message, bytes)
  }

  type Signatures = (string, string, string) -> bool

  function Checker(recovers: Recovery): Signatures {
    (address, message, signature) => Signed(recovers, address, message, signature)
  }

  function Verify(doc: string, recovers: Recovery): Verdict {
    Judge(TRUSTED, ExtractString(doc, "signing_address"), ExtractString(doc, "signature"), ExtractString(doc, "message"),
          ExtractObjects(doc, "entries"), ReadEntry, Checker(recovers))
  }

  function Judge(trusted: string, address: string, signature: string, message: string, objs: seq<string>,
                 read: string -> Entry, valid: Signatures): Verdict {
    if address == "" || signature == "" || message == "" then Rejected(NoFields)
    else if address != trusted then Rejected(NotTrusted)
    else if !valid(address, message, signature) then Rejected(BadSignature)
    else if objs == [] then Rejected(NoEntries)
    else
      match ReadEntries(read, objs)
      case Malformed => Rejected(BadEntry)
      case Entries(es) => if Serialize(es) != message then Rejected(Mismatch) else Accepted(es, address)
  }

  // ---------------------------------------------------------------- numbers

  lemma {:induction false} ReadAppend(a: string, b: string, n: int)
    requires forall i :: 0 <= i < |a| ==> IsDigit(a[i])
    ensures ReadDigits(a + b, n) == ReadDigits(b, ReadDigits(a, n))
  {
    if a == "" {
      assert a + b == b;
    } else {
      assert (a + b)[1..] == a[1..] + b;
      ReadAppend(a[1..], b, Wrap(n * 10 + (a[0] as int - '0' as int)));
    }
  }

  lemma {:induction false} ReadDec(n: nat)
    requires n < 0x8000_0000
    ensures ReadDigits(DecNat(n), 0) == n
  {
    var c := ('0' as int + n % 10) as char;
    if n < 10 {
      ReadOne(c, 0);
    } else {
      ReadDec(n / 10);
      ReadAppend(DecNat(n / 10), [c], 0);
      ReadOne(c, n / 10);
    }
  }

  lemma ReadOne(c: char, n: int)
    requires IsDigit(c) && 0 <= n * 10 + (c as int - '0' as int) < 0x8000_0000
    ensures ReadDigits([c], n) == n * 10 + (c as int - '0' as int)
  {
    assert [c][1..] == "";
  }

  /** A number after a key, up to whatever follows it. */
  lemma ReadsNumber(n: nat, rest: string)
    requires n < 0x8000_0000 && rest != "" && !IsDigit(rest[0])
    ensures ReadDigits(Drop(": " + (DecNat(n) + rest), Blank), 0) == n
  {
    assert (DecNat(n) + rest)[0] == DecNat(n)[0] && IsDigit(DecNat(n)[0]);
    DropBlanks(DecNat(n) + rest);
    ReadAppend(DecNat(n), rest, 0);
    ReadDec(n);
  }

  lemma {:induction false} ReadInRange(s: string, n: int)
    requires -0x8000_0000 <= n < 0x8000_0000
    ensures -0x8000_0000 <= ReadDigits(s, n) < 0x8000_0000
  {
    if s != "" && IsDigit(s[0]) {
      ReadInRange(s[1..], Wrap(n * 10 + (s[0] as int - '0' as int)));
    }
  }

  // ---------------------------------------------------------------- one entry

  lemma DigitsFree(n: nat, c: char)
    requires !IsDigit(c)
    ensures Free(DecNat(n), c)
  {
  }

  lemma ObjectFree(e: Entry, c: char)
    requires Good(e) && (c == Q || c == '}' || (c == '{'))
    ensures forall i :: 1 <= i < 8 ==> Free(ObjectSegments(e)[i], c)
    ensures Free(ObjectTail(e), c)
  {
    DigitsFree(e.height, c);
    DigitsFree(e.timestamp, c);
    assert Free(e.hash, c) by { assert forall k :: 0 <= k < |e.hash| ==> LowerHex(e.hash[k]); }
    assert Free(": " + DecNat(e.height) + ", ", c);
  }

  lemma ObjectPlain(e: Entry)
    requires Good(e)
    ensures Plain(ObjectSegments(e))
  {
    ObjectFree(e, Q);
    assert Free("{", Q);
  }

  lemma HeightReads(e: Entry)
    requires Good(e)
    ensures ExtractInt(Object(e), "height") == e.height
  {
    var segs, t := ObjectSegments(e), ObjectTail(e) + "}";
    ObjectPlain(e);
    FindsSegment(segs, t, "height", 1);
    var rest := segs[2..];
    var after := ", " + ([Q] + Quoted(rest[1..], t));
    assert rest[0] == ": " + DecNat(e.height) + ", ";
    assert Quoted(rest, t) == ": " + (DecNat(e.height) + after);
    ReadsNumber(e.height, after);
  }

  lemma HashReads(e: Entry)
    requires Good(e)
    ensures ExtractString(Object(e), "hash") == e.hash
  {
    ObjectPlain(e);
    StringField(ObjectSegments(e), ObjectTail(e) + "}", "hash", 3);
  }

  lemma TimestampReads(e: Entry)
    requires Good(e)
    ensures ExtractInt(Object(e), "timestamp") == e.timestamp
  {
    var segs, t := ObjectSegments(e), ObjectTail(e) + "}";
    ObjectPlain(e);
    assert |segs[5]| == 64 && segs[2][0] == ':' && segs[6][0] == ',';
    assert "timestamp"[0] == 't' && |"timestamp"| == 9;
    assert segs[1] == "height" && segs[3] == "hash" && segs[4] == ": ";
    FindsSegment(segs, t, "timestamp", 7);
    assert segs[8..] == [];
    assert t == ": " + (DecNat(e.timestamp) + "}");
    ReadsNumber(e.timestamp, "}");
  }

  /** What is printed for an entry reads back as that entry. */
  lemma EntryRoundTrip(e: Entry)
    requires Good(e)
    ensures ReadEntry(Object(e)) == e
  {
    HeightReads(e);
    HashReads(e);
    TimestampReads(e);
  }

  // ---------------------------------------------------------------- the array

  lemma {:induction false} MatchPlain(inner: string, rest: string)
    requires Free(inner, '{') && Free(inner, '}')
    ensures Match(inner + ("}" + rest), 1) == |inner| + 1
  {
    var s := inner + ("}" + rest);
    if inner == "" {
      assert s[0] == '}';
    } else {
      assert s[0] == inner[0] && s[1..] == inner[1..] + ("}" + rest);
      MatchPlain(inner[1..], rest);
    }
  }

  lemma {:induction false} QuotedFree(segs: seq<string>, tail: string, c: char)
    requires c != Q && Free(tail, c) && forall i :: 0 <= i < |segs| ==> Free(segs[i], c)
    ensures Free(Quoted(segs, tail), c)
  {
    if segs != [] {
      QuotedFree(segs[1..], tail, c);
    }
  }

  lemma {:induction false} QuotedTail(segs: seq<string>, a: string, b: string)
    ensures Quoted(segs, a + b) == Quoted(segs, a) + b
  {
    if segs != [] {
      QuotedTail(segs[1..], a, b);
      assert segs[0] + [Q] + (Quoted(segs[1..], a) + b) == (segs[0] + [Q] + Quoted(segs[1..], a)) + b;
    }
  }

  function Inner(e: Entry): string { [Q] + Quoted(ObjectSegments(e)[1..], ObjectTail(e)) }

  lemma ObjectInner(e: Entry)
    requires Good(e)
    ensures Object(e) == "{" + (Inner(e) + "}") && Free(Inner(e), '{') && Free(Inner(e), '}')
  {
    QuotedTail(ObjectSegments(e), ObjectTail(e), "}");
    var segs := ObjectSegments(e);
    assert Quoted(segs, ObjectTail(e)) == "{" + Inner(e) by { assert segs[0] == "{"; }
    InnerFree(e, '{');
    InnerFree(e, '}');
  }

  lemma InnerFree(e: Entry, c: char)
    requires Good(e) && (c == '{' || c == '}')
    ensures Free(Inner(e), c)
  {
    ObjectFree(e, c);
    QuotedFree(ObjectSegments(e)[1..], ObjectTail(e), c);
  }

  predicate AllBetween(w: string) { forall i :: 0 <= i < |w| ==> Between(w[i]) }

  lemma ObjectPieces(inner: string, rest: string)
    ensures
      var u := ("{" + (inner + "}")) + rest;
      && u[0] == '{' && u[1..] == inner + ("}" + rest)
      && u[..|inner| + 2] == "{" + (inner + "}") && u[|inner| + 2..] == rest
  {
  }

  lemma ObjectsNext(w: string, inner: string, rest: string)
    requires Free(inner, '{') && Free(inner, '}') && AllBetween(w)
    ensures Objects(w + (("{" + (inner + "}")) + rest)) == ["{" + (inner + "}")] + Objects(rest)
  {
    var u := ("{" + (inner + "}")) + rest;
    ObjectPieces(inner, rest);
    DropAll(w, u, Between);
    MatchPlain(inner, rest);
    ObjectsAt(w + u, u, |inner| + 1);
  }

  lemma ObjectsAt(s: string, u: string, i: nat)
    requires Drop(s, Between) == u && u != "" && u[0] == '{' && Match(u[1..], 1) == i && i < |u|
    ensures Objects(s) == [u[..1 + i]] + Objects(u[1 + i..])
  {
  }

  lemma {:induction false} ObjectsEnd(w: string, close: string)
    requires AllBetween(w) && close != "" && close[0] == ']'
    ensures Objects(w + ("  " + close)) == []
  {
    assert w + ("  " + close) == (w + "  ") + close;
    DropAll(w + "  ", close, Between);
  }

  function Separator(ts: seq<string>): string { (if |ts| > 1 then "," else "") + "\n" }

  lemma BodyNext(w: string, ts: seq<string>, end: string)
    requires ts != []
    ensures w + (Body(ts) + end) == (w + "    ") + (ts[0] + (Separator(ts) + (Body(ts[1..]) + end)))
  {
    Regroup(w, "    ", ts[0], if |ts| > 1 then "," else "", "\n", Body(ts[1..]), end);
  }

  lemma Regroup(w: string, a: string, b: string, c: string, d: string, f: string, g: string)
    ensures w + ((a + b + c + d + f) + g) == (w + a) + (b + ((c + d) + (f + g)))
  {
    assert (a + b + c + d + f) + g == a + (b + ((c + d) + (f + g)));
  }

  predicate Braced(t: string) {
    && |t| >= 2 && t[0] == '{' && t[|t| - 1] == '}'
    && Free(t[1..|t| - 1], '{') && Free(t[1..|t| - 1], '}')
  }

  lemma ObjectBraced(e: Entry)
    requires Good(e)
    ensures Braced(Object(e))
  {
    ObjectInner(e);
    var t := Object(e);
    assert t[1..|t| - 1] == Inner(e);
  }

  lemma BracedNext(w: string, t: string, rest: string)
    requires Braced(t) && AllBetween(w)
    ensures Objects(w + (t + rest)) == [t] + Objects(rest)
  {
    var inner := t[1..|t| - 1];
    assert t == "{" + (inner + "}");
    ObjectsNext(w, inner, rest);
  }

  /** Nothing is left to read at `end`, whatever separates it. */
  ghost predicate Ends(end: string) { forall v: string {:trigger v + end} :: AllBetween(v) ==> Objects(v + end) == [] }

  predicate AllBraced(ts: seq<string>) { forall i :: 0 <= i < |ts| ==> Braced(ts[i]) }

  lemma SeparatorBetween(ts: seq<string>)
    ensures AllBetween(Separator(ts))
  {
  }

  lemma {:induction false} BodyNone(w: string, end: string)
    requires AllBetween(w) && Ends(end)
    ensures Objects(w + (Body([]) + end)) == []
  {
    assert Body([]) + end == end;
  }

  lemma BodyMore(w: string, ts: seq<string>, end: string)
    requires ts != [] && AllBraced(ts) && AllBetween(w)
    requires Objects(Separator(ts) + (Body(ts[1..]) + end)) == ts[1..]
    ensures Objects(w + (Body(ts) + end)) == ts
  {
    BodyNext(w, ts, end);
    BodyStep(w, ts[0], Separator(ts) + (Body(ts[1..]) + end), w + (Body(ts) + end), ts[1..]);
  }

  /** The printed array splits back into the printed objects. */
  lemma {:induction false} BodySplits(w: string, ts: seq<string>, end: string)
    requires AllBraced(ts) && AllBetween(w) && Ends(end)
    ensures Objects(w + (Body(ts) + end)) == ts
    decreases |ts|
  {
    if ts == [] {
      BodyNone(w, end);
    } else {
      SeparatorBetween(ts);
      BodySplits(Separator(ts), ts[1..], end);
      BodyMore(w, ts, end);
    }
  }

  lemma BodyStep(w: string, t: string, rest: string, whole: string, tail: seq<string>)
    requires Braced(t) && AllBetween(w) && whole == (w + "    ") + (t + rest) && Objects(rest) == tail
    ensures Objects(whole) == [t] + tail
  {
    BracedNext(w + "    ", t, rest);
  }

  lemma {:induction false} EntriesRead(read: string -> Entry, objs: seq<string>, es: seq<Entry>)
    requires |objs| == |es| && forall i :: 0 <= i < |es| ==> read(objs[i]) == es[i] && Sound(es[i])
    ensures ReadEntries(read, objs) == Entries(es)
  {
    if es != [] {
      var n := |es| - 1;
      EntriesRead(read, objs[..n], es[..n]);
      assert es == es[..n] + [es[n]];
    }
  }

  // ---------------------------------------------------------------- the document

  lemma AddressField(segs: seq<string>, tail: string)
    requires Plain(segs) && |segs| == 16 && segs[1] == "format_version" && segs[2] == ": 1,\n  "
    requires segs[3] == "signing_address" && segs[4] == ": "
    ensures ExtractString(Quoted(segs, tail), "signing_address") == segs[5]
  {
    assert |segs[1]| == 14 && |segs[2]| == 7 && |"signing_address"| == 15;
    StringField(segs, tail, "signing_address", 3);
  }

  lemma MessageField(segs: seq<string>, tail: string)
    requires Plain(segs) && |segs| == 16 && segs[1] == "format_version" && segs[2] == ": 1,\n  "
    requires segs[3] == "signing_address" && segs[4] == ": " && |segs[5]| > 9 && segs[6] == ",\n  "
    requires segs[7] == "message" && segs[8] == ": "
    ensures ExtractString(Quoted(segs, tail), "message") == segs[9]
  {
    assert |segs[1]| == 14 && segs[2][0] == ':' && |segs[3]| == 15 && |segs[4]| == 2 && |segs[6]| == 4;
    assert |"message"| == 7 && "message"[0] == 'm';
    StringField(segs, tail, "message", 7);
  }

  lemma SignatureField(segs: seq<string>, tail: string)
    requires Plain(segs) && |segs| == 16 && segs[1] == "format_version" && segs[2] == ": 1,\n  "
    requires segs[3] == "signing_address" && segs[4] == ": " && |segs[5]| > 9 && segs[6] == ",\n  "
    requires segs[7] == "message" && segs[8] == ": " && segs[9] != "" && IsDigit(segs[9][0]) && segs[10] == ",\n  "
    requires segs[11] == "signature" && segs[12] == ": "
    ensures ExtractString(Quoted(segs, tail), "signature") == segs[13]
  {
    assert |segs[1]| == 14 && |segs[2]| == 7 && |segs[3]| == 15 && |segs[4]| == 2 && |segs[6]| == 4;
    assert |segs[7]| == 7 && |segs[8]| == 2 && |segs[10]| == 4;
    assert |"signature"| == 9 && "signature"[0] == 's';
    StringField(segs, tail, "signature", 11);
  }

  /** The name of the array is found in the last segment. */
  lemma ArrayField(segs: seq<string>, tail: string)
    requires Plain(segs) && |segs| == 16 && segs[1] == "format_version" && segs[2] == ": 1,\n  "
    requires segs[3] == "signing_address" && segs[4] == ": " && |segs[5]| > 9 && segs[6] == ",\n  "
    requires segs[7] == "message" && segs[8] == ": " && segs[9] != "" && IsDigit(segs[9][0]) && segs[10] == ",\n  "
    requires segs[11] == "signature" && segs[12] == ": " && segs[14] == ",\n  " && segs[15] == "entries"
    requires segs[13] != "entries"
    ensures After(Quoted(segs, tail), Key("entries")) == Rest(Quoted(segs[16..], tail))
  {
    assert |segs[1]| == 14 && segs[2][0] == ':' && |segs[3]| == 15 && |segs[4]| == 2 && |segs[6]| == 4;
    assert segs[7][0] == 'm' && |segs[8]| == 2 && |segs[10]| == 4 && |segs[11]| == 9 && |segs[12]| == 2 && |segs[14]| == 4;
    assert |"entries"| == 7 && "entries"[0] == 'e';
    FindsSegment(segs, tail, "entries", 15);
  }

  predicate Parts(address: string, message: string, signature: string) {
    && Free(address, Q) && Free(message, Q) && Free(signature, Q)
    && |address| > 9 && message != "" && IsDigit(message[0])
  }

  lemma DocumentAddress(es: seq<Entry>, address: string, message: string, signature: string)
    requires Parts(address, message, signature)
    ensures ExtractString(Document(es, address, message, signature), "signing_address") == address
  {
    DocumentPlain(address, message, signature);
    AddressField(DocumentSegments(address, message, signature), DocumentTail(es));
  }

  lemma DocumentMessage(es: seq<Entry>, address: string, message: string, signature: string)
    requires Parts(address, message, signature)
    ensures ExtractString(Document(es, address, message, signature), "message") == message
  {
    DocumentPlain(address, message, signature);
    MessageField(DocumentSegments(address, message, signature), DocumentTail(es));
  }

  lemma DocumentSignature(es: seq<Entry>, address: string, message: string, signature: string)
    requires Parts(address, message, signature)
    ensures ExtractString(Document(es, address, message, signature), "signature") == signature
  {
    DocumentPlain(address, message, signature);
    SignatureField(DocumentSegments(address, message, signature), DocumentTail(es));
  }

  lemma DocumentPlain(address: string, message: string, signature: string)
    requires Free(address, Q) && Free(message, Q) && Free(signature, Q)
    ensures Plain(DocumentSegments(address, message, signature))
  {
  }

  /** The array is found: no text between quotes before it is the word that names it. */
  lemma DocumentArray(es: seq<Entry>, address: string, message: string, signature: string)
    requires Parts(address, message, signature) && signature != "entries" && AllGood(es)
    ensures ExtractObjects(Document(es, address, message, signature), "entries") == Texts(es)
  {
    var segs, tail := DocumentSegments(address, message, signature), DocumentTail(es);
    DocumentPlain(address, message, signature);
    ArrayField(segs, tail);
    assert segs[16..] == [];
    ArrayFound(es);
  }

  lemma ArrayFound(es: seq<Entry>)
    requires AllGood(es)
    ensures ReadObjects(DocumentTail(es)) == Texts(es)
  {
    var ts, end := Texts(es), "  " + "]\n}\n";
    forall i | 0 <= i < |ts| ensures Braced(ts[i]) {
      ObjectBraced(es[i]);
    }
    forall v: string | AllBetween(v) ensures Objects(v + end) == [] {
      ObjectsEnd(v, "]\n}\n");
    }
    BodySplits("\n", ts, end);
    ReadsArray("\n" + (Body(ts) + end));
  }

  lemma {:induction false} ReadsArray(text: string)
    ensures ReadObjects(": [" + text) == Objects(text)
  {
    assert ": [" + text == ": " + ("[" + text);
    DropAll(": ", "[" + text, BeforeArray);
    assert ("[" + text)[1..] == text;
  }

  /** 65 bytes take 88 characters. */
  lemma SignatureLength(recovers: Recovery, address: string, message: string, signature: string)
    requires Signed(recovers, address, message, signature)
    ensures |signature| >= 88
  {
    BytesLength(signature, Base64.Decode(signature).bytes);
  }

  lemma BytesLength(signature: string, bytes: seq<Base64.Byte>)
    requires Base64.Decode(signature) == Base64.Bytes(bytes) && |bytes| == COMPACT_SIZE
    ensures |signature| >= 88
  {
    Base64.DecodesIff(signature, bytes);
    Base64.EncodedLength(bytes);
  }

  /** Every list of good entries, printed over its canonical message with a signature that verifies, is
      accepted and read back exactly; the text of the signature may go on after its base64 form. */
  lemma {:induction false} TextRoundTrip(es: seq<Entry>, signature: string, recovers: Recovery)
    requires es != [] && AllGood(es) && Free(signature, Q)
    requires Signed(recovers, TRUSTED, Serialize(es), signature)
    ensures Verify(Document(es, TRUSTED, Serialize(es), signature), recovers) == Accepted(es, TRUSTED)
  {
    SignatureLength(recovers, TRUSTED, Serialize(es), signature);
    RoundTripIf(es, signature, recovers, Checker(recovers));
  }

  lemma {:induction false} RoundTripIf(es: seq<Entry>, signature: string, recovers: Recovery, valid: Signatures)
    requires es != [] && AllGood(es) && |signature| >= 88 && Free(signature, Q)
    requires valid == Checker(recovers) && valid(TRUSTED, Serialize(es), signature)
    ensures Verify(Document(es, TRUSTED, Serialize(es), signature), recovers) == Accepted(es, TRUSTED)
  {
    var message := Serialize(es);
    SerializePlain(es);
    TrustedPlain();
    DocumentAddress(es, TRUSTED, message, signature);
    DocumentMessage(es, TRUSTED, message, signature);
    DocumentSignature(es, TRUSTED, message, signature);
    DocumentArray(es, TRUSTED, message, signature);
    TextsRead(es);
    Judged(TRUSTED, signature, message, Texts(es), valid, es);
  }

  /** Every list of good entries, published with a compact signature that recovers the trusted key, is accepted
      and read back exactly. */
  lemma RoundTrip(es: seq<Entry>, bytes: seq<Base64.Byte>, recovers: Recovery)
    requires es != [] && AllGood(es) && |bytes| == COMPACT_SIZE && recovers(TRUSTED, Serialize(es), bytes)
    ensures Verify(Document(es, TRUSTED, Serialize(es), Base64.Encode(bytes)), recovers) == Accepted(es, TRUSTED)
  {
    Base64.DecodeEncode(bytes);
    Base64.EncodedPlain(bytes, Q);
    TextRoundTrip(es, Base64.Encode(bytes), recovers);
  }

  lemma TrustedPlain()
    ensures Free(TRUSTED, Q) && |TRUSTED| == 34 && TRUSTED == "TG8f76yktTxDrT7JJymY3wVAusXiD3fVvX"
  {
  }

  lemma TextsRead(es: seq<Entry>)
    requires AllGood(es)
    ensures ReadEntries(ReadEntry, Texts(es)) == Entries(es)
  {
    var ts := Texts(es);
    forall i | 0 <= i < |es| ensures ReadEntry(ts[i]) == es[i] && Sound(es[i]) {
      assert Good(es[i]);
      EntryRoundTrip(es[i]);
    }
    EntriesRead(ReadEntry, ts, es);
  }

  lemma Judged(trusted: string, signature: string, message: string, objs: seq<string>, valid: Signatures, es: seq<Entry>)
    requires trusted != "" && signature != "" && message != "" && valid(trusted, message, signature)
    requires objs != [] ==> ReadEntries(ReadEntry, objs) == Entries(es) && Serialize(es) == message
    ensures Judge(trusted, trusted, signature, message, objs, ReadEntry, valid)
         == if objs == [] then Rejected(NoEntries) else Accepted(es, trusted)
  {
  }

  // ---------------------------------------------------------------- the canonical message

  lemma {:induction false} SerializePlain(es: seq<Entry>)
    requires es != [] && AllGood(es)
    ensures Free(Serialize(es), Q) && Serialize(es) != "" && IsDigit(Serialize(es)[0])
  {
    var n := |es| - 1;
    assert Good(es[n]);
    OneIsPlain(es[n]);
    if n > 0 {
      SerializePlain(es[..n]);
    } else {
      assert es[..n] == [] && Serialize(es) == SerializeOne(es[0]);
    }
  }

  lemma OneIsPlain(e: Entry)
    requires Good(e)
    ensures Free(SerializeOne(e), Q) && Free(SerializeOne(e), ';')
    ensures SerializeOne(e) != "" && IsDigit(SerializeOne(e)[0])
  {
    forall c | c == Q || c == ';' ensures Free(SerializeOne(e), c) {
      DigitsFree(e.height, c);
      DigitsFree(e.timestamp, c);
      assert Free(e.hash, c) by { assert forall k :: 0 <= k < |e.hash| ==> LowerHex(e.hash[k]); }
    }
  }

  lemma SplitLast(x: string, u: string, y: string, v: string, c: char)
    requires x + [c] + u == y + [c] + v && Free(u, c) && Free(v, c)
    ensures x == y && u == v
  {
    var s := x + [c] + u;
    assert s[|x|] == c && s[|y|] == c;
    assert |x| >= |y| by { assert s[|y|] == (x + [c] + u)[|y|]; }
    assert |y| >= |x| by { assert s[|x|] == (y + [c] + v)[|x|]; }
    assert x == s[..|x|] && y == s[..|y|];
    assert u == s[|x| + 1..] && v == s[|y| + 1..];
  }

  lemma SplitFirst(x: string, u: string, y: string, v: string, c: char)
    requires x + [c] + u == y + [c] + v && Free(x, c) && Free(y, c)
    ensures x == y && u == v
  {
    var s := x + [c] + u;
    assert s[|x|] == c && s[|y|] == c;
    assert |x| >= |y| by { assert s[|x|] == (y + [c] + v)[|x|]; }
    assert |y| >= |x| by { assert s[|y|] == (x + [c] + u)[|y|]; }
    assert x == s[..|x|] && y == s[..|y|];
    assert u == s[|x| + 1..] && v == s[|y| + 1..];
  }

  lemma DecInjective(a: nat, b: nat)
    requires a < 0x8000_0000 && b < 0x8000_0000 && DecNat(a) == DecNat(b)
    ensures a == b
  {
    ReadDec(a);
    ReadDec(b);
  }

  lemma OneInjective(a: Entry, b: Entry)
    requires Good(a) && Good(b) && SerializeOne(a) == SerializeOne(b)
    ensures a == b
  {
    DigitsFree(a.height, ':');
    DigitsFree(b.height, ':');
    DigitsFree(a.timestamp, ':');
    DigitsFree(b.timestamp, ':');
    OneInParts(a);
    OneInParts(b);
    PartsAgree(DecNat(a.height), a.hash, DecNat(a.timestamp), DecNat(b.height), b.hash, DecNat(b.timestamp));
    DecInjective(a.height, b.height);
    DecInjective(a.timestamp, b.timestamp);
  }

  lemma OneInParts(e: Entry)
    requires Good(e)
    ensures SerializeOne(e) == DecNat(e.height) + [':'] + (e.hash + [':'] + DecNat(e.timestamp))
  {
  }

  lemma PartsAgree(h1: string, x1: string, t1: string, h2: string, x2: string, t2: string)
    requires Free(h1, ':') && Free(h2, ':') && Free(t1, ':') && Free(t2, ':')
    requires h1 + [':'] + (x1 + [':'] + t1) == h2 + [':'] + (x2 + [':'] + t2)
    ensures h1 == h2 && x1 == x2 && t1 == t2
  {
    SplitFirst(h1, x1 + [':'] + t1, h2, x2 + [':'] + t2, ':');
    SplitLast(x1, t1, x2, t2, ':');
  }

  /** One message determines one list of entries. */
  lemma {:induction false} SerializeInjective(a: seq<Entry>, b: seq<Entry>)
    requires AllGood(a) && AllGood(b) && Serialize(a) == Serialize(b)
    ensures a == b
  {
    if a == [] || b == [] {
      if a != [] { SerializePlain(a); }
      if b != [] { SerializePlain(b); }
    } else {
      LastsAgree(a, b);
      var n, m := |a| - 1, |b| - 1;
      SerializeInjective(a[..n], b[..m]);
      FrontAndLast(a, b);
    }
  }

  lemma FrontAndLast(a: seq<Entry>, b: seq<Entry>)
    requires a != [] && b != [] && a[|a| - 1] == b[|b| - 1] && a[..|a| - 1] == b[..|b| - 1]
    ensures a == b
  {
    assert a == a[..|a| - 1] + [a[|a| - 1]] && b == b[..|b| - 1] + [b[|b| - 1]];
  }

  lemma NotFree(x: string, u: string, c: char)
    ensures !Free(x + [c] + u, c)
  {
    assert (x + [c] + u)[|x|] == c;
  }

  lemma {:induction false} SemicolonIffMany(a: seq<Entry>)
    requires AllGood(a) && a != []
    ensures Free(Serialize(a), ';') <==> |a| == 1
    ensures |a| == 1 ==> Serialize(a) == SerializeOne(a[0])
  {
    if |a| == 1 {
      OnlyOne(a);
    } else {
      Several(a);
    }
  }

  lemma OnlyOne(a: seq<Entry>)
    requires AllGood(a) && |a| == 1
    ensures Serialize(a) == SerializeOne(a[0]) && Free(Serialize(a), ';')
  {
    assert Good(a[0]);
    OneIsPlain(a[0]);
    assert a[..0] == [] && Serialize(a) == SerializeOne(a[0]);
  }

  lemma Several(a: seq<Entry>)
    requires |a| > 1
    ensures !Free(Serialize(a), ';')
  {
    var n := |a| - 1;
    NotFree(Serialize(a[..n]), SerializeOne(a[n]), ';');
  }

  lemma {:induction false} LastsAgree(a: seq<Entry>, b: seq<Entry>)
    requires AllGood(a) && AllGood(b) && a != [] && b != [] && Serialize(a) == Serialize(b)
    ensures a[|a| - 1] == b[|b| - 1] && Serialize(a[..|a| - 1]) == Serialize(b[..|b| - 1])
  {
    var n, m := |a| - 1, |b| - 1;
    SemicolonIffMany(a);
    SemicolonIffMany(b);
    assert Good(a[n]) && Good(b[m]);
    OneIsPlain(a[n]);
    OneIsPlain(b[m]);
    if n > 0 {
      SplitLast(Serialize(a[..n]), SerializeOne(a[n]), Serialize(b[..m]), SerializeOne(b[m]), ';');
    } else {
      assert a[..n] == b[..m];
    }
    OneInjective(a[n], b[m]);
  }

  // ---------------------------------------------------------------- what acceptance means

  lemma {:induction false} ReadIsSound(objs: seq<string>)
    requires ReadEntries(ReadEntry, objs).Entries?
    ensures var es := ReadEntries(ReadEntry, objs).es; |es| == |objs| && AllGood(es)
  {
    if objs != [] {
      var n := |objs| - 1;
      ReadIsSound(objs[..n]);
      IntsInRange(objs[n]);
    }
  }

  lemma {:induction false} IntsInRange(obj: string)
    ensures ReadEntry(obj).height < 0x8000_0000 && ReadEntry(obj).timestamp < 0x8000_0000
  {
    IntInRange(obj, "height");
    IntInRange(obj, "timestamp");
  }

  lemma IntInRange(obj: string, field: string)
    ensures ExtractInt(obj, field) < 0x8000_0000
  {
    match After(obj, Key(field))
    case Missing =>
    case Rest(t) => ReadInRange(Drop(t, Blank), 0);
  }

  lemma JudgedSigned(trusted: string, address: string, signature: string, message: string, objs: seq<string>,
                     read: string -> Entry, valid: Signatures)
    requires Judge(trusted, address, signature, message, objs, read, valid).Accepted?
    ensures
      var v := Judge(trusted, address, signature, message, objs, read, valid);
      && objs != [] && ReadEntries(read, objs) == Entries(v.entries) && v.signer == trusted
      && Serialize(v.entries) == message && valid(trusted, message, signature)
  {
  }

  /** Whatever the text: accepted entries are well formed, not empty, and a trusted signer signed exactly
      their canonical message. */
  lemma AcceptedIsSigned(doc: string, recovers: Recovery)
    requires Verify(doc, recovers).Accepted?
    ensures
      var v := Verify(doc, recovers);
      && v.entries != [] && AllGood(v.entries) && v.signer == TRUSTED
      && Serialize(v.entries) == ExtractString(doc, "message")
      && Signed(recovers, TRUSTED, Serialize(v.entries), ExtractString(doc, "signature"))
  {
    JudgedSigned(TRUSTED, ExtractString(doc, "signing_address"), ExtractString(doc, "signature"),
                 ExtractString(doc, "message"), ExtractObjects(doc, "entries"), ReadEntry, Checker(recovers));
    ReadIsSound(ExtractObjects(doc, "entries"));
  }

  /** Two accepted documents with the same signed message carry the same entries. */
  lemma {:induction false} MessageDecides(doc1: string, doc2: string, recovers: Recovery)
    requires Verify(doc1, recovers).Accepted? && Verify(doc2, recovers).Accepted?
    ensures ExtractString(doc1, "message") == ExtractString(doc2, "message")
       <==> Verify(doc1, recovers).entries == Verify(doc2, recovers).entries
  {
    AcceptedIsSigned(doc1, recovers);
    AcceptedIsSigned(doc2, recovers);
    if ExtractString(doc1, "message") == ExtractString(doc2, "message") {
      SerializeInjective(Verify(doc1, recovers).entries, Verify(doc2, recovers).entries);
    }
  }
}
