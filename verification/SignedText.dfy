/**
The text side of the signed-checkpoint document: the canonical message, the JSON printer, and the
small extractors that look for a quoted key and read what follows.
*/
module SignedText {
  datatype Entry = Entry(height: int, hash: string, timestamp: int)

  const Q: char := '"'

  // ---------------------------------------------------------------- searching

  predicate Starts(s: string, key: string) { |key| <= |s| && s[..|key|] == key }

  /** The first place where `key` occurs, or -1. */
  function Find(s: string, key: string): (i: int)
    ensures -1 <= i && (i >= 0 ==> i + |key| <= |s| && s[i..i + |key|] == key)
  {
    if Starts(s, key) then 0
    else if s == "" then -1
    else var i := Find(s[1..], key); if i < 0 then -1 else i + 1
  }

  datatype Found = Missing | Rest(text: string)

  /** What comes after the first occurrence of `key`. */
  function After(s: string, key: string): Found {
    var i := Find(s, key);
    if i < 0 then Missing else Rest(s[i + |key|..])
  }

  /** Without the leading characters that are skipped. */
  function Drop(s: string, skip: char -> bool): (r: string)
    ensures |r| <= |s| && r == s[|s| - |r|..]
    ensures r != "" ==> !skip(r[0])
  {
    if s != "" && skip(s[0]) then Drop(s[1..], skip) else s
  }

  predicate Blank(c: char) { c == ' ' || c == ':' || c == '\t' }

  predicate BeforeArray(c: char) { c == ' ' || c == ':' || c == '\t' || c == '\n' || c == '\r' }

  predicate Between(c: char) { c == ' ' || c == '\t' || c == '\n' || c == '\r' || c == ',' }

  function Key(field: string): string { [Q] + field + [Q] }

  // ---------------------------------------------------------------- the extractors

  function ExtractString(s: string, field: string): string {
    match After(s, Key(field))
    case Missing => ""
    case Rest(t) => ReadString(t)
  }

  function ReadString(t: string): string {
    var u := Drop(t, Blank);
    if u == "" || u[0] != Q then "" else
    var end := Find(u[1..], [Q]);
    if end < 0 then "" else u[1..1 + end]
  }

  predicate IsDigit(c: char) { '0' <= c <= '9' }

  /** A C `int`. */
  function Wrap(x: int): int { (x + 0x8000_0000) % 0x1_0000_0000 - 0x8000_0000 }

  function ReadDigits(s: string, n: int): int {
    if s != "" && IsDigit(s[0]) then ReadDigits(s[1..], Wrap(n * 10 + (s[0] as int - '0' as int))) else n
  }

  function ExtractInt(s: string, field: string): int {
    match After(s, Key(field))
    case Missing => 0
    case Rest(t) => ReadDigits(Drop(t, Blank), 0)
  }

  /** How many characters until `depth` open braces are closed, or -1. */
  function Match(s: string, depth: nat): (i: int)
    ensures -1 <= i <= |s|
  {
    if depth == 0 then 0
    else if s == "" then -1
    else
      var i := Match(s[1..], if s[0] == '{' then depth + 1 else if s[0] == '}' then depth - 1 else depth);
      if i < 0 then -1 else i + 1
  }

  /** The objects of an array, up to the first thing that is not one. */
  function Objects(s: string): seq<string>
    decreases |s|
  {
    var u := Drop(s, Between);
    if u == "" || u[0] != '{' then [] else
    var i := Match(u[1..], 1);
    if i < 0 then [] else [u[..1 + i]] + Objects(u[1 + i..])
  }

  function ExtractObjects(s: string, field: string): seq<string> {
    match After(s, Key(field))
    case Missing => []
    case Rest(t) => ReadObjects(t)
  }

  function ReadObjects(t: string): seq<string> {
    ObjectsIn(Drop(t, BeforeArray))
  }

  /** The objects of a text that starts with an array. */
  function ObjectsIn(u: string): seq<string> {
    if u == "" || u[0] != '[' then [] else Objects(u[1..])
  }

  // ---------------------------------------------------------------- printing

  function DecNat(n: nat): (s: string)
    ensures s != "" && forall i :: 0 <= i < |s| ==> IsDigit(s[i])
  {
    var c := ('0' as int + n % 10) as char;
    if n < 10 then [c] else DecNat(n / 10) + [c]
  }

  function Dec(n: int): string { if n < 0 then "-" + DecNat(-n) else DecNat(n) }

  /** The message that is signed: newest first, as the caller ordered them. */
  function Serialize(es: seq<Entry>): string {
    if es == [] then ""
    else Serialize(es[..|es| - 1]) + (if |es| > 1 then ";" else "") + SerializeOne(es[|es| - 1])
  }

  function SerializeOne(e: Entry): string { Dec(e.height) + ":" + e.hash + ":" + Dec(e.timestamp) }

  /** {"height": 7, "hash": "ab..", "timestamp": 9}, cut at its quotes. */
  function ObjectSegments(e: Entry): seq<string> {
    ["{", "height", ": " + Dec(e.height) + ", ", "hash", ": ", e.hash, ", ", "timestamp"]
  }

  function ObjectTail(e: Entry): string { ": " + Dec(e.timestamp) }

  function Object(e: Entry): string { Quoted(ObjectSegments(e), ObjectTail(e) + "}") }

  /** One object a line, with commas between. */
  function Body(ts: seq<string>): string {
    if ts == [] then ""
    else "    " + ts[0] + (if |ts| > 1 then "," else "") + "\n" + Body(ts[1..])
  }

  function Texts(es: seq<Entry>): seq<string> { seq(|es|, i requires 0 <= i < |es| => Object(es[i])) }

  /** The five fields of the document, cut at their quotes, and the array. */
  function DocumentSegments(address: string, message: string, signature: string): seq<string> {
    ["{\n  ", "format_version", ": 1,\n  ", "signing_address", ": ", address, ",\n  ", "message", ": ", message,
     ",\n  ", "signature", ": ", signature, ",\n  ", "entries"]
  }

  function DocumentTail(es: seq<Entry>): string { ": [" + ("\n" + (Body(Texts(es)) + ("  " + "]\n}\n"))) }

  function Document(es: seq<Entry>, address: string, message: string, signature: string): string {
    Quoted(DocumentSegments(address, message, signature), DocumentTail(es))
  }

  // ---------------------------------------------------------------- quoted segments

  predicate Free(s: string, c: char) { forall i :: 0 <= i < |s| ==> s[i] != c }

  predicate Plain(segs: seq<string>) { forall i :: 0 <= i < |segs| ==> Free(segs[i], Q) }

  /** Segments, each ended by a quote, and then a tail. */
  function Quoted(segs: seq<string>, tail: string): string {
    if segs == [] then tail else segs[0] + [Q] + Quoted(segs[1..], tail)
  }

  lemma {:induction false} AfterSkips(a: string, rest: string, key: string)
    requires key != "" && Free(a, key[0])
    ensures After(a + rest, key) == After(rest, key)
  {
    if a == "" {
      assert a + rest == rest;
    } else {
      assert (a + rest)[1..] == a[1..] + rest;
      AfterStep(a + rest, key);
      AfterSkips(a[1..], rest, key);
    }
  }

  lemma AfterStep(s: string, key: string)
    requires s != "" && !Starts(s, key)
    ensures After(s, key) == After(s[1..], key)
  {
    var i := Find(s[1..], key);
    if i >= 0 {
      assert s[1..][i + |key|..] == s[i + 1 + |key|..];
    }
  }

  lemma QuoteNotBefore(a: string, rest: string, i: nat)
    requires Free(a, Q) && i < |a + rest| && (a + rest)[i] == Q
    ensures i >= |a|
  {
  }

  /** A quoted key stands where two quotes have exactly that text between them. */
  lemma KeyAtQuote(seg: string, rest: string, field: string)
    requires Free(seg, Q) && Free(field, Q)
    ensures Starts([Q] + (seg + [Q] + rest), Key(field)) <==> seg == field
  {
    var s, key := [Q] + (seg + [Q] + rest), Key(field);
    if Starts(s, key) {
      assert s[..|key|] == key;
      assert s[..|key|][1 + |field|] == Q;
      assert s[1 + |field|] == Q;
      QuoteNotBefore(seg, [Q] + rest, |field|);
      assert s[1 + |seg|] == s[..|key|][1 + |seg|] == Q;
      QuoteNotBefore(field, [Q], |seg|);
      forall i | 0 <= i < |seg| ensures seg[i] == field[i] {
        assert s[..|key|][1 + i] == key[1 + i];
      }
    }
    if seg == field {
      assert s[..|key|] == key;
    }
  }

  lemma FirstSegment(seg: string, field: string, rest: string)
    requires Free(seg, Q) && Free(field, Q)
    ensures After(seg + ([Q] + (field + [Q] + rest)), Key(field)) == Rest(rest)
  {
    var s := [Q] + (field + [Q] + rest);
    AfterSkips(seg, s, Key(field));
    KeyAtQuote(field, rest, field);
    assert Find(s, Key(field)) == 0;
    assert s[0 + |Key(field)|..] == rest;
  }

  lemma OtherSegment(seg: string, next: string, rest: string, field: string)
    requires Free(seg, Q) && Free(next, Q) && Free(field, Q) && next != field
    ensures After(seg + ([Q] + (next + [Q] + rest)), Key(field)) == After(next + [Q] + rest, Key(field))
  {
    var s := [Q] + (next + [Q] + rest);
    AfterSkips(seg, s, Key(field));
    KeyAtQuote(next, rest, field);
    AfterStep(s, Key(field));
    assert s[1..] == next + [Q] + rest;
  }

  lemma QuotedTwo(segs: seq<string>, tail: string)
    requires |segs| >= 2
    ensures Quoted(segs, tail) == segs[0] + ([Q] + (segs[1] + [Q] + Quoted(segs[2..], tail)))
    ensures Quoted(segs[1..], tail) == segs[1] + [Q] + Quoted(segs[2..], tail)
  {
    assert segs[1..][1..] == segs[2..];
  }

  /** A search finds the first segment after the first quote that is the field. */
  lemma {:induction false} FindsSegment(segs: seq<string>, tail: string, field: string, k: nat)
    requires Plain(segs) && Free(field, Q) && 1 <= k < |segs| && segs[k] == field
    requires forall j :: 1 <= j < k ==> segs[j] != field
    ensures After(Quoted(segs, tail), Key(field)) == Rest(Quoted(segs[k + 1..], tail))
  {
    QuotedTwo(segs, tail);
    if k == 1 {
      FirstSegment(segs[0], field, Quoted(segs[2..], tail));
    } else {
      OtherSegment(segs[0], segs[1], Quoted(segs[2..], tail), field);
      FindsSegment(segs[1..], tail, field, k - 1);
      assert segs[1..][k..] == segs[k + 1..];
    }
  }

  lemma {:induction false} DropAll(w: string, rest: string, skip: char -> bool)
    requires (forall i :: 0 <= i < |w| ==> skip(w[i])) && (rest != "" ==> !skip(rest[0]))
    ensures Drop(w + rest, skip) == rest
  {
    if w == "" {
      assert w + rest == rest;
    } else {
      assert (w + rest)[1..] == w[1..] + rest;
      DropAll(w[1..], rest, skip);
    }
  }

  lemma {:induction false} FindQuote(a: string, rest: string)
    requires Free(a, Q)
    ensures Find(a + [Q] + rest, [Q]) == |a|
  {
    var s := a + [Q] + rest;
    if a == "" {
      assert s[..1] == [Q];
    } else {
      assert s[0] == a[0] && s[..1] == [a[0]];
      assert s[1..] == a[1..] + [Q] + rest;
      FindQuote(a[1..], rest);
    }
  }

  lemma DropBlanks(u: string)
    requires u != "" && !Blank(u[0])
    ensures Drop(": " + u, Blank) == u
  {
    DropAll(": ", u, Blank);
  }

  lemma ReadsValue(value: string, rest: string)
    requires Free(value, Q)
    ensures ReadString(": " + ([Q] + (value + [Q] + rest))) == value
  {
    var u := [Q] + (value + [Q] + rest);
    DropBlanks(u);
    assert u[1..] == value + [Q] + rest;
    FindQuote(value, rest);
    assert u[1..1 + |value|] == value;
  }

  /** A string field: key, blanks, and the value between quotes. */
  lemma StringField(segs: seq<string>, tail: string, field: string, k: nat)
    requires Plain(segs) && Free(field, Q) && 1 <= k && k + 2 < |segs| && segs[k] == field && segs[k + 1] == ": "
    requires forall j :: 1 <= j < k ==> segs[j] != field
    ensures ExtractString(Quoted(segs, tail), field) == segs[k + 2]
  {
    FindsSegment(segs, tail, field, k);
    var rest := segs[k + 1..];
    QuotedTwo(rest, tail);
    assert rest[0] == ": " && rest[1] == segs[k + 2];
    ReadsValue(segs[k + 2], Quoted(rest[2..], tail));
  }
}
