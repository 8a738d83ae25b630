/** The scanners, the printer and the verifier, step by step, against their functions. */
module SignedScan {
  import opened SignedText
  import opened SignedCheckpoints
  import Base64

  method SkipBlanks(s: string, from: nat, skip: char -> bool) returns (pos: nat)
    requires from <= |s|
    ensures from <= pos <= |s| && s[pos..] == Drop(s[from..], skip)
  {
    pos := from;
    while pos < |s| && skip(s[pos])
      invariant from <= pos <= |s| && Drop(s[from..], skip) == Drop(s[pos..], skip)
    {
      assert s[pos..][1..] == s[pos + 1..];
      pos := pos + 1;
    }
  }

  /** The position after the first quoted occurrence of the field's name. */
  method Locate(s: string, field: string) returns (pos: int)
    ensures pos <= |s| && After(s, Key(field)) == if pos < 0 then Missing else Rest(s[pos..])
  {
    var key := Key(field);
    var at := Find(s, key);
    pos := if at < 0 then -1 else at + |key|;
  }

  method ExtractJsonString(obj: string, field: string) returns (r: string)
    ensures r == ExtractString(obj, field)
  {
    var pos := Locate(obj, field);
    if pos < 0 {
      return "";
    }
    r := ScanString(obj, pos);
  }

  method ScanString(obj: string, from: nat) returns (r: string)
    requires from <= |obj|
    ensures r == ReadString(obj[from..])
  {
    var pos := SkipBlanks(obj, from, Blank);
    if pos >= |obj| || obj[pos] != Q {
      return "";
    }
    ghost var u := obj[pos..];
    pos := pos + 1;
    assert u[1..] == obj[pos..];
    var end := Find(obj[pos..], [Q]);
    if end < 0 {
      return "";
    }
    assert u[1..1 + end] == obj[pos..pos + end];
    return obj[pos..pos + end];
  }

  method ExtractJsonInt(obj: string, field: string) returns (r: int)
    ensures r == ExtractInt(obj, field)
  {
    var at := Locate(obj, field);
    if at < 0 {
      return 0;
    }
    var pos := SkipBlanks(obj, at, Blank);
    r := ScanDigits(obj, pos);
  }

  method ScanDigits(obj: string, from: nat) returns (n: int)
    requires from <= |obj|
    ensures n == ReadDigits(obj[from..], 0)
  {
    var pos, foundAny := from, false;
    n := 0;
    while pos < |obj| && IsDigit(obj[pos])
      invariant from <= pos <= |obj| && ReadDigits(obj[from..], 0) == ReadDigits(obj[pos..], n)
      invariant !foundAny ==> n == 0
    {
      assert obj[pos..][1..] == obj[pos + 1..];
      n := Wrap(n * 10 + (obj[pos] as int - '0' as int));
      pos := pos + 1;
      foundAny := true;
    }
    if !foundAny {
      return 0;
    }
  }

  /** The end of the object that starts at `start`, or -1 when its braces do not close. */
  method CloseBrace(s: string, start: nat) returns (end: int)
    requires start < |s| && s[start] == '{'
    ensures
      var m := Match(s[start..][1..], 1);
      if m < 0 then end == -1 else end == start + 1 + m && end <= |s|
  {
    assert s[start..][1..] == s[start + 1..];
    var pos, depth := start + 1, 1;
    while pos < |s| && depth > 0
      invariant start < pos <= |s| && depth >= 0
      invariant
        var m, r := Match(s[start + 1..], 1), Match(s[pos..], depth);
        if r < 0 then m < 0 else m == r + (pos - start - 1)
    {
      assert s[pos..][1..] == s[pos + 1..];
      if s[pos] == '{' {
        depth := depth + 1;
      } else if s[pos] == '}' {
        depth := depth - 1;
      }
      pos := pos + 1;
    }
    end := if depth != 0 then -1 else pos;
  }

  method ExtractJsonObjectArray(json: string, field: string) returns (objs: seq<string>)
    ensures objs == ExtractObjects(json, field)
  {
    var at := Locate(json, field);
    if at < 0 {
      return [];
    }
    objs := ScanArray(json, at);
  }

  method ScanArray(json: string, from: nat) returns (objs: seq<string>)
    requires from <= |json|
    ensures objs == ReadObjects(json[from..])
  {
    var pos := SkipBlanks(json, from, BeforeArray);
    assert ReadObjects(json[from..]) == ObjectsIn(json[pos..]);
    if pos >= |json| || json[pos] != '[' {
      return [];
    }
    assert json[pos..][1..] == json[pos + 1..];
    objs := CollectObjects(json, pos + 1);
  }

  ghost predicate AreObjects(f: string -> seq<string>) {
    forall s: string {:trigger Objects(s)} :: f(s) == Objects(s)
  }

  lemma NoObject(f: string -> seq<string>, s: string, u: string)
    requires AreObjects(f) && Drop(s, Between) == u && (u == "" || u[0] != '{' || Match(u[1..], 1) < 0)
    ensures f(s) == []
  {
    assert Objects(s) == [];
  }

  lemma OneObject(f: string -> seq<string>, s: string, u: string, end: nat)
    requires AreObjects(f) && Drop(s, Between) == u && u != "" && u[0] == '{' && end <= |u|
    requires Match(u[1..], 1) == end - 1 >= 0
    ensures f(s) == [u[..end]] + f(u[end..])
  {
    ObjectsAt(s, u, end - 1);
    assert f(u[end..]) == Objects(u[end..]);
  }

  lemma SliceOfDrop(json: string, start: nat, end: nat)
    requires start <= end <= |json|
    ensures json[start..][..end - start] == json[start..end] && json[start..][end - start..] == json[end..]
  {
  }

  lemma ObjectBetween(f: string -> seq<string>, json: string, s: string, start: nat, end: nat)
    requires start < end <= |json| && AreObjects(f) && Drop(s, Between) == json[start..] && json[start] == '{'
    requires Match(json[start..][1..], 1) == end - start - 1
    ensures f(s) == [json[start..end]] + f(json[end..])
  {
    var u := json[start..];
    OneObject(f, s, u, end - start);
    SliceOfDrop(json, start, end);
  }

  /** The next object of an array lies between `start` and `end`, or there is none. */
  method NextObject(ghost f: string -> seq<string>, json: string, pos: nat) returns (start: nat, end: int)
    requires pos <= |json| && AreObjects(f)
    ensures
      if end < 0 then f(json[pos..]) == []
      else pos <= start < end <= |json| && f(json[pos..]) == [json[start..end]] + f(json[end..])
  {
    start := SkipBlanks(json, pos, Between);
    if start >= |json| || json[start] == ']' || json[start] != '{' {
      NoObject(f, json[pos..], json[start..]);
      return start, -1;
    }
    end := CloseBrace(json, start);
    if end >= 0 {
      ObjectBetween(f, json, json[pos..], start, end);
    } else {
      NoObject(f, json[pos..], json[start..]);
    }
  }

  method CollectObjects(json: string, from: nat) returns (objs: seq<string>)
    requires from <= |json|
    ensures objs == Objects(json[from..])
  {
    objs := CollectAs(Objects, json, from);
  }

  method CollectAs(ghost f: string -> seq<string>, json: string, from: nat) returns (objs: seq<string>)
    requires from <= |json| && AreObjects(f)
    ensures objs == f(json[from..])
  {
    objs := [];
    var pos, more := from, true;
    while more && pos < |json|
      invariant from <= pos <= |json|
      invariant f(json[from..]) == objs + if more then f(json[pos..]) else []
      decreases |json| - pos, more
    {
      var start, end := NextObject(f, json, pos);
      if end < 0 {
        more := false;
      } else {
        objs := objs + [json[start..end]];
        pos := end;
      }
    }
    if more {
      assert json[pos..] == "";
      NoObject(f, "", "");
    }
  }

  method SerializeEntriesForSigning(entries: seq<Entry>) returns (out: string)
    ensures out == Serialize(entries)
  {
    out := "";
    var i := 0;
    assert entries[..0] == [];
    while i < |entries|
      invariant 0 <= i <= |entries| && out == Serialize(entries[..i])
    {
      assert entries[..i + 1][..i] == entries[..i];
      if i > 0 {
        out := out + ";";
      }
      out := out + SerializeOne(entries[i]);
      i := i + 1;
    }
    assert entries[..i] == entries;
  }

  /** Entries newest first. */
  predicate Descending(es: seq<Entry>) { forall i, j :: 0 <= i < j < |es| ==> es[i].height >= es[j].height }

  predicate StrictlyDescending(es: seq<Entry>) { forall i, j :: 0 <= i < j < |es| ==> es[i].height > es[j].height }

  lemma InsertMultiset(pre: seq<Entry>, e: Entry, post: seq<Entry>)
    ensures multiset(pre + [e] + post) == multiset(pre + post) + multiset{e}
  {
    assert pre + [e] + post == pre + ([e] + post);
  }

  method Insert(es: seq<Entry>, e: Entry) returns (r: seq<Entry>)
    requires Descending(es)
    ensures Descending(r) && multiset(r) == multiset(es) + multiset{e}
  {
    var k := 0;
    while k < |es| && es[k].height >= e.height
      invariant 0 <= k <= |es| && forall j :: 0 <= j < k ==> es[j].height >= e.height
    {
      k := k + 1;
    }
    InsertMultiset(es[..k], e, es[k..]);
    assert es[..k] + es[k..] == es;
    InsertDescends(es, e, k);
    r := es[..k] + [e] + es[k..];
  }

  lemma InsertDescends(es: seq<Entry>, e: Entry, k: nat)
    requires Descending(es) && k <= |es| && (forall j :: 0 <= j < k ==> es[j].height >= e.height)
    requires k < |es| ==> es[k].height < e.height
    ensures Descending(es[..k] + [e] + es[k..])
  {
    var r := es[..k] + [e] + es[k..];
    forall i, j | 0 <= i < j < |r| ensures r[i].height >= r[j].height {
      assert j > k ==> r[j] == es[j - 1] && es[k].height >= es[j - 1].height;
      assert i > k ==> r[i] == es[i - 1];
      assert i < k ==> r[i] == es[i];
      assert j < k ==> r[j] == es[j];
    }
  }

  /** Any sort would do: only the order by height is used. */
  method SortDescending(entries: seq<Entry>) returns (sorted: seq<Entry>)
    ensures Descending(sorted) && multiset(sorted) == multiset(entries)
  {
    sorted := [];
    var i := 0;
    while i < |entries|
      invariant 0 <= i <= |entries| && Descending(sorted) && multiset(sorted) == multiset(entries[..i])
    {
      assert entries[..i + 1] == entries[..i] + [entries[i]];
      sorted := Insert(sorted, entries[i]);
      i := i + 1;
    }
    assert entries[..i] == entries;
  }

  /** A list in strictly descending order is the only descending list of its entries. */
  lemma {:induction false} OneOrder(a: seq<Entry>, b: seq<Entry>)
    requires StrictlyDescending(a) && Descending(b) && multiset(a) == multiset(b)
    ensures a == b
    decreases |a|
  {
    assert |a| == |multiset(a)| == |multiset(b)| == |b|;
    if a != [] {
      FirstAgrees(a, b);
      assert a == [a[0]] + a[1..] && b == [b[0]] + b[1..];
      assert multiset(a[1..]) == multiset(a) - multiset{a[0]};
      assert multiset(b[1..]) == multiset(b) - multiset{b[0]};
      OneOrder(a[1..], b[1..]);
    }
  }

  lemma FirstAgrees(a: seq<Entry>, b: seq<Entry>)
    requires StrictlyDescending(a) && Descending(b) && multiset(a) == multiset(b) && a != [] && b != []
    ensures a[0] == b[0]
  {
    assert a[0] in multiset(a) && b[0] in multiset(b);
    assert a[0] in multiset(b) && b[0] in multiset(a);
    var i :| 0 <= i < |b| && b[i] == a[0];
    var j :| 0 <= j < |a| && a[j] == b[0];
    assert b[0].height >= b[i].height;
  }

  datatype Built = BuildError(error: string) | Json(text: string)

  /** The document of the sorted entries, or the first missing part. */
  method BuildSignedCheckpointsJson(entries: seq<Entry>, address: string, signature: string, message: string)
    returns (r: Built, ghost sorted: seq<Entry>)
    ensures r.BuildError? <==> entries == [] || address == "" || signature == ""
    ensures entries == [] ==> r == BuildError("entries vector is empty")
    ensures entries != [] && address == "" ==> r == BuildError("signingAddress is empty")
    ensures entries != [] && address != "" && signature == "" ==> r == BuildError("signature is empty")
    ensures r.Json? ==> r.text == Document(sorted, address, message, signature)
    ensures Descending(sorted) && multiset(sorted) == multiset(entries)
    ensures StrictlyDescending(entries) ==> sorted == entries
  {
    var es := SortDescending(entries);
    sorted := es;
    if StrictlyDescending(entries) {
      OneOrder(entries, es);
    }
    if entries == [] {
      return BuildError("entries vector is empty"), sorted;
    }
    if address == "" {
      return BuildError("signingAddress is empty"), sorted;
    }
    if signature == "" {
      return BuildError("signature is empty"), sorted;
    }
    var body := PrintBody(es);
    var text := Quoted(DocumentSegments(address, message, signature), ": [" + ("\n" + (body + ("  " + "]\n}\n"))));
    r := Json(text);
  }

  method PrintBody(es: seq<Entry>) returns (out: string)
    ensures out == Body(Texts(es))
  {
    out := "";
    var i := |es|;
    var ts := Texts(es);
    assert ts[i..] == [];
    while i > 0
      invariant 0 <= i <= |es| && out == Body(ts[i..])
    {
      i := i - 1;
      assert ts[i..][1..] == ts[i + 1..];
      out := "    " + ts[i] + (if i + 1 < |es| then "," else "") + "\n" + out;
    }
    assert ts[0..] == ts;
  }

  method CheckSignature(address: string, message: string, signature: string, recovers: Recovery) returns (ok: bool)
    ensures ok == Checker(recovers)(address, message, signature)
  {
    var bytes, invalid := Base64.DecodeBase64(signature);
    if invalid {
      return false;
    }
    if |bytes| != COMPACT_SIZE {
      return false;
    }
    return recovers(address, message, bytes);
  }

  method VerifySignedCheckpoints(doc: string, recovers: Recovery) returns (v: Verdict)
    ensures v == Verify(doc, recovers)
  {
    var address := ExtractJsonString(doc, "signing_address");
    var signature := ExtractJsonString(doc, "signature");
    var message := ExtractJsonString(doc, "message");
    if address == "" || signature == "" || message == "" {
      return Rejected(NoFields);
    }
    if address != TRUSTED {
      return Rejected(NotTrusted);
    }
    var signed := CheckSignature(address, message, signature, recovers);
    if !signed {
      return Rejected(BadSignature);
    }
    var objs := ExtractJsonObjectArray(doc, "entries");
    if objs == [] {
      return Rejected(NoEntries);
    }
    var es := ReadAll(objs);
    if es.Malformed? {
      return Rejected(BadEntry);
    }
    var expected := SerializeEntriesForSigning(es.es);
    if expected != message {
      return Rejected(Mismatch);
    }
    return Accepted(es.es, address);
  }

  lemma {:induction false} MalformedStays(read: string -> Entry, objs: seq<string>, k: nat)
    requires k <= |objs| && ReadEntries(read, objs[..k]).Malformed?
    ensures ReadEntries(read, objs).Malformed?
    decreases |objs| - k
  {
    if k < |objs| {
      assert objs[..k + 1][..k] == objs[..k];
      MalformedStays(read, objs, k + 1);
    } else {
      assert objs[..k] == objs;
    }
  }

  lemma ReadMore(read: string -> Entry, objs: seq<string>, i: nat, es: seq<Entry>)
    requires i < |objs| && ReadEntries(read, objs[..i]) == Entries(es)
    ensures ReadEntries(read, objs[..i + 1])
         == if Sound(read(objs[i])) then Entries(es + [read(objs[i])]) else Malformed
  {
    assert objs[..i + 1][..i] == objs[..i];
  }

  method ReadOne(obj: string) returns (e: Entry)
    ensures e == ReadEntry(obj)
  {
    var h := ExtractJsonInt(obj, "height");
    var x := ExtractJsonString(obj, "hash");
    var t := ExtractJsonInt(obj, "timestamp");
    e := Entry(h, x, t);
  }

  method ReadAll(objs: seq<string>) returns (r: Entries)
    ensures r == ReadEntries(ReadEntry, objs)
  {
    var es: seq<Entry> := [];
    var i := 0;
    assert objs[..0] == [];
    while i < |objs|
      invariant 0 <= i <= |objs| && ReadEntries(ReadEntry, objs[..i]) == Entries(es)
    {
      ReadMore(ReadEntry, objs, i, es);
      var e := ReadOne(objs[i]);
      if !Sound(e) {
        MalformedStays(ReadEntry, objs, i + 1);
        return Malformed;
      }
      es := es + [e];
      i := i + 1;
    }
    assert objs[..i] == objs;
    return Entries(es);
  }
}
