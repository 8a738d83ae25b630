/** Phrases as text: the word list, the splitter, the generator and the checker. */
module MnemonicText {
  import opened Positional
  import opened Mnemonic
  import opened MnemonicBits

  // ---------------------------------------------------------------- the word list

  /** Lexicographic order. */
  predicate Less(a: string, b: string) {
    if b == "" then false
    else if a == "" then true
    else if a[0] != b[0] then a[0] < b[0]
    else Less(a[1..], b[1..])
  }

  lemma {:induction false} LessIrreflexive(a: string)
    ensures !Less(a, a)
  {
    if a != "" {
      LessIrreflexive(a[1..]);
    }
  }

  lemma {:induction false} LessTransitive(a: string, b: string, c: string)
    requires Less(a, b) && Less(b, c)
    ensures Less(a, c)
  {
    if a != "" && a[0] == b[0] == c[0] {
      LessTransitive(a[1..], b[1..], c[1..]);
    }
  }

  lemma {:induction false} LessTotal(a: string, b: string)
    ensures a == b || Less(a, b) || Less(b, a)
  {
    if a != "" && b != "" && a[0] == b[0] {
      LessTotal(a[1..], b[1..]);
      assert a == [a[0]] + a[1..] && b == [b[0]] + b[1..];
    }
  }

  predicate Gap(c: char) { c == ' ' || c == '\t' || c == '\n' || c == '\r' }

  predicate IsWord(w: string) { w != "" && forall i :: 0 <= i < |w| ==> !Gap(w[i]) }

  /** A strictly sorted list of 2048 words. */
  predicate WordList(list: seq<string>) {
    && |list| == 2048
    && (forall i :: 0 <= i < |list| ==> IsWord(list[i]))
    && (forall i, j :: 0 <= i < j < |list| ==> Less(list[i], list[j]))
  }

  lemma ListDistinct(list: seq<string>, i: nat, j: nat)
    requires WordList(list) && i < |list| && j < |list| && list[i] == list[j]
    ensures i == j
  {
    LessIrreflexive(list[i]);
  }

  /** The place of a word, or -1: it is in the list or it is not. */
  predicate IsIndex(list: seq<string>, w: string, i: int) {
    if i < 0 then i == -1 && forall k :: 0 <= k < |list| ==> list[k] != w
    else i < |list| && list[i] == w
  }

  method WordIndex(list: seq<string>, w: string) returns (i: int)
    requires WordList(list)
    ensures IsIndex(list, w, i)
  {
    var lo, hi := 0, 2047;
    while lo <= hi
      invariant 0 <= lo <= hi + 1 <= 2048
      invariant forall k :: 0 <= k < lo ==> list[k] != w
      invariant forall k :: hi < k < 2048 ==> list[k] != w
    {
      var mid := (lo + hi) / 2;
      if w == list[mid] {
        return mid;
      }
      LessTotal(w, list[mid]);
      if Less(w, list[mid]) {
        NotAbove(list, w, mid);
        hi := mid - 1;
      } else {
        NotBelow(list, w, mid);
        lo := mid + 1;
      }
    }
    return -1;
  }

  lemma NotAbove(list: seq<string>, w: string, mid: nat)
    requires WordList(list) && mid < |list| && Less(w, list[mid])
    ensures forall k :: mid <= k < |list| ==> list[k] != w
  {
    LessIrreflexive(w);
    forall k | mid < k < |list| ensures list[k] != w {
      LessTransitive(w, list[mid], list[k]);
    }
  }

  lemma NotBelow(list: seq<string>, w: string, mid: nat)
    requires WordList(list) && mid < |list| && Less(list[mid], w)
    ensures forall k :: 0 <= k <= mid ==> list[k] != w
  {
    LessIrreflexive(w);
    forall k | 0 <= k < mid ensures list[k] != w {
      LessTransitive(list[k], list[mid], w);
    }
  }

  // ---------------------------------------------------------------- splitting and joining

  function SkipGaps(s: string): (r: string)
    ensures |r| <= |s| && (r != "" ==> !Gap(r[0]))
  {
    if s != "" && Gap(s[0]) then SkipGaps(s[1..]) else s
  }

  function FirstWord(s: string): (r: string)
    ensures |r| <= |s| && r == s[..|r|] && (forall i :: 0 <= i < |r| ==> !Gap(r[i]))
    ensures s != "" && !Gap(s[0]) ==> r != ""
    ensures |r| < |s| ==> Gap(s[|r|])
  {
    if s == "" || Gap(s[0]) then "" else [s[0]] + FirstWord(s[1..])
  }

  function Split(s: string): seq<string>
    decreases |s|
  {
    var t := SkipGaps(s);
    if t == "" then [] else
    var w := FirstWord(t);
    [w] + Split(t[|w|..])
  }

  function JoinWords(ws: seq<string>): string {
    if ws == [] then "" else JoinWords(ws[..|ws| - 1]) + (if |ws| > 1 then " " else "") + ws[|ws| - 1]
  }

  lemma {:induction false} JoinHead(ws: seq<string>)
    requires |ws| > 1
    ensures JoinWords(ws) == ws[0] + (" " + JoinWords(ws[1..]))
  {
    var last := ws[|ws| - 1];
    if |ws| == 2 {
      assert ws[..1] == [ws[0]] && JoinWords(ws[..1]) == JoinWords([]) + "" + ws[0];
      assert ws[1..] == [last] && JoinWords([last]) == JoinWords([]) + "" + last;
      assert [ws[0]][..0] == [] && [last][..0] == [];
    } else {
      var front := ws[..|ws| - 1];
      JoinHead(front);
      assert front[1..] == ws[1..][..|ws| - 2];
      assert JoinWords(ws[1..]) == JoinWords(front[1..]) + " " + last;
      assert ws[0] + (" " + JoinWords(front[1..])) + " " + last == ws[0] + (" " + (JoinWords(front[1..]) + " " + last));
    }
  }

  predicate NoGap(w: string) { forall i :: 0 <= i < |w| ==> !Gap(w[i]) }

  lemma {:induction false} FirstWordIs(w: string, rest: string)
    requires NoGap(w) && (rest != "" ==> Gap(rest[0]))
    ensures FirstWord(w + rest) == w
  {
    if w == "" {
      assert w + rest == rest;
    } else {
      assert (w + rest)[1..] == w[1..] + rest;
      FirstWordIs(w[1..], rest);
      assert w == [w[0]] + w[1..];
    }
  }

  predicate AllWords(ws: seq<string>) { forall i :: 0 <= i < |ws| ==> IsWord(ws[i]) }

  /** `f` splits: the proofs below unfold the splitter one word at a time. */
  ghost predicate Splits(f: string -> seq<string>) { forall t: string {:trigger Split(t)} :: f(t) == Split(t) }

  lemma SplitNext(f: string -> seq<string>, s: string, t: string, w: string, rest: string)
    requires Splits(f) && t == SkipGaps(s) && w == FirstWord(t) && rest == t[|w|..]
    ensures f(s) == (if t == "" then [] else [w]) + f(rest)
    ensures t != "" ==> w != ""
  {
    assert Split(s) == if t == "" then [] else [w] + Split(rest);
    assert f(rest) == Split(rest);
  }

  lemma SplitEmpty(f: string -> seq<string>)
    requires Splits(f)
    ensures f("") == []
  {
    assert f("") == Split("");
  }

  lemma SplitWord(f: string -> seq<string>, w: string, rest: string)
    requires Splits(f) && IsWord(w) && (rest != "" ==> Gap(rest[0]))
    ensures f(w + rest) == [w] + f(rest)
  {
    FirstWordIs(w, rest);
    var s := w + rest;
    assert s[0] == w[0] && SkipGaps(s) == s;
    assert s[|w|..] == rest;
    SplitNext(f, s, s, w, rest);
  }

  lemma SplitGap(f: string -> seq<string>, rest: string)
    requires Splits(f)
    ensures f(" " + rest) == f(rest)
  {
    var s := " " + rest;
    assert s[1..] == rest;
    SameGaps(f, s, rest);
  }

  lemma SameGaps(f: string -> seq<string>, s: string, t: string)
    requires Splits(f) && SkipGaps(s) == SkipGaps(t)
    ensures f(s) == f(t)
  {
    assert Split(s) == Split(t);
  }

  lemma SplitMore(f: string -> seq<string>, w: string, rest: string)
    requires Splits(f) && IsWord(w)
    ensures f(w + (" " + rest)) == [w] + f(rest)
  {
    SplitWord(f, w, " " + rest);
    SplitGap(f, rest);
  }

  /** Words joined by blanks split back into the words. */
  lemma {:induction false} SplitJoinAs(f: string -> seq<string>, ws: seq<string>)
    requires AllWords(ws) && Splits(f)
    ensures f(JoinWords(ws)) == ws
    decreases |ws|
  {
    SplitEmpty(f);
    if |ws| == 1 {
      assert ws[..0] == [] && JoinWords(ws) == "" + "" + ws[0] == ws[0] + "";
      SplitWord(f, ws[0], "");
    } else if |ws| > 1 {
      JoinHead(ws);
      SplitJoinAs(f, ws[1..]);
      SplitMore(f, ws[0], JoinWords(ws[1..]));
      assert ws == [ws[0]] + ws[1..];
    }
  }

  lemma SplitJoin(ws: seq<string>)
    requires AllWords(ws)
    ensures Split(JoinWords(ws)) == ws
  {
    SplitJoinAs(Split, ws);
  }

  method SplitWords(s: string) returns (ws: seq<string>)
    ensures ws == Split(s)
  {
    ws := SplitAs(Split, s);
  }

  method SplitAs(ghost f: string -> seq<string>, s: string) returns (ws: seq<string>)
    requires Splits(f)
    ensures ws == f(s)
  {
    ws := [];
    var i := 0;
    assert s[0..] == s;
    while i < |s|
      invariant 0 <= i <= |s| && f(s) == ws + f(s[i..])
    {
      var start, end := NextWord(f, s, i);
      if end > start {
        ws := ws + [s[start..end]];
      }
      i := end;
    }
    SplitEmpty(f);
    assert s[i..] == "";
  }

  /** From `i` past the gaps to `start`, and past the word to `end`. */
  method NextWord(ghost f: string -> seq<string>, s: string, i: nat) returns (start: nat, end: nat)
    requires Splits(f) && i < |s|
    ensures i <= start <= end <= |s| && end > i
    ensures f(s[i..]) == (if end > start then [s[start..end]] else []) + f(s[end..])
  {
    start := SkipFrom(s, i);
    end := WordEnd(s, start);
    ghost var t := s[start..];
    assert t[end - start..] == s[end..];
    SplitNext(f, s[i..], t, s[start..end], s[end..]);
    if t == "" {
      SplitEmpty(f);
      assert s[end..] == "";
    }
  }

  method SkipFrom(s: string, from: nat) returns (i: nat)
    requires from <= |s|
    ensures from <= i <= |s| && s[i..] == SkipGaps(s[from..])
  {
    i := from;
    while i < |s| && Gap(s[i])
      invariant from <= i <= |s| && SkipGaps(s[from..]) == SkipGaps(s[i..])
    {
      assert s[i..][1..] == s[i + 1..];
      i := i + 1;
    }
  }

  method WordEnd(s: string, from: nat) returns (j: nat)
    requires from <= |s|
    ensures from <= j <= |s| && s[from..j] == FirstWord(s[from..])
  {
    j := from;
    while j < |s| && !Gap(s[j])
      invariant from <= j <= |s| && forall k :: from <= k < j ==> !Gap(s[k])
    {
      j := j + 1;
    }
    assert s[from..] == s[from..j] + s[j..];
    FirstWordIs(s[from..j], s[j..]);
  }

  // ---------------------------------------------------------------- phrases

  function WordsAt(list: seq<string>, ns: seq<int>): (ws: seq<string>)
    requires |list| == 2048 && InList(ns)
    ensures |ws| == |ns|
  {
    seq(|ns|, i requires 0 <= i < |ns| => list[ns[i]])
  }

  /** The phrase of some entropy. */
  ghost function Phrase(list: seq<string>, ent: seq<int>, n: nat, hash: Hash): string
    requires WordList(list) && GoodCount(n) && InBase(ent, 256) && |ent| == EntropyBytes(n) && HashOk(hash)
  {
    IndicesInList(ent, n, hash);
    JoinWords(WordsAt(list, Indices(ent, n, hash)))
  }

  /** What the checker accepts: words of the list, as many as there may be, whose last bits are right. */
  ghost predicate Accepts(list: seq<string>, text: string, hash: Hash)
    requires WordList(list) && HashOk(hash)
  {
    AcceptsWords(list, Split(text), hash)
  }

  ghost predicate AcceptsWords(list: seq<string>, ws: seq<string>, hash: Hash)
    requires WordList(list) && HashOk(hash)
  {
    exists ns :: InList(ns) && ws == WordsAt(list, ns) && Passes(ns, hash)
  }

  lemma WordsInjective(list: seq<string>, a: seq<int>, b: seq<int>)
    requires WordList(list) && InList(a) && InList(b) && WordsAt(list, a) == WordsAt(list, b)
    ensures a == b
  {
    assert |a| == |WordsAt(list, a)| == |b|;
    forall i | 0 <= i < |a| ensures a[i] == b[i] {
      assert list[a[i]] == WordsAt(list, a)[i] == WordsAt(list, b)[i] == list[b[i]];
      ListDistinct(list, a[i], b[i]);
    }
  }

  /** The phrase of any entropy is accepted, whatever the hash function. */
  lemma GeneratedAccepted(list: seq<string>, ent: seq<int>, n: nat, hash: Hash)
    requires WordList(list) && GoodCount(n) && InBase(ent, 256) && |ent| == EntropyBytes(n) && HashOk(hash)
    ensures Accepts(list, Phrase(list, ent, n, hash), hash)
  {
    var ns := Indices(ent, n, hash);
    GeneratedPasses(ent, n, hash);
    var ws := WordsAt(list, ns);
    assert AllWords(ws) by {
      forall i | 0 <= i < |ws| ensures IsWord(ws[i]) {
        assert ws[i] == list[ns[i]];
      }
    }
    SplitJoin(ws);
  }

  ghost predicate PhraseOf(list: seq<string>, text: string, ent: seq<int>, hash: Hash)
    requires WordList(list) && HashOk(hash)
  {
    var n := |Split(text)|;
    && GoodCount(n) && InBase(ent, 256) && |ent| == EntropyBytes(n)
    && Split(text) == Split(Phrase(list, ent, n, hash))
  }

  lemma PhraseSplits(list: seq<string>, ent: seq<int>, n: nat, hash: Hash)
    requires WordList(list) && GoodCount(n) && InBase(ent, 256) && |ent| == EntropyBytes(n) && HashOk(hash)
    ensures InList(Indices(ent, n, hash)) && Split(Phrase(list, ent, n, hash)) == WordsAt(list, Indices(ent, n, hash))
  {
    IndicesInList(ent, n, hash);
    var ns := Indices(ent, n, hash);
    var ws := WordsAt(list, ns);
    assert AllWords(ws) by {
      forall i | 0 <= i < |ws| ensures IsWord(ws[i]) {
        assert ws[i] == list[ns[i]];
      }
    }
    SplitJoin(ws);
  }

  /** Text is accepted if and only if its words are the phrase of some entropy, and then of exactly one. */
  lemma {:induction false} AcceptedIsOnePhrase(list: seq<string>, text: string, hash: Hash)
    requires WordList(list) && HashOk(hash)
    ensures Accepts(list, text, hash) <==> exists ent :: PhraseOf(list, text, ent, hash)
    ensures forall a, b :: PhraseOf(list, text, a, hash) && PhraseOf(list, text, b, hash) ==> a == b
  {
    if Accepts(list, text, hash) {
      var ns :| InList(ns) && Split(text) == WordsAt(list, ns) && Passes(ns, hash);
      PassingIsGenerated(ns, hash);
      PhraseSplits(list, EntropyOf(ns), |ns|, hash);
      assert PhraseOf(list, text, EntropyOf(ns), hash);
    }
    forall ent | PhraseOf(list, text, ent, hash) ensures Accepts(list, text, hash) {
      PhraseSplits(list, ent, |Split(text)|, hash);
      GeneratedPasses(ent, |Split(text)|, hash);
    }
    forall a, b | PhraseOf(list, text, a, hash) && PhraseOf(list, text, b, hash) ensures a == b {
      SamePhrase(list, text, a, b, hash);
    }
  }

  lemma SamePhrase(list: seq<string>, text: string, a: seq<int>, b: seq<int>, hash: Hash)
    requires WordList(list) && HashOk(hash) && PhraseOf(list, text, a, hash) && PhraseOf(list, text, b, hash)
    ensures a == b
  {
    var n := |Split(text)|;
    PhraseSplits(list, a, n, hash);
    PhraseSplits(list, b, n, hash);
    WordsInjective(list, Indices(a, n, hash), Indices(b, n, hash));
    GeneratedPasses(a, n, hash);
    GeneratedPasses(b, n, hash);
  }

  // ---------------------------------------------------------------- the generator

  /** The first bits of a hash are those of its first byte. */
  lemma FirstHashBits(h: seq<int>, c: nat)
    requires |h| > 0 && Naturals(h) && c <= 8
    ensures |Join(h, 8)| >= 8 && Join(h, 8)[..c] == Fixed(h[0], 8, 2)[..c]
  {
    JoinPrefix(h, 8, 1);
    assert h[..1] == [] + [h[0]];
    JoinAppend([], h[0], 8);
  }

  /** The bit buffer of the generator starts with the bits of the phrase. */
  lemma BufferBits(ent: seq<int>, n: nat, hash: Hash)
    requires GoodCount(n) && InBase(ent, 256) && |ent| == EntropyBytes(n) && HashOk(hash)
    ensures
      var buf := ent + [hash(ent)[0]];
      Naturals(buf) && 11 * n <= 8 * |buf| && Join(buf, 8)[..11 * n] == PhraseBits(ent, n, hash)
  {
    Counts(n);
    var h := hash(ent);
    JoinAppend(ent, h[0], 8);
    FirstHashBits(h, ChecksumBits(n));
    var c := ChecksumBits(n);
    assert (Join(ent, 8) + Fixed(h[0], 8, 2))[..8 * |ent| + c] == Join(ent, 8) + Fixed(h[0], 8, 2)[..c];
  }

  lemma OneMoreBit(bits: seq<int>, from: nat, to: nat)
    requires from <= to < |bits|
    ensures Value(bits[from..to + 1], 2) == Value(bits[from..to], 2) * 2 + bits[to]
  {
    assert bits[from..to + 1] == bits[from..to] + [bits[to]];
    ValueAppend(bits[from..to], bits[to], 2);
  }

  /** Eleven bits of the buffer as a number. */
  method ReadIndex(buf: seq<int>, from: nat, ghost bits: seq<int>) returns (idx: int)
    requires Naturals(buf) && from + 11 <= 8 * |buf| && bits == Join(buf, 8)
    ensures idx == Value(bits[from..from + 11], 2)
  {
    idx := 0;
    var to := from;
    while to < from + 11
      invariant from <= to <= from + 11 && idx == Value(bits[from..to], 2)
    {
      var bit := BitAt(buf, to);
      OneMoreBit(bits, from, to);
      idx := idx * 2 + bit;
      to := to + 1;
    }
  }

  lemma ChunkAt(bits: seq<int>, n: nat, i: nat)
    requires |bits| == 11 * n && InBase(bits, 2) && i < n
    ensures Chunks(bits, 11, n)[i] == Value(bits[11 * i..11 * i + 11], 2)
    decreases n
  {
    if i < n - 1 {
      ChunkAt(bits[..11 * (n - 1)], n - 1, i);
      assert bits[..11 * (n - 1)][11 * i..11 * i + 11] == bits[11 * i..11 * i + 11];
    } else {
      assert bits[11 * i..] == bits[11 * i..11 * i + 11];
    }
  }

  /** 16 or 32 bytes of entropy, by strength: any strength but 128 means 256 bits. */
  method GenerateMnemonic(list: seq<string>, strengthBits: int, ent: seq<int>, hash: Hash) returns (out: string)
    requires WordList(list) && HashOk(hash) && InBase(ent, 256) && |ent| == if strengthBits == 128 then 16 else 32
    ensures
      var n := if strengthBits == 128 then 12 else 24;
      |ent| == EntropyBytes(n) && out == Phrase(list, ent, n, hash)
  {
    var strength := if strengthBits != 128 && strengthBits != 256 then 256 else strengthBits;
    var words := (strength + strength / 32) / 11;
    assert words == if strength == 128 then 12 else 24;
    BufferBits(ent, words, hash);
    IndicesInList(ent, words, hash);
    out := PrintWords(list, ent + [hash(ent)[0]], words, Indices(ent, words, hash));
  }

  method PrintWords(list: seq<string>, buf: seq<int>, words: nat, ghost ns: seq<int>) returns (out: string)
    requires WordList(list) && Naturals(buf) && 11 * words <= 8 * |buf|
    requires ns == Chunks(Join(buf, 8)[..11 * words], 11, words) && InList(ns)
    ensures out == JoinWords(WordsAt(list, ns))
  {
    out := "";
    ghost var ws := WordsAt(list, ns);
    var i := 0;
    assert ws[..0] == [];
    while i < words
      invariant 0 <= i <= words && out == JoinWords(ws[..i])
    {
      var idx := ReadIndexAt(buf, words, i, ns);
      assert ws[..i + 1][..i] == ws[..i];
      if i > 0 {
        out := out + " ";
      }
      out := out + list[idx];
      i := i + 1;
    }
    assert ws[..words] == ws;
  }

  method ReadIndexAt(buf: seq<int>, words: nat, i: nat, ghost ns: seq<int>) returns (idx: int)
    requires Naturals(buf) && 11 * words <= 8 * |buf| && i < words
    requires ns == Chunks(Join(buf, 8)[..11 * words], 11, words)
    ensures idx == ns[i]
  {
    ghost var bits := Join(buf, 8);
    idx := ReadIndex(buf, 11 * i, bits);
    ChunkAt(bits[..11 * words], words, i);
    assert bits[..11 * words][11 * i..11 * i + 11] == bits[11 * i..11 * i + 11];
  }

  // ---------------------------------------------------------------- the checker

  /** The row of index bits so far, and zeros up to the end of the buffer. */
  ghost predicate Filled(buf: seq<int>, bits: seq<int>) {
    && InBase(buf, 256) && |bits| <= 8 * |buf|
    && Join(buf, 8) == bits + Zeros(8 * |buf| - |bits|)
  }

  /** One more bit behind those already there. */
  method PutBit(buf: seq<int>, ghost bits: seq<int>, pos: nat, bit: int) returns (r: seq<int>)
    requires Filled(buf, bits) && pos == |bits| < 8 * |buf| && (bit == 0 || bit == 1)
    ensures |r| == |buf| && Filled(r, bits + [bit])
  {
    r := buf;
    ghost var rest := Zeros(8 * |buf| - |bits|);
    assert rest == [0] + Zeros(8 * |buf| - |bits| - 1);
    assert (bits + rest)[pos] == 0;
    if bit == 1 {
      r := SetBit(buf, pos);
      assert (bits + rest)[pos := 1] == (bits + [1]) + Zeros(8 * |buf| - |bits| - 1);
    } else {
      assert bits + rest == (bits + [0]) + Zeros(8 * |buf| - |bits| - 1);
    }
  }

  /** The eleven bits of an index, highest first. */
  method PutIndex(buf: seq<int>, ghost bits: seq<int>, from: nat, idx: nat, w: nat) returns (r: seq<int>)
    requires Filled(buf, bits) && from == |bits| && from + w <= 8 * |buf|
    ensures |r| == |buf| && Filled(r, bits + Fixed(idx, w, 2))
  {
    r := buf;
    var b := 0;
    ghost var all := Fixed(idx, w, 2);
    assert bits + all[..0] == bits;
    while b < w
      invariant 0 <= b <= w && |r| == |buf| && Filled(r, bits + all[..b])
    {
      BitOfFixed(idx, w, b);
      var bit := Shift(idx, w - 1 - b) % 2;
      assert bits + all[..b + 1] == (bits + all[..b]) + [bit];
      r := PutBit(r, bits + all[..b], from + b, bit);
      b := b + 1;
    }
    assert all[..w] == all;
  }

  datatype Unpacked = UnknownWord | Unpacked(buf: seq<int>)

  /** All words into the buffer, unless one is not in the list. */
  method Unpack(list: seq<string>, ws: seq<string>, size: nat) returns (u: Unpacked, ghost ns: seq<int>)
    requires WordList(list) && 11 * |ws| <= 8 * size
    ensures u.Unpacked? ==>
      && InList(ns) && |ns| == |ws| && ws == WordsAt(list, ns)
      && |u.buf| == size && Filled(u.buf, Join(ns, 11))
    ensures u.UnknownWord? ==> forall ms :: InList(ms) ==> WordsAt(list, ms) != ws
  {
    var buf := Zeros(size);
    ns := [];
    JoinZeros(size, 8);
    assert Join([], 11) + Zeros(8 * size) == Zeros(8 * size);
    var i := 0;
    while i < |ws|
      invariant 0 <= i <= |ws| && |ns| == i && InList(ns) && WordsAt(list, ns) == ws[..i]
      invariant |buf| == size && Filled(buf, Join(ns, 11))
    {
      var idx := WordIndex(list, ws[i]);
      if idx < 0 {
        NotAWord(list, ws, i);
        return UnknownWord, ns;
      }
      buf := PutNext(buf, ns, i, idx);
      ns := ns + [idx];
      assert WordsAt(list, ns) == ws[..i + 1];
      i := i + 1;
    }
    assert ws[..i] == ws;
    u := Unpacked(buf);
  }

  method PutNext(buf: seq<int>, ghost ns: seq<int>, i: nat, idx: nat) returns (r: seq<int>)
    requires InList(ns) && |ns| == i && Filled(buf, Join(ns, 11)) && 11 * i + 11 <= 8 * |buf|
    ensures |r| == |buf| && Filled(r, Join(ns + [idx], 11))
  {
    JoinAppend(ns, idx, 11);
    r := PutIndex(buf, Join(ns, 11), 11 * i, idx, 11);
  }

  lemma NotAWord(list: seq<string>, ws: seq<string>, i: nat)
    requires WordList(list) && i < |ws| && forall k :: 0 <= k < |list| ==> list[k] != ws[i]
    ensures forall ms :: InList(ms) ==> WordsAt(list, ms) != ws
  {
    forall ms | InList(ms) && |ms| == |ws| ensures WordsAt(list, ms)[i] != ws[i] {
      assert WordsAt(list, ms)[i] == list[ms[i]];
    }
  }

  lemma WrongCount(list: seq<string>, ws: seq<string>, hash: Hash)
    requires WordList(list) && HashOk(hash) && !GoodCount(|ws|)
    ensures !AcceptsWords(list, ws, hash)
  {
    forall ns | InList(ns) && ws == WordsAt(list, ns) ensures !GoodCount(|ns|) {
      assert |ns| == |WordsAt(list, ns)|;
    }
  }

  lemma WrongWord(list: seq<string>, ws: seq<string>, hash: Hash)
    requires WordList(list) && HashOk(hash) && forall ms :: InList(ms) ==> WordsAt(list, ms) != ws
    ensures !AcceptsWords(list, ws, hash)
  {
  }

  method CheckMnemonic(list: seq<string>, text: string, hash: Hash) returns (ok: bool)
    requires WordList(list) && HashOk(hash)
    ensures ok <==> Accepts(list, text, hash)
  {
    var ws := SplitWords(text);
    ok := CheckWords(list, ws, hash);
  }

  method CheckWords(list: seq<string>, ws: seq<string>, hash: Hash) returns (ok: bool)
    requires WordList(list) && HashOk(hash)
    ensures ok <==> AcceptsWords(list, ws, hash)
  {
    var nw := |ws|;
    if nw != 12 && nw != 15 && nw != 18 && nw != 21 && nw != 24 {
      WrongCount(list, ws, hash);
      return false;
    }
    ok := CheckCounted(list, ws, hash);
  }

  method CheckCounted(list: seq<string>, ws: seq<string>, hash: Hash) returns (ok: bool)
    requires WordList(list) && HashOk(hash) && GoodCount(|ws|)
    ensures ok <==> AcceptsWords(list, ws, hash)
  {
    var nw := |ws|;
    Counts(nw);
    var csBits := nw * 11 / 33;
    var entBytes := (nw * 11 - csBits) / 8;
    var size := (nw * 11 + 7) / 8;
    var u, ns := Unpack(list, ws, size);
    if u.UnknownWord? {
      WrongWord(list, ws, hash);
      return false;
    }
    OnlyThese(list, ws, ns, hash);
    ok := VerifyChecksum(u.buf, entBytes, csBits, ns, hash);
  }

  /** The entropy at the front of the buffer against the bits behind it. */
  method VerifyChecksum(buf: seq<int>, entBytes: nat, csBits: nat, ghost ns: seq<int>, hash: Hash) returns (ok: bool)
    requires HashOk(hash) && InList(ns) && GoodCount(|ns|) && Filled(buf, Join(ns, 11)) && entBytes <= |buf|
    requires entBytes == EntropyBytes(|ns|) && csBits == ChecksumBits(|ns|)
    ensures ok <==> Passes(ns, hash)
  {
    Counts(|ns|);
    var ent := buf[..entBytes];
    EntropyRead(ns, buf, entBytes);
    ghost var row := Join(ns, 11);
    assert Join(buf, 8)[..|row|] == row;
    var h := hash(ent);
    ok := CompareBits(buf, h, 8 * entBytes, csBits, row, Join(h, 8));
  }

  /** The first bytes of the buffer are the entropy that the indices carry. */
  lemma {:induction false} EntropyRead(ns: seq<int>, buf: seq<int>, k: nat)
    requires InList(ns) && GoodCount(|ns|) && k == EntropyBytes(|ns|) && Filled(buf, Join(ns, 11)) && k <= |buf|
    ensures buf[..k] == EntropyOf(ns)
  {
    Counts(|ns|);
    JoinPrefix(buf, 8, k);
    assert (Join(ns, 11) + Zeros(8 * |buf| - |Join(ns, 11)|))[..8 * k] == Join(ns, 11)[..8 * k];
    PowEleven(11, 8);
    ChunksJoin(buf[..k], 8);
  }

  /** The last bits of the row against the first bits of the hash. */
  method CompareBits(buf: seq<int>, h: seq<int>, from: nat, c: nat, ghost row: seq<int>, ghost want: seq<int>)
    returns (same: bool)
    requires Naturals(buf) && Naturals(h) && c <= 8 * |h| && from + c == |row| <= 8 * |buf|
    requires row == Join(buf, 8)[..|row|] && want == Join(h, 8)
    ensures same <==> row[from..] == want[..c]
  {
    var b := 0;
    while b < c
      invariant 0 <= b <= c && forall k :: 0 <= k < b ==> row[from + k] == want[k]
    {
      var got := BitAt(buf, from + b);
      var wanted := BitAt(h, b);
      if got != wanted {
        assert row[from..][b] != want[..c][b];
        return false;
      }
      b := b + 1;
    }
    return true;
  }

  /** The words decide the indices. */
  lemma OnlyThese(list: seq<string>, ws: seq<string>, ns: seq<int>, hash: Hash)
    requires WordList(list) && HashOk(hash) && InList(ns) && ws == WordsAt(list, ns)
    ensures AcceptsWords(list, ws, hash) <==> Passes(ns, hash)
  {
    forall ms | InList(ms) && ws == WordsAt(list, ms) ensures ms == ns {
      WordsInjective(list, ms, ns);
    }
  }

  // ---------------------------------------------------------------- the text, spelled out

  /** Words are printed in their order, with one blank between two of them. */
  lemma JoinMore(ws: seq<string>, w: string)
    ensures JoinWords([w]) == w
    ensures ws != [] ==> JoinWords(ws + [w]) == JoinWords(ws) + " " + w
  {
    assert [w][..0] == [] && JoinWords([w]) == "" + "" + w;
    assert (ws + [w])[..|ws|] == ws;
  }

  predicate White(g: string) { forall i :: 0 <= i < |g| ==> g[i] == ' ' || g[i] == '\t' || g[i] == '\n' || g[i] == '\r' }

  lemma {:induction false} WhiteSkipped(g: string, rest: string)
    requires White(g)
    ensures SkipGaps(g + rest) == SkipGaps(rest)
  {
    if g == "" {
      assert g + rest == rest;
    } else {
      assert (g + rest)[1..] == g[1..] + rest;
      WhiteSkipped(g[1..], rest);
    }
  }

  /** A word ends at any blank, tab or line end, of which there may be several, before it as well. */
  lemma GapsSeparate(before: string, w: string, g: string, rest: string)
    requires White(before) && White(g) && (g != "" || rest == "")
    requires w != "" && forall i :: 0 <= i < |w| ==> w[i] != ' ' && w[i] != '\t' && w[i] != '\n' && w[i] != '\r'
    ensures Split(before + (w + (g + rest))) == [w] + Split(rest)
  {
    WhiteSkipped(before, w + (g + rest));
    SameGaps(Split, before + (w + (g + rest)), w + (g + rest));
    WhiteSkipped(g, rest);
    SameGaps(Split, g + rest, rest);
    SplitWord(Split, w, g + rest);
  }
}
