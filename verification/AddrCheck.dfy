/**
The address manager's own consistency check: a walk over all tables that returns an error code.
Proved to return zero exactly for the tables that satisfy `Passes`, which consistent tables do.
*/
module AddrCheck {
  import opened AddrTables
  import opened AddrSteps
  import opened IntSets
  import opened Lists

  /** Looking up a missing address creates it with id zero. */
  function Lookup(byAddr: map<NetAddr, int>, a: NetAddr): int { if a in byAddr then byAddr[a] else 0 }

  predicate SidePasses(i: Info) {
    if i.inTried then i.lastSuccess != 0 && i.refCount == 0 else 1 <= i.refCount <= NEW_BUCKETS_PER_ADDRESS
  }

  predicate EntryPasses(t: Tables, id: int)
    requires id in t.info
  {
    var i := t.info[id];
    && SidePasses(i)
    && Lookup(t.byAddr, i.service.ip) == id
    && 0 <= i.randomPos < |t.random| && t.random[i.randomPos] == id
    && i.lastTry >= 0 && i.lastSuccess >= 0
  }

  /** The tried buckets together hold every tried id once and nothing else. */
  ghost predicate TriedPasses(t: Tables) {
    Distinct(Flat(t.tried)) && forall id :: id in Flat(t.tried) <==> id in TriedIds(t)
  }

  /** Each id occurs in as many new buckets as its reference count says, tried and unknown ids in none. */
  ghost predicate NewPasses(t: Tables) {
    forall id :: Refs(t.news, id) == if id in NewIds(t) then t.info[id].refCount else 0
  }

  ghost predicate Passes(t: Tables) {
    && |t.random| == t.nTried + t.nNew
    && (forall id <- t.info :: EntryPasses(t, id))
    && |TriedIds(t)| == t.nTried && |NewIds(t)| == t.nNew
    && TriedPasses(t)
    && NewPasses(t)
  }

  lemma {:induction false} FlatPrefix(buckets: seq<seq<int>>, n: nat, j: nat)
    requires n < |buckets| && j <= |buckets[n]|
    ensures Flat(buckets[..n]) + buckets[n][..j] <= Flat(buckets)
  {
    var last := |buckets| - 1;
    if n == last {
      assert buckets[..n] == buckets[..last];
    } else {
      assert buckets[..last][..n] == buckets[..n];
      FlatPrefix(buckets[..last], n, j);
    }
  }

  /** The tests of an entry that depend on its side alone. */
  method CheckSide(i: Info) returns (err: int)
    ensures err == 0 <==> SidePasses(i)
  {
    if i.inTried {
      if i.lastSuccess == 0 { return -1; }
      if i.refCount != 0 { return -2; }
    } else {
      if i.refCount < 0 || i.refCount > NEW_BUCKETS_PER_ADDRESS { return -3; }
      if i.refCount == 0 { return -4; }
    }
    return 0;
  }

  /** The tests of an entry against the two indexes, and of its times. */
  method CheckIndexes(t: Tables, id: int, byAddr0: map<NetAddr, int>) returns (err: int, byAddr: map<NetAddr, int>)
    requires id in t.info && forall a :: Lookup(byAddr0, a) == Lookup(t.byAddr, a)
    ensures SidePasses(t.info[id]) ==> (err == 0 <==> EntryPasses(t, id))
    ensures forall a :: Lookup(byAddr, a) == Lookup(t.byAddr, a)
    ensures t.info[id].service.ip in byAddr0 ==> byAddr == byAddr0
  {
    var i := t.info[id];
    byAddr := byAddr0;
    if i.service.ip !in byAddr {
      byAddr := byAddr[i.service.ip := 0];
    }
    assert byAddr[i.service.ip] == Lookup(t.byAddr, i.service.ip);
    if byAddr[i.service.ip] != id { return -5, byAddr; }
    if i.randomPos < 0 || i.randomPos >= |t.random| || t.random[i.randomPos] != id {
      return -14, byAddr;
    }
    if i.lastTry < 0 { return -6, byAddr; }
    if i.lastSuccess < 0 { return -8, byAddr; }
    err := 0;
  }

  /** The walk over the entries, which also collects the tried ids and the reference counts. */
  method CheckEntries(t: Tables)
    returns (err: int, setTried: set<int>, mapNew: map<int, int>, byAddr: map<NetAddr, int>)
    ensures err == 0 <==> forall id <- t.info :: EntryPasses(t, id)
    ensures err == 0 ==> setTried == TriedIds(t) && mapNew.Keys == NewIds(t)
    ensures err == 0 ==> forall id <- mapNew :: id in t.info && mapNew[id] == t.info[id].refCount
    ensures (forall id <- t.info :: t.info[id].service.ip in t.byAddr) ==> byAddr == t.byAddr
  {
    setTried, mapNew, byAddr := {}, map[], t.byAddr;
    var rest := t.info.Keys;
    while rest != {}
      invariant rest <= t.info.Keys
      invariant forall id <- t.info :: id !in rest ==> EntryPasses(t, id)
      invariant forall id :: id in setTried <==> id in t.info && id !in rest && t.info[id].inTried
      invariant forall id :: id in mapNew <==> id in t.info && id !in rest && !t.info[id].inTried
      invariant forall id <- mapNew :: mapNew[id] == t.info[id].refCount
      invariant forall a :: Lookup(byAddr, a) == Lookup(t.byAddr, a)
      invariant (forall id <- t.info :: t.info[id].service.ip in t.byAddr) ==> byAddr == t.byAddr
      decreases |rest|
    {
      var id := Least(rest);
      var i := t.info[id];
      err := CheckSide(i);
      if err != 0 {
        return err, setTried, mapNew, byAddr;
      }
      if i.inTried {
        setTried := setTried + {id};
      } else {
        mapNew := mapNew[id := i.refCount];
      }
      err, byAddr := CheckIndexes(t, id, byAddr);
      if err != 0 {
        return err, setTried, mapNew, byAddr;
      }
      rest := rest - {id};
    }
    assert forall id :: id in setTried <==> id in TriedIds(t);
    assert setTried == TriedIds(t);
    assert forall id :: id in mapNew.Keys <==> id in NewIds(t);
    assert mapNew.Keys == NewIds(t);
    err := 0;
  }

  /** Crosses every id of the tried buckets off the set; `left` is what was never met. */
  method CheckTried(tried: seq<seq<int>>, ids: set<int>) returns (err: int, left: set<int>)
    ensures err == 0 <==> Distinct(Flat(tried)) && forall id <- Flat(tried) :: id in ids
    ensures err == 0 ==> forall id :: id in left <==> id in ids && id !in Flat(tried)
  {
    left := ids;
    ghost var done := [];
    var n := 0;
    while n < |tried|
      invariant 0 <= n <= |tried| && done == Flat(tried[..n])
      invariant Distinct(done) && (forall id <- done :: id in ids)
      invariant forall id :: id in left <==> id in ids && id !in done
    {
      var j := 0;
      while j < |tried[n]|
        invariant 0 <= j <= |tried[n]| && done == Flat(tried[..n]) + tried[n][..j]
        invariant Distinct(done) && (forall id <- done :: id in ids)
        invariant forall id :: id in left <==> id in ids && id !in done
      {
        var elem := tried[n][j];
        assert tried[n][..j + 1] == tried[n][..j] + [elem];
        FlatPrefix(tried, n, j + 1);
        assert Flat(tried)[|done|] == elem && forall k :: 0 <= k < |done| ==> Flat(tried)[k] == done[k];
        if elem !in left {
          assert elem in Flat(tried);
          if elem in done {
            ghost var i := IndexOf(done, elem);
            assert Flat(tried)[i] == Flat(tried)[|done|];
          }
          return -11, left;
        }
        left := left - {elem};
        done := done + [elem];
        j := j + 1;
      }
      assert tried[n][..j] == tried[n] && tried[..n + 1][..n] == tried[..n];
      n := n + 1;
    }
    assert tried[..n] == tried;
    assert done == Flat(tried);
    err := 0;
  }

  /** Counts every reference down; `left` holds the counts that never reached zero. */
  method CheckNew(news: seq<set<int>>, counts: map<int, int>) returns (err: int, left: map<int, int>)
    requires forall id <- counts :: counts[id] > 0
    ensures err == 0 <==> forall id :: Refs(news, id) <= if id in counts then counts[id] else 0
    ensures err == 0 ==> (left == map[] <==> forall id <- counts :: Refs(news, id) == counts[id])
  {
    left := counts;
    var n := 0;
    while n < |news|
      invariant 0 <= n <= |news|
      invariant forall id :: CountedDown(counts, left, id, Refs(news[..n], id))
    {
      var rest := news[n];
      assert news[..n + 1][..n] == news[..n];
      while rest != {}
        invariant rest <= news[n]
        invariant forall id :: CountedDown(counts, left, id,
                                           Refs(news[..n], id) + (if id in news[n] && id !in rest then 1 else 0))
        decreases |rest|
      {
        var id := Least(rest);
        if id !in left {
          RefsGrow(news, n + 1, id);
          return -12, left;
        }
        left := left[id := left[id] - 1];
        if left[id] == 0 {
          left := left - {id};
        }
        rest := rest - {id};
      }
      n := n + 1;
    }
    assert news[..n] == news;
    forall id ensures Refs(news, id) <= if id in counts then counts[id] else 0 {
      assert CountedDown(counts, left, id, Refs(news[..n], id));
    }
    AllCountedDown(news, counts, left);
    return 0, left;
  }

  /** After `seen` references to `id`, its count stands at the difference and is gone at zero. */
  predicate CountedDown(counts: map<int, int>, left: map<int, int>, id: int, seen: int) {
    var count := if id in counts then counts[id] else 0;
    seen <= count && (id in left <==> seen < count) && (id in left ==> left[id] == count - seen)
  }

  lemma AllCountedDown(news: seq<set<int>>, counts: map<int, int>, left: map<int, int>)
    requires forall id :: CountedDown(counts, left, id, Refs(news, id))
    ensures left == map[] <==> forall id <- counts :: Refs(news, id) == counts[id]
  {
    if left == map[] {
      forall id <- counts ensures Refs(news, id) == counts[id] {
        assert CountedDown(counts, left, id, Refs(news, id));
      }
    } else {
      var id := Member(left.Keys);
      assert CountedDown(counts, left, id, Refs(news, id));
    }
  }

  lemma {:induction false} RefsGrow(news: seq<set<int>>, n: nat, id: int)
    requires n <= |news|
    ensures Refs(news[..n], id) <= Refs(news, id)
  {
    if n == |news| {
      assert news[..n] == news;
    } else {
      RefsGrow(news[..|news| - 1], n, id);
      assert news[..|news| - 1][..n] == news[..n];
    }
  }

  /** The whole check.  Only missing addresses are ever added to the index. */
  method Check(t: Tables) returns (err: int, byAddr: map<NetAddr, int>)
    ensures err == 0 <==> Passes(t)
    ensures (forall id <- t.info :: t.info[id].service.ip in t.byAddr) ==> byAddr == t.byAddr
  {
    byAddr := t.byAddr;
    if |t.random| != t.nTried + t.nNew { return -7, byAddr; }
    var setTried, mapNew;
    err, setTried, mapNew, byAddr := CheckEntries(t);
    if err != 0 { return; }
    if |setTried| != t.nTried { return -9, byAddr; }
    if |mapNew| != t.nNew { return -10, byAddr; }
    var left;
    err, left := CheckTried(t.tried, setTried);
    if err != 0 { return; }
    var counts;
    err, counts := CheckNew(t.news, mapNew);
    if err != 0 { return; }
    if |left| != 0 {
      ghost var id := Member(left);
      return -13, byAddr;
    }
    if |counts| != 0 { return -15, byAddr; }
    assert forall id <- TriedIds(t) :: id !in left;
    assert TriedPasses(t);
    assert counts == map[];
    assert NewPasses(t);
    return 0, byAddr;
  }

  // ---------------------------------------------------------------- consistent tables pass

  lemma {:induction false} FlatMembers(buckets: seq<seq<int>>, id: int)
    ensures id in Flat(buckets) <==> exists b :: 0 <= b < |buckets| && id in buckets[b]
  {
    if buckets != [] {
      var last := |buckets| - 1;
      FlatMembers(buckets[..last], id);
      assert forall b :: 0 <= b < last ==> buckets[..last][b] == buckets[b];
    }
  }

  lemma {:induction false} FlatDistinct(buckets: seq<seq<int>>)
    requires forall b :: 0 <= b < |buckets| ==> Distinct(buckets[b])
    requires forall b, c, id :: 0 <= b < c < |buckets| && id in buckets[b] ==> id !in buckets[c]
    ensures Distinct(Flat(buckets))
  {
    if buckets != [] {
      var last := |buckets| - 1;
      var front := buckets[..last];
      FlatDistinct(front);
      forall i, j | 0 <= i < |Flat(front)| && 0 <= j < |buckets[last]| ensures Flat(front)[i] != buckets[last][j] {
        FlatMembers(front, Flat(front)[i]);
        assert Flat(front)[i] in Flat(front);
      }
    }
  }

  /** Every consistent state passes the program's own check. */
  lemma ConsistentPasses(h: Hashes, t: Tables)
    requires Consistent(h, t)
    ensures Passes(t)
  {
    RandomCounts(t);
    forall b, c, id | 0 <= b < c < |t.tried| && id in t.tried[b] ensures id !in t.tried[c] {
      assert TriedBucket(h, t.key, t.info[id]) == b;
    }
    FlatDistinct(t.tried);
    forall id ensures id in Flat(t.tried) <==> id in TriedIds(t) {
      FlatMembers(t.tried, id);
    }
    forall id ensures Refs(t.news, id) == if id in NewIds(t) then t.info[id].refCount else 0 {
      RefsZero(t.news, id);
    }
  }

  lemma RandomCounts(t: Tables)
    requires RandomIndexed(t) && Tallied(t)
    ensures |t.random| == t.nTried + t.nNew
  {
    assert Distinct(t.random);
    assert forall id :: id in t.random <==> id in t.info;
    DistinctSize(t.random, t.info.Keys);
    assert TriedIds(t) + NewIds(t) == t.info.Keys && TriedIds(t) * NewIds(t) == {};
  }

  // ---------------------------------------------------------------- what the check does not see

  /** The part of consistency that the check leaves out: how ids are given out, addresses without an entry, and
      the number, size and choice of buckets. */
  predicate Unchecked(h: Hashes, t: Tables) {
    && t.idCount >= 0
    && (forall id <- t.info :: 0 <= id < t.idCount && t.info[id].service.ip in t.byAddr)
    && (forall a <- t.byAddr :: t.byAddr[a] in t.info && t.info[t.byAddr[a]].service.ip == a)
    && |t.tried| == 64 && (forall b :: 0 <= b < 64 ==> |t.tried[b]| <= 64)
    && |t.news| == 256 && (forall b :: 0 <= b < 256 ==> |t.news[b]| <= 64)
    && (forall b, id {:trigger id in t.tried[b]} :: 0 <= b < 64 && id in t.tried[b] && id in t.info ==>
          h.tried(t.key, t.info[id].service) % 64 == b)
  }

  lemma {:induction false} MoreMembers(ids: set<int>, s: seq<int>)
    requires forall id <- ids :: id in s
    ensures |ids| <= |s|
    decreases |s|
  {
    if ids != {} {
      var x := Member(ids);
      assert x in s;
      var last := s[|s| - 1];
      assert s == s[..|s| - 1] + [last];
      MoreMembers(ids - {last}, s[..|s| - 1]);
    }
  }

  /** As many places as entries, and every entry in its place: no place is left over. */
  lemma PlacesTaken(t: Tables, p: nat)
    requires forall id <- t.info :: EntryPasses(t, id)
    requires |t.random| == |t.info.Keys| && p < |t.random|
    ensures t.random[p] in t.info && t.info[t.random[p]].randomPos == p
  {
    var rest := t.random[..p] + t.random[p + 1..];
    if !(t.random[p] in t.info && t.info[t.random[p]].randomPos == p) {
      forall id <- t.info.Keys ensures id in rest {
        assert EntryPasses(t, id);
        var q := t.info[id].randomPos;
        assert q != p && rest[if q < p then q else q - 1] == id;
      }
      MoreMembers(t.info.Keys, rest);
    }
  }

  lemma PassesIndexed(h: Hashes, t: Tables)
    requires Passes(t) && Unchecked(h, t)
    ensures AddrIndexed(t) && RandomIndexed(t)
  {
    assert TriedIds(t) + NewIds(t) == t.info.Keys && TriedIds(t) * NewIds(t) == {};
    forall id <- t.info ensures t.byAddr[t.info[id].service.ip] == id {
      assert EntryPasses(t, id);
    }
    forall p | 0 <= p < |t.random| ensures t.random[p] in t.info && t.info[t.random[p]].randomPos == p {
      PlacesTaken(t, p);
    }
    forall id <- t.info ensures 0 <= t.info[id].randomPos < |t.random| && t.random[t.info[id].randomPos] == id {
      assert EntryPasses(t, id);
    }
  }

  lemma {:induction false} DistinctParts(buckets: seq<seq<int>>, b: nat)
    requires Distinct(Flat(buckets)) && b < |buckets|
    ensures Distinct(buckets[b])
  {
    var n := |Flat(buckets[..b])|;
    FlatPrefix(buckets, b, |buckets[b]|);
    assert buckets[b][..|buckets[b]|] == buckets[b];
    forall j | 0 <= j < |buckets[b]| ensures buckets[b][j] == Flat(buckets)[n + j] {
      assert (Flat(buckets[..b]) + buckets[b])[n + j] == buckets[b][j];
    }
  }

  lemma PassesTried(h: Hashes, t: Tables)
    requires Passes(t) && Unchecked(h, t)
    ensures TriedPlaced(h, t)
  {
    forall b | 0 <= b < |t.tried| ensures Distinct(t.tried[b]) {
      DistinctParts(t.tried, b);
    }
    forall b, id | 0 <= b < |t.tried| && id in t.tried[b]
      ensures id in t.info && t.info[id].inTried && TriedBucket(h, t.key, t.info[id]) == b
    {
      FlatMembers(t.tried, id);
      assert id in TriedIds(t);
    }
    forall id <- t.info | t.info[id].inTried ensures id in t.tried[TriedBucket(h, t.key, t.info[id])] {
      assert id in TriedIds(t);
      FlatMembers(t.tried, id);
      var b :| 0 <= b < |t.tried| && id in t.tried[b];
    }
  }

  lemma PassesNew(h: Hashes, t: Tables)
    requires Passes(t) && Unchecked(h, t)
    ensures NewPlaced(t) && RefsCounted(t, NO_ID)
  {
    forall b, id | 0 <= b < |t.news| && id in t.news[b] ensures id in t.info && !t.info[id].inTried {
      RefsZero(t.news, id);
      assert id in NewIds(t);
    }
    forall id <- t.info
      ensures t.info[id].refCount == Refs(t.news, id)
      ensures !t.info[id].inTried ==> 1 <= t.info[id].refCount <= NEW_BUCKETS_PER_ADDRESS
      ensures t.info[id].inTried ==> t.info[id].refCount == 0
    {
      assert EntryPasses(t, id);
      assert id in NewIds(t) <==> !t.info[id].inTried;
    }
  }

  /** Tables are consistent if and only if they pass the check and satisfy what it leaves out. */
  lemma ConsistentIffPasses(h: Hashes, t: Tables)
    ensures Consistent(h, t) <==> Passes(t) && Unchecked(h, t)
  {
    if Consistent(h, t) {
      ConsistentPasses(h, t);
    }
    if Passes(t) && Unchecked(h, t) {
      PassesIndexed(h, t);
      PassesTried(h, t);
      PassesNew(h, t);
      forall id <- t.info ensures t.info[id].lastTry >= 0 && t.info[id].lastSuccess >= 0
                            && (t.info[id].inTried ==> t.info[id].lastSuccess != 0) {
        assert EntryPasses(t, id);
      }
    }
  }
}
