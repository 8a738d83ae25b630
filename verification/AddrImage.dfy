/**
The image of the address manager, field by field, and what any image at all is read as: no written
form is assumed of it.
*/
module AddrImage {
  import opened AddrTables
  import opened AddrDisk
  import opened AddrRebucket
  import opened IntSets

  // ---------------------------------------------------------------- what is written

  /** The records are those of `ids`, with the six fields that are saved. */
  predicate RecordsOf(t: Tables, ids: seq<int>, rs: seq<Record>) {
    && |rs| == |ids|
    && forall k :: 0 <= k < |ids| ==>
         && ids[k] in t.info
         && var i := t.info[ids[k]];
            rs[k] == Record(i.service, i.services, i.time, i.source, i.lastSuccess, i.attempts)
  }

  /**
  The image holds the key, all new entries and then all tried entries, both in ascending order of id, and
  256 bucket lists.  A list names the members of its bucket by their place among the new entries, ascending.
  */
  lemma ImageHolds(h: Hashes, t: Tables) returns (news: seq<int>, tried: seq<int>)
    requires Consistent(h, t)
    ensures Increasing(news) && forall id :: id in news <==> id in t.info && !t.info[id].inTried
    ensures Increasing(tried) && forall id :: id in tried <==> id in t.info && t.info[id].inTried
    ensures
      var d := Encode(t);
      && d.key == t.key && RecordsOf(t, news, d.news) && RecordsOf(t, tried, d.tried) && |d.buckets| == 256
      && forall b :: 0 <= b < 256 ==>
           Increasing(d.buckets[b]) && forall k :: k in d.buckets[b] <==> 0 <= k < |news| && news[k] in t.news[b]
  {
    var l := ListingOf(t);
    news, tried := l.news, l.tried;
    var d := Encode(t);
    forall b | 0 <= b < 256
      ensures Increasing(d.buckets[b]) && forall k :: k in d.buckets[b] <==> 0 <= k < |news| && news[k] in t.news[b]
    {
      IndexesOfBucket(news, t.news[b]);
      IndexesAscend(news, Ascending(t.news[b]));
    }
  }

  lemma IndexesAscend(list: seq<int>, ids: seq<int>)
    requires Increasing(list) && Increasing(ids) && forall id <- ids :: id in list
    ensures Increasing(Indexes(list, ids))
  {
    var part := Indexes(list, ids);
    forall i, j | 0 <= i < j < |ids| ensures part[i] < part[j] {
      assert ids[i] in ids && ids[j] in ids;
      assert list[part[i]] < list[part[j]];
    }
  }

  // ---------------------------------------------------------------- what any image is read as

  /** How many of the records select a tried bucket. */
  function Hits(h: Hashes, key: Key, rs: seq<Record>, b: nat): nat {
    if rs == [] then 0
    else Hits(h, key, rs[..|rs| - 1], b) + if h.tried(key, rs[|rs| - 1].service) % 64 == b then 1 else 0
  }

  function Least64(n: nat): nat { if n < 64 then n else 64 }

  function Total(lists: seq<seq<int>>): nat {
    if lists == [] then 0 else Total(lists[..|lists| - 1]) + |lists[|lists| - 1]|
  }

  lemma {:induction false} TotalGrows(lists: seq<seq<int>>, k: nat, x: int)
    requires k < |lists|
    ensures Total(lists[k := lists[k] + [x]]) == Total(lists) + 1
  {
    var last := |lists| - 1;
    var more := lists[k := lists[k] + [x]];
    if k == last {
      assert more[..last] == lists[..last];
    } else {
      assert more[..last] == lists[..last][k := lists[k] + [x]];
      TotalGrows(lists[..last], k, x);
    }
  }

  lemma {:induction false} TriedRead(h: Hashes, t: Tables, rs: seq<Record>)
    requires |t.tried| == 64 && forall b :: 0 <= b < 64 ==> t.tried[b] == []
    ensures
      var u := LoadTried(h, t, rs);
      && u.key == t.key && u.nTried == t.nTried - |rs| + Total(u.tried) - Total(t.tried)
      && forall b :: 0 <= b < 64 ==> |u.tried[b]| == Least64(Hits(h, t.key, rs, b))
  {
    if rs != [] {
      var n := |rs| - 1;
      TriedRead(h, t, rs[..n]);
      var s := LoadTried(h, t, rs[..n]);
      var k := TriedBucket(h, t.key, Loaded(rs[n], 0));
      if |s.tried[k]| < TRIED_BUCKET_SIZE {
        TotalGrows(s.tried, k, s.idCount);
      }
    }
  }

  /** How often an index stands in a list, and in all lists. */
  function Times(list: seq<int>, x: int): nat {
    if list == [] then 0 else Times(list[..|list| - 1], x) + if list[|list| - 1] == x then 1 else 0
  }

  function AllTimes(lists: seq<seq<int>>, x: int): nat {
    if lists == [] then 0 else AllTimes(lists[..|lists| - 1], x) + Times(lists[|lists| - 1], x)
  }

  function Count(t: Tables, x: int): int { if x in t.info then t.info[x].refCount else 0 }

  function Least4(n: int): int { if n < 4 then n else 4 }

  /** `u` is `s` but for new buckets, counts, and blank entries added. */
  predicate OnlyCounts(s: Tables, u: Tables) {
    && u == s.(info := u.info, news := u.news) && |u.news| == |s.news|
    && (forall x <- s.info :: x in u.info && u.info[x] == s.info[x].(refCount := u.info[x].refCount))
    && (forall x <- u.info :: x !in s.info ==> u.info[x] == BLANK.(refCount := u.info[x].refCount))
  }

  lemma {:induction false} ListRead(s: Tables, t: Tables, b: nat, list: seq<int>)
    requires OnlyCounts(s, t) && b < |t.news| && forall x :: 0 <= Count(t, x) <= 4
    ensures
      var u := LoadBucket(t, b, list, true);
      && OnlyCounts(s, u)
      && (forall x :: Count(u, x) == Least4(Count(t, x) + Times(list, x)))
      && (forall c, x {:trigger x in u.news[c]} :: 0 <= c < |t.news| ==>
            (x in u.news[c] <==> x in t.news[c] || (c == b && Times(list, x) > 0 && Count(t, x) < 4)))
  {
    if list != [] {
      var n := |list| - 1;
      ListRead(s, t, b, list[..n]);
      IndexRead(s, LoadBucket(t, b, list[..n], true), b, list[n]);
    }
  }

  lemma IndexRead(s: Tables, t: Tables, b: nat, y: int)
    requires OnlyCounts(s, t) && b < |t.news| && 0 <= Count(t, y) <= 4
    ensures
      var u := AddIndex(t, b, y, true);
      && OnlyCounts(s, u)
      && (forall x :: Count(u, x) == if x == y then Least4(Count(t, x) + 1) else Count(t, x))
      && (forall c, x {:trigger x in u.news[c]} :: 0 <= c < |t.news| ==>
            (x in u.news[c] <==> x in t.news[c] || (c == b && x == y && Count(t, y) < 4)))
  {
  }

  lemma {:induction false} ListsRead(t: Tables, lists: seq<seq<int>>)
    requires |lists| <= |t.news| && (forall x :: Count(t, x) == 0) && forall b :: 0 <= b < |t.news| ==> t.news[b] == {}
    ensures
      var u := LoadBuckets(t, lists, true);
      && OnlyCounts(t, u)
      && (forall x :: Count(u, x) == Least4(AllTimes(lists, x)))
      && (forall b, x {:trigger x in u.news[b]} :: 0 <= b < |t.news| ==>
            (x in u.news[b] <==> b < |lists| && Times(lists[b], x) > 0 && AllTimes(lists[..b], x) < 4))
  {
    if lists != [] {
      var n := |lists| - 1;
      ListsRead(t, lists[..n]);
      ListRead(t, LoadBuckets(t, lists[..n], true), n, lists[n]);
      var u := LoadBuckets(t, lists, true);
      forall b, x | 0 <= b < |t.news|
        ensures x in u.news[b] <==> b < |lists| && Times(lists[b], x) > 0 && AllTimes(lists[..b], x) < 4
      {
        assert b < n ==> lists[..n][..b] == lists[..b];
      }
    }
  }

  /**
  Reading any image with 256 bucket lists.  A tried bucket takes the first 64 records that select it, and the
  tally counts those taken.  The count of an index is the number of times the lists name it, up to four; it is
  put into each bucket whose list names it before the four are used up.
  */
  lemma {:induction false} AnyImageRead(h: Hashes, d: Disk)
    requires |d.buckets| == 256
    ensures
      var u := Read(h, d);
      && u.key == d.key && u.nNew == |d.news| && |u.tried| == 64 && |u.news| == 256
      && u.nTried == Total(u.tried) && (forall b :: 0 <= b < 64 ==> |u.tried[b]| == Least64(Hits(h, d.key, d.tried, b)))
      && (forall x <- u.info :: u.info[x].refCount == Least4(AllTimes(d.buckets, x)))
      && (forall b, x {:trigger x in u.news[b]} :: 0 <= b < 256 ==>
            (x in u.news[b] <==> Times(d.buckets[b], x) > 0 && AllTimes(d.buckets[..b], x) < 4))
  {
    var s, t := ReadNew(h, d), ReadTried(h, d);
    NewUncounted(h, Blank(d), d.news);
    NoneInEmpty(s.tried);
    TriedRead(h, s, d.tried);
    TriedUncounted(h, s, d.tried);
    ListsRead(t, d.buckets);
    var u := Read(h, d);
    assert forall x <- u.info :: u.info[x].refCount == Count(u, x);
  }

  lemma {:induction false} NoneInEmpty(lists: seq<seq<int>>)
    requires forall b :: 0 <= b < |lists| ==> lists[b] == []
    ensures Total(lists) == 0
  {
    if lists != [] {
      NoneInEmpty(lists[..|lists| - 1]);
    }
  }

  lemma {:induction false} NewUncounted(h: Hashes, t: Tables, rs: seq<Record>)
    requires |t.news| == NEW_BUCKET_COUNT && forall x <- t.info :: t.info[x].refCount == 0
    ensures
      var u := LoadNew(h, t, rs, false);
      u == t.(info := u.info, byAddr := u.byAddr, random := u.random) && forall x <- u.info :: u.info[x].refCount == 0
  {
    if rs != [] {
      NewUncounted(h, t, rs[..|rs| - 1]);
    }
  }

  lemma {:induction false} TriedUncounted(h: Hashes, t: Tables, rs: seq<Record>)
    requires |t.tried| == TRIED_BUCKET_COUNT && forall x <- t.info :: t.info[x].refCount == 0
    ensures
      var u := LoadTried(h, t, rs);
      u.nNew == t.nNew && forall x <- u.info :: u.info[x].refCount == 0
  {
    if rs != [] {
      TriedUncounted(h, t, rs[..|rs| - 1]);
    }
  }

  /** With another number of bucket lists every new record goes to the one bucket that its own source selects. */
  lemma {:induction false} OtherImageRead(h: Hashes, d: Disk, b: nat, x: int)
    requires |d.buckets| != 256 && b < 256
    ensures
      var u := Read(h, d);
      x in u.news[b] <==> 0 <= x < |d.news| && h.news(d.key, d.news[x].service.ip, d.news[x].source) % 256 == b
  {
    var t := ReadTried(h, d);
    LoadNewCounted(h, Blank(d), d.news);
    ListsPassed(t, d.buckets);
    assert t.news[b] == Share(h, d.key, d.news, b);
    if 0 <= x < |d.news| {
      assert Chosen(h, d.key, d.news[x]) == h.news(d.key, d.news[x].service.ip, d.news[x].source) % 256;
    }
  }
}
