/**
The compressed on-disk form of the address manager.  Only the entries and the new buckets are
written, under fresh numbers; the address index, the random order, the tried buckets and the
reference counts are rebuilt on reading.

`Read` follows the reading code on any input; the theorems are about inputs that `Encode` wrote.
*/
module AddrDisk {
  import opened AddrTables
  import opened IntSets

  /** What is written of an entry; the last try, the counts and the positions are not. */
  datatype Record = Record(
    service: Service, services: set<nat>, time: nat, source: NetAddr, lastSuccess: int, attempts: int)

  /** The fields of the stream in order: each record list has the length announced before it. */
  datatype Disk = Disk(key: Key, news: seq<Record>, tried: seq<Record>, buckets: seq<seq<int>>)

  function Saved(i: Info): Record {
    Record(i.service, i.services, i.time, i.source, i.lastSuccess, i.attempts)
  }

  function Loaded(r: Record, pos: int): Info {
    Info(r.service, r.services, r.time, 0, r.source, r.lastSuccess, r.attempts, 0, false, pos)
  }

  /** The entry that a lookup of an unknown number creates. */
  const BLANK := Info(Service(0, 0), {0}, 100000000, 0, 0, 0, 0, 0, false, -1)

  // ---------------------------------------------------------------- writing

  /** The ids in the order in which their entries are written: new ones first, each part ascending. */
  datatype Listing = Listing(news: seq<int>, tried: seq<int>) {
    function All(): seq<int> { news + tried }
  }

  ghost predicate Lists(t: Tables, l: Listing) {
    && Increasing(l.news) && Increasing(l.tried)
    && (forall id :: id in l.news <==> id in NewIds(t))
    && (forall id :: id in l.tried <==> id in TriedIds(t))
    && (forall k :: 0 <= k < |l.news| ==> l.news[k] in t.info && !t.info[l.news[k]].inTried)
    && (forall k :: 0 <= k < |l.tried| ==> l.tried[k] in t.info && t.info[l.tried[k]].inTried)
    && |l.news| == |NewIds(t)| && |l.tried| == |TriedIds(t)|
  }

  function ListingOf(t: Tables): (l: Listing)
    ensures Lists(t, l)
  {
    var news, tried := Ascending(NewIds(t)), Ascending(TriedIds(t));
    assert forall k :: 0 <= k < |news| ==> news[k] in news;
    assert forall k :: 0 <= k < |tried| ==> tried[k] in tried;
    Listing(news, tried)
  }

  function Records(info: map<int, Info>, ids: seq<int>): (r: seq<Record>)
    requires forall k :: 0 <= k < |ids| ==> ids[k] in info
    ensures |r| == |ids|
  {
    seq(|ids|, i requires 0 <= i < |ids| => Saved(info[ids[i]]))
  }

  function Indexes(list: seq<int>, ids: seq<int>): (r: seq<int>)
    requires forall id <- ids :: id in list
    ensures |r| == |ids|
  {
    seq(|ids|, i requires 0 <= i < |ids| => assert ids[i] in ids; IndexOf(list, ids[i]))
  }

  function Buckets(list: seq<int>, news: seq<set<int>>): (r: seq<seq<int>>)
    requires forall b, id :: 0 <= b < |news| && id in news[b] ==> id in list
    ensures |r| == |news|
  {
    seq(|news|, b requires 0 <= b < |news| => Indexes(list, Ascending(news[b])))
  }

  predicate Listed(t: Tables, l: Listing) {
    && (forall k :: 0 <= k < |l.news| ==> l.news[k] in t.info)
    && (forall k :: 0 <= k < |l.tried| ==> l.tried[k] in t.info)
    && (forall b, id :: 0 <= b < |t.news| && id in t.news[b] ==> id in l.news)
  }

  function Image(t: Tables, l: Listing): Disk
    requires Listed(t, l)
  {
    Disk(t.key, Records(t.info, l.news), Records(t.info, l.tried), Buckets(l.news, t.news))
  }

  function Encode(t: Tables): Disk
    requires NewPlaced(t)
  {
    Image(t, ListingOf(t))
  }

  // ---------------------------------------------------------------- reading

  function AddNew(h: Hashes, t: Tables, r: Record, n: int, rebucket: bool): Tables
    requires |t.news| == NEW_BUCKET_COUNT
  {
    var i := Loaded(r, |t.random|);
    var b := NewBucket(h, t.key, i, i.source);
    t.(info := t.info[n := if rebucket then i.(refCount := 1) else i],
    byAddr := t.byAddr[r.service.ip := n],
    random := t.random + [n],
    news := if rebucket then t.news[b := t.news[b] + {n}] else t.news)
  }

  function LoadNew(h: Hashes, t: Tables, rs: seq<Record>, rebucket: bool): (u: Tables)
    requires |t.news| == NEW_BUCKET_COUNT
    ensures |u.news| == NEW_BUCKET_COUNT && u.tried == t.tried
  {
    if rs == [] then t
    else
      var n := |rs| - 1;
      AddNew(h, LoadNew(h, t, rs[..n], rebucket), rs[n], n, rebucket)
  }

  /** A tried record goes to the bucket its hash selects; one that finds it full is lost. */
  function AddTried(h: Hashes, t: Tables, r: Record): Tables
    requires |t.tried| == TRIED_BUCKET_COUNT
  {
    var i := Loaded(r, |t.random|).(inTried := true);
    var k := TriedBucket(h, t.key, i);
    if |t.tried[k]| < TRIED_BUCKET_SIZE then
      t.(random := t.random + [t.idCount],
      info := t.info[t.idCount := i],
      byAddr := t.byAddr[r.service.ip := t.idCount],
      tried := t.tried[k := t.tried[k] + [t.idCount]],
      idCount := t.idCount + 1)
    else t.(nTried := t.nTried - 1)
  }

  function LoadTried(h: Hashes, t: Tables, rs: seq<Record>): (u: Tables)
    requires |t.tried| == TRIED_BUCKET_COUNT
    ensures |u.tried| == TRIED_BUCKET_COUNT && u.news == t.news
  {
    if rs == [] then t
    else AddTried(h, LoadTried(h, t, rs[..|rs| - 1]), rs[|rs| - 1])
  }

  function AddIndex(t: Tables, b: nat, index: int, sameCount: bool): (u: Tables)
    requires sameCount ==> b < |t.news|
    ensures |u.news| == |t.news|
  {
    var i := if index in t.info then t.info[index] else BLANK;
    if sameCount && i.refCount < NEW_BUCKETS_PER_ADDRESS then
      t.(info := t.info[index := i.(refCount := i.refCount + 1)], news := t.news[b := t.news[b] + {index}])
    else t.(info := t.info[index := i])
  }

  function LoadBucket(t: Tables, b: nat, indexes: seq<int>, sameCount: bool): (u: Tables)
    requires sameCount ==> b < |t.news|
    ensures |u.news| == |t.news|
  {
    if indexes == [] then t
    else AddIndex(LoadBucket(t, b, indexes[..|indexes| - 1], sameCount), b, indexes[|indexes| - 1], sameCount)
  }

  function LoadBuckets(t: Tables, buckets: seq<seq<int>>, sameCount: bool): (u: Tables)
    requires sameCount ==> |buckets| <= |t.news|
    ensures |u.news| == |t.news|
  {
    if buckets == [] then t
    else
      var b := |buckets| - 1;
      LoadBucket(LoadBuckets(t, buckets[..b], sameCount), b, buckets[b], sameCount)
  }

  function Blank(d: Disk): Tables { Empty(d.key).(nNew := |d.news|, nTried := |d.tried|) }

  /** Whether the image was written with the present number of new buckets. */
  predicate SameCount(d: Disk) { |d.buckets| == NEW_BUCKET_COUNT }

  function ReadNew(h: Hashes, d: Disk): (u: Tables)
    ensures |u.news| == NEW_BUCKET_COUNT && |u.tried| == TRIED_BUCKET_COUNT
  {
    LoadNew(h, Blank(d), d.news, !SameCount(d)).(idCount := |d.news|)
  }

  function ReadTried(h: Hashes, d: Disk): (u: Tables)
    ensures |u.news| == NEW_BUCKET_COUNT
  {
    LoadTried(h, ReadNew(h, d), d.tried)
  }

  function Read(h: Hashes, d: Disk): Tables { LoadBuckets(ReadTried(h, d), d.buckets, SameCount(d)) }

  // ---------------------------------------------------------------- entries come back under new numbers

  predicate Ids(t: Tables, order: seq<int>) { Distinct(order) && forall k :: 0 <= k < |order| ==> order[k] in t.info }

  /** After reading `n` entries: number `k` carries the entry written `k`-th, and the indexes agree. */
  ghost predicate Entered(t: Tables, order: seq<int>, split: nat, u: Tables, n: nat)
    requires Ids(t, order) && n <= |order|
  {
    && InfoEntered(t, order, split, u.info, n)
    && AddressesEntered(t, order, u.byAddr, n)
    && |u.random| == n && (forall p :: 0 <= p < n ==> u.random[p] == p)
  }

  lemma DistinctAddresses(t: Tables, order: seq<int>, i: nat, j: nat)
    requires AddrIndexed(t) && Ids(t, order) && i < |order| && j < |order| && i != j
    ensures t.info[order[i]].service.ip != t.info[order[j]].service.ip
  {
    assert order[i] in t.info && order[j] in t.info && order[i] != order[j];
  }

  lemma {:induction false} LoadNewEnters(h: Hashes, t: Tables, u0: Tables, order: seq<int>, rs: seq<Record>, split: nat)
    requires AddrIndexed(t) && Ids(t, order) && |rs| <= split <= |order|
    requires forall k :: 0 <= k < |rs| ==> rs[k] == Saved(t.info[order[k]])
    requires |u0.news| == NEW_BUCKET_COUNT && u0.info == map[] && u0.byAddr == map[] && u0.random == []
    ensures
      var u := LoadNew(h, u0, rs, false);
      Entered(t, order, split, u, |rs|) && u == u0.(info := u.info, byAddr := u.byAddr, random := u.random)
  {
    if rs != [] {
      var n := |rs| - 1;
      LoadNewEnters(h, t, u0, order, rs[..n], split);
      var s := LoadNew(h, u0, rs[..n], false);
      EnterOne(t, order, split, s, LoadNew(h, u0, rs, false), n);
    }
  }

  lemma {:induction false} EnterOne(t: Tables, order: seq<int>, split: nat, s: Tables, u: Tables, n: nat)
    requires AddrIndexed(t) && Ids(t, order) && n < |order| && Entered(t, order, split, s, n)
    requires u.info == s.info[n := Loaded(Saved(t.info[order[n]]), n).(inTried := n >= split)]
    requires u.byAddr == s.byAddr[t.info[order[n]].service.ip := n] && u.random == s.random + [n]
    ensures Entered(t, order, split, u, n + 1)
  {
    EnterAddress(t, order, s.byAddr, u.byAddr, n);
    EnterInfo(t, order, split, s.info, u.info, n);
  }

  ghost predicate InfoEntered(t: Tables, order: seq<int>, split: nat, info: map<int, Info>, n: nat)
    requires Ids(t, order) && n <= |order|
  {
    && (forall k :: k in info <==> 0 <= k < n)
    && (forall k :: 0 <= k < n ==>
          k in info && info[k] == Loaded(Saved(t.info[order[k]]), k).(inTried := k >= split))
  }

  ghost predicate AddressesEntered(t: Tables, order: seq<int>, byAddr: map<NetAddr, int>, n: nat)
    requires Ids(t, order) && n <= |order|
  {
    && (forall k :: 0 <= k < n ==>
          t.info[order[k]].service.ip in byAddr && byAddr[t.info[order[k]].service.ip] == k)
    && (forall a <- byAddr :: 0 <= byAddr[a] < n && t.info[order[byAddr[a]]].service.ip == a)
  }

  lemma EnterInfo(t: Tables, order: seq<int>, split: nat, info: map<int, Info>, more: map<int, Info>, n: nat)
    requires Ids(t, order) && n < |order| && InfoEntered(t, order, split, info, n)
    requires more == info[n := Loaded(Saved(t.info[order[n]]), n).(inTried := n >= split)]
    ensures InfoEntered(t, order, split, more, n + 1)
  {
  }

  lemma EnterAddress(t: Tables, order: seq<int>, byAddr: map<NetAddr, int>, more: map<NetAddr, int>, n: nat)
    requires AddrIndexed(t) && Ids(t, order) && n < |order| && AddressesEntered(t, order, byAddr, n)
    requires more == byAddr[t.info[order[n]].service.ip := n]
    ensures AddressesEntered(t, order, more, n + 1)
  {
    forall k | 0 <= k < n
      ensures t.info[order[k]].service.ip in more && more[t.info[order[k]].service.ip] == k
    {
      DistinctAddresses(t, order, k, n);
    }
  }

  // ---------------------------------------------------------------- tried entries find their buckets again

  /** Each tried entry read so far stands in its bucket, and nothing else does. */
  ghost predicate TriedEntered(h: Hashes, t: Tables, order: seq<int>, split: nat, u: Tables, n: nat)
    requires Ids(t, order) && n <= |order|
  {
    && |u.tried| == TRIED_BUCKET_COUNT
    && (forall b :: 0 <= b < |u.tried| ==> Distinct(u.tried[b]) && |u.tried[b]| <= TRIED_BUCKET_SIZE)
    && (forall b, k {:trigger k in u.tried[b]} :: 0 <= b < |u.tried| ==>
          (k in u.tried[b] <==> split <= k < n && TriedBucket(h, t.key, t.info[order[k]]) == b))
  }

  lemma {:induction false} DistinctSubset(a: seq<int>, b: seq<int>)
    requires Distinct(a) && forall x <- a :: x in b
    ensures |a| <= |b|
    decreases a
  {
    if a != [] {
      var x := a[|a| - 1];
      assert x in a;
      var i := IndexOf(b, x);
      var rest := b[..i] + b[i + 1..];
      forall y <- a[..|a| - 1] ensures y in rest {
        assert y in a && y != x;
        var j := IndexOf(b, y);
        assert y == if j < i then rest[j] else rest[j - 1];
      }
      DistinctSubset(a[..|a| - 1], rest);
    }
  }

  /** A tried bucket that is being refilled still has room: its entries all stood in one bucket before. */
  lemma RoomForTried(h: Hashes, t: Tables, order: seq<int>, split: nat, u: Tables, n: nat)
    requires TriedPlaced(h, t) && Ids(t, order) && split <= n < |order| && t.info[order[n]].inTried
    requires TriedEntered(h, t, order, split, u, n)
    requires forall k :: split <= k < |order| ==> t.info[order[k]].inTried
    ensures |u.tried[TriedBucket(h, t.key, t.info[order[n]])]| < TRIED_BUCKET_SIZE
  {
    var b := TriedBucket(h, t.key, t.info[order[n]]);
    var ks := u.tried[b] + [n];
    assert n !in u.tried[b];
    forall i | 0 <= i < |ks| ensures split <= ks[i] <= n && TriedBucket(h, t.key, t.info[order[ks[i]]]) == b {
      if i < |u.tried[b]| {
        var k := u.tried[b][i];
        assert ks[i] == k && k in u.tried[b];
      }
    }
    var ids := seq(|ks|, i requires 0 <= i < |ks| => order[ks[i]]);
    assert Distinct(ks);
    forall i, j | 0 <= i < j < |ids| ensures ids[i] != ids[j] {
      assert ks[i] != ks[j];
    }
    forall id <- ids ensures id in t.tried[b] {
      var i := IndexOf(ids, id);
      assert order[ks[i]] in t.info;
    }
    DistinctSubset(ids, t.tried[b]);
  }

  /** The state while tried entries are read, with `n` entries in all so far. */
  ghost predicate Stage(h: Hashes, t: Tables, order: seq<int>, split: nat, base: Tables, u: Tables, n: nat)
    requires Ids(t, order) && n <= |order|
  {
    && Entered(t, order, split, u, n) && TriedEntered(h, t, order, split, u, n)
    && u == base.(info := u.info, byAddr := u.byAddr, random := u.random, tried := u.tried, idCount := n)
  }

  lemma {:induction false} LoadTriedEnters(h: Hashes, t: Tables, u0: Tables, order: seq<int>, split: nat, rs: seq<Record>)
    requires AddrIndexed(t) && TriedPlaced(h, t) && Ids(t, order) && split + |rs| <= |order|
    requires forall k :: 0 <= k < |rs| ==> rs[k] == Saved(t.info[order[split + k]])
    requires forall k :: split <= k < |order| ==> t.info[order[k]].inTried
    requires Stage(h, t, order, split, u0, u0, split) && u0.key == t.key
    ensures Stage(h, t, order, split, u0, LoadTried(h, u0, rs), split + |rs|)
  {
    ghost var stage := (s: Tables, n: nat) => StageAt(h, t, order, split, u0, s, n);
    StagesGo(h, t, u0, order, split, rs, stage);
    LoadTriedStages(h, u0, rs, split, stage);
  }

  lemma StagesGo(h: Hashes, t: Tables, u0: Tables, order: seq<int>, split: nat, rs: seq<Record>, stage: (Tables, nat) -> bool)
    requires AddrIndexed(t) && TriedPlaced(h, t) && Ids(t, order) && split + |rs| <= |order| && u0.key == t.key
    requires forall k :: 0 <= k < |rs| ==> rs[k] == Saved(t.info[order[split + k]])
    requires forall k :: split <= k < |order| ==> t.info[order[k]].inTried
    requires forall s, n :: stage(s, n) <==> StageAt(h, t, order, split, u0, s, n)
    ensures forall s: Tables, n: nat :: split <= n < split + |rs| && |s.tried| == TRIED_BUCKET_COUNT && stage(s, n) ==>
              stage(AddTried(h, s, rs[n - split]), n + 1)
  {
    forall s: Tables, n: nat | split <= n < split + |rs| && |s.tried| == TRIED_BUCKET_COUNT && stage(s, n)
      ensures stage(AddTried(h, s, rs[n - split]), n + 1)
    {
      StageNext(h, t, u0, order, split, s, n, rs[n - split]);
    }
  }

  ghost predicate StageAt(h: Hashes, t: Tables, order: seq<int>, split: nat, base: Tables, u: Tables, n: nat) {
    Ids(t, order) && n <= |order| && Stage(h, t, order, split, base, u, n)
  }

  lemma StageNext(h: Hashes, t: Tables, base: Tables, order: seq<int>, split: nat, s: Tables, n: nat, r: Record)
    requires AddrIndexed(t) && TriedPlaced(h, t) && StageAt(h, t, order, split, base, s, n) && base.key == t.key
    requires split <= n < |order| && r == Saved(t.info[order[n]]) && |s.tried| == TRIED_BUCKET_COUNT
    requires forall k :: split <= k < |order| ==> t.info[order[k]].inTried
    ensures StageAt(h, t, order, split, base, AddTried(h, s, r), n + 1)
  {
    AddTriedEnters(h, t, base, s, order, split, n, r);
  }

  /** What each record keeps, the whole list keeps. */
  lemma {:induction false} LoadTriedStages(h: Hashes, u0: Tables, rs: seq<Record>, split: nat, stage: (Tables, nat) -> bool)
    requires |u0.tried| == TRIED_BUCKET_COUNT && stage(u0, split)
    requires forall s: Tables, n: nat :: split <= n < split + |rs| && |s.tried| == TRIED_BUCKET_COUNT && stage(s, n) ==>
               stage(AddTried(h, s, rs[n - split]), n + 1)
    ensures stage(LoadTried(h, u0, rs), split + |rs|)
  {
    if rs != [] {
      var m := |rs| - 1;
      LoadTriedStages(h, u0, rs[..m], split, stage);
      assert stage(LoadTried(h, u0, rs[..m]), split + m);
    }
  }

  lemma {:induction false} AddTriedEnters(
    h: Hashes, t: Tables, base: Tables, s: Tables, order: seq<int>, split: nat, n: nat, r: Record)
    requires AddrIndexed(t) && TriedPlaced(h, t) && Ids(t, order) && split <= n < |order|
    requires r == Saved(t.info[order[n]])
    requires forall k :: split <= k < |order| ==> t.info[order[k]].inTried
    requires Stage(h, t, order, split, base, s, n) && base.key == t.key
    ensures Stage(h, t, order, split, base, AddTried(h, s, r), n + 1)
  {
    RoomForTried(h, t, order, split, s, n);
    EnterOne(t, order, split, s, AddTried(h, s, r), n);
    PlaceOne(h, t, order, split, s, AddTried(h, s, r), n);
  }

  lemma PlaceOne(h: Hashes, t: Tables, order: seq<int>, split: nat, s: Tables, u: Tables, n: nat)
    requires Ids(t, order) && split <= n < |order| && TriedEntered(h, t, order, split, s, n)
    requires
      var k := TriedBucket(h, t.key, t.info[order[n]]);
      |s.tried[k]| < TRIED_BUCKET_SIZE && u.tried == s.tried[k := s.tried[k] + [n]]
    ensures TriedEntered(h, t, order, split, u, n + 1)
  {
    var c := TriedBucket(h, t.key, t.info[order[n]]);
    assert n !in s.tried[c];
    forall b, k | 0 <= b < |u.tried|
      ensures k in u.tried[b] <==> split <= k < n + 1 && TriedBucket(h, t.key, t.info[order[k]]) == b
    {
      if b == c {
        assert k in u.tried[b] <==> k in s.tried[b] || k == n;
      } else {
        assert k in u.tried[b] <==> k in s.tried[b];
      }
    }
  }

  // ---------------------------------------------------------------- new buckets and reference counts

  /** The first `b` buckets are back, and `part` of the next one; each count is what the buckets hold. */
  ghost predicate BucketsEntered(t: Tables, list: seq<int>, s: Tables, u: Tables, b: nat, part: seq<int>)
  {
    && |u.news| == |t.news|
    && (forall c, k {:trigger k in u.news[c]} :: 0 <= c < |u.news| ==>
          (k in u.news[c] <==> (c < b && 0 <= k < |list| && list[k] in t.news[c]) || (c == b && k in part)))
    && u.info.Keys == s.info.Keys
    && (forall k <- s.info :: u.info[k] == s.info[k].(refCount := Refs(u.news, k)))
    && u == s.(info := u.info, news := u.news)
  }

  lemma {:induction false} RefsBelow(a: seq<set<int>>, x: int, b: seq<set<int>>, y: int)
    requires |a| == |b| && forall k :: 0 <= k < |a| && x in a[k] ==> y in b[k]
    ensures Refs(a, x) <= Refs(b, y)
  {
    if a != [] {
      RefsBelow(a[..|a| - 1], x, b[..|b| - 1], y);
    }
  }

  lemma AddIndexEnters(t: Tables, list: seq<int>, s: Tables, u: Tables, b: nat, part: seq<int>, x: int)
    requires NewPlaced(t) && RefsCounted(t, NO_ID) && NO_ID !in t.info && b < |t.news|
    requires forall k :: 0 <= k < |list| ==> list[k] in t.info
    requires BucketsEntered(t, list, s, u, b, part) && x !in part && x in s.info
    requires 0 <= x < |list| && list[x] in t.news[b]
    requires forall k <- part :: 0 <= k < |list| && list[k] in t.news[b]
    ensures BucketsEntered(t, list, s, AddIndex(u, b, x, true), b, part + [x])
  {
    var more := u.news[b := u.news[b] + {x}];
    assert x !in u.news[b];
    RefsUpdate(u.news, b, u.news[b] + {x}, x);
    forall c | 0 <= c < |more| && x in more[c] ensures list[x] in t.news[c] {
      assert c != b ==> x in u.news[c];
    }
    RefsBelow(more, x, t.news, list[x]);
    var v := AddIndex(u, b, x, true);
    assert list[x] in t.info;
    assert v.news == more;
    forall k <- s.info ensures v.info[k] == s.info[k].(refCount := Refs(v.news, k)) {
      RefsUpdate(u.news, b, u.news[b] + {x}, k);
    }
    forall c, k | 0 <= c < |v.news|
      ensures k in v.news[c] <==> (c < b && 0 <= k < |list| && list[k] in t.news[c]) || (c == b && k in part + [x])
    {
      assert k in v.news[c] <==> k in u.news[c] || (c == b && k == x);
    }
  }

  lemma {:induction false} LoadBucketEnters(t: Tables, list: seq<int>, s: Tables, u: Tables, b: nat, part: seq<int>)
    requires NewPlaced(t) && RefsCounted(t, NO_ID) && NO_ID !in t.info && b < |t.news|
    requires forall k :: 0 <= k < |list| ==> list[k] in t.info && k in s.info
    requires BucketsEntered(t, list, s, u, b, []) && Distinct(part)
    requires forall k <- part :: 0 <= k < |list| && list[k] in t.news[b]
    ensures BucketsEntered(t, list, s, LoadBucket(u, b, part, true), b, part)
  {
    if part != [] {
      var front := part[..|part| - 1];
      var x := part[|part| - 1];
      assert part == front + [x] && x in part;
      forall k <- front ensures 0 <= k < |list| && list[k] in t.news[b] {
        assert k in part;
      }
      LoadBucketEnters(t, list, s, u, b, front);
      AddIndexEnters(t, list, s, LoadBucket(u, b, front, true), b, front, x);
    }
  }

  /** The numbers written for a bucket are those of its ids, each once. */
  lemma IndexesOfBucket(list: seq<int>, bucket: set<int>)
    requires Increasing(list) && forall id <- bucket :: id in list
    ensures
      var part := Indexes(list, Ascending(bucket));
      Distinct(part) && forall k :: k in part <==> 0 <= k < |list| && list[k] in bucket
  {
    var ids := Ascending(bucket);
    IndexesDistinct(list, ids);
    forall k ensures k in Indexes(list, ids) <==> 0 <= k < |list| && list[k] in bucket {
      IndexesMember(list, ids, k);
      if 0 <= k < |list| {
        var id := list[k];
        assert id in ids <==> id in bucket;
      }
    }
  }

  lemma IndexesDistinct(list: seq<int>, ids: seq<int>)
    requires Increasing(ids) && forall id <- ids :: id in list
    ensures Distinct(Indexes(list, ids))
  {
    var part := Indexes(list, ids);
    forall i | 0 <= i < |ids| ensures part[i] < |list| && list[part[i]] == ids[i] {
      assert ids[i] in ids;
    }
  }

  lemma IndexesMember(list: seq<int>, ids: seq<int>, k: int)
    requires Increasing(list) && forall id <- ids :: id in list
    ensures k in Indexes(list, ids) <==> 0 <= k < |list| && list[k] in ids
  {
    var part := Indexes(list, ids);
    if k in part {
      var i := IndexOf(part, k);
      assert ids[i] in ids && part[i] == IndexOf(list, ids[i]);
    }
    if 0 <= k < |list| && list[k] in ids {
      var i := IndexOf(ids, list[k]);
      IndexUnique(list, k);
      assert part[i] == k;
    }
  }

  lemma {:induction false} LoadBucketsEnters(t: Tables, list: seq<int>, s: Tables, b: nat)
    requires NewPlaced(t) && RefsCounted(t, NO_ID) && NO_ID !in t.info && b <= |t.news| && Increasing(list)
    requires forall c, id :: 0 <= c < |t.news| && id in t.news[c] ==> id in list
    requires forall k :: 0 <= k < |list| ==> list[k] in t.info && k in s.info
    requires BucketsEntered(t, list, s, s, 0, [])
    ensures BucketsEntered(t, list, s, LoadBuckets(s, Buckets(list, t.news)[..b], true), b, [])
  {
    if b != 0 {
      var c := b - 1;
      var all := Buckets(list, t.news);
      LoadBucketsEnters(t, list, s, c);
      assert all[..b][..c] == all[..c];
      IndexesOfBucket(list, t.news[c]);
      var u := LoadBuckets(s, all[..c], true);
      LoadBucketEnters(t, list, s, u, c, all[c]);
      BucketDone(t, list, s, LoadBucket(u, c, all[c], true), c, all[c]);
    }
  }

  lemma BucketDone(t: Tables, list: seq<int>, s: Tables, u: Tables, c: nat, part: seq<int>)
    requires c < |t.news| && BucketsEntered(t, list, s, u, c, part)
    requires forall k :: k in part <==> 0 <= k < |list| && list[k] in t.news[c]
    ensures BucketsEntered(t, list, s, u, c + 1, [])
  {
  }

  // ---------------------------------------------------------------- the round trip

  /** `u` is `t` with ids replaced by their place in the writing order; only last tries are forgotten. */
  ghost predicate Renumbered(t: Tables, l: Listing, u: Tables) {
    && u.key == t.key && u.nNew == t.nNew && u.nTried == t.nTried && u.idCount == |l.All()|
    && InfoRenumbered(t, l.All(), u)
    && NewsRenumbered(t, l.All(), u)
    && TriedRenumbered(t, l.All(), u)
  }

  ghost predicate InfoRenumbered(t: Tables, order: seq<int>, u: Tables) {
    && (forall k :: k in u.info <==> 0 <= k < |order|)
    && (forall k :: 0 <= k < |order| ==>
          order[k] in t.info && k in u.info && u.info[k] == t.info[order[k]].(lastTry := 0, randomPos := k))
  }

  ghost predicate NewsRenumbered(t: Tables, order: seq<int>, u: Tables) {
    |u.news| == |t.news|
    && forall b, k {:trigger k in u.news[b]} :: 0 <= b < |u.news| ==>
         (k in u.news[b] <==> 0 <= k < |order| && order[k] in t.news[b])
  }

  ghost predicate TriedRenumbered(t: Tables, order: seq<int>, u: Tables) {
    |u.tried| == |t.tried|
    && forall b, k {:trigger k in u.tried[b]} :: 0 <= b < |u.tried| ==>
         (k in u.tried[b] <==> 0 <= k < |order| && order[k] in t.tried[b])
  }

  /** What the reading loops establish on a written image, before it is compared with `t`. */
  ghost predicate Restored(h: Hashes, t: Tables, l: Listing, s: Tables, u: Tables) {
    && Ids(t, l.All())
    && Stage(h, t, l.All(), |l.news|, s, s, |l.All()|)
    && BucketsEntered(t, l.news, s, u, |t.news|, [])
    && Header(t, s, |l.news|, |l.tried|)
  }

  /** Every id appears once in the writing order, the new ones first. */
  lemma OrderAt(t: Tables, l: Listing, k: nat)
    requires Lists(t, l) && k < |l.All()|
    ensures l.All()[k] in t.info && (t.info[l.All()[k]].inTried <==> k >= |l.news|)
    ensures k < |l.news| ==> l.All()[k] == l.news[k]
  {
  }

  lemma OrderIds(t: Tables, l: Listing)
    requires Lists(t, l)
    ensures Ids(t, l.All())
    ensures forall k :: |l.news| <= k < |l.All()| ==> t.info[l.All()[k]].inTried
  {
    forall k | 0 <= k < |l.All()| ensures l.All()[k] in t.info && (t.info[l.All()[k]].inTried <==> k >= |l.news|) {
      OrderAt(t, l, k);
    }
    forall i, j | 0 <= i < j < |l.All()| ensures l.All()[i] != l.All()[j] {
      OrderAt(t, l, i);
      OrderAt(t, l, j);
    }
  }

  /** What stays fixed while entries are read: the key, the totals, and no bucket filled yet. */
  predicate Header(t: Tables, u: Tables, news: nat, tried: nat) {
    && u.key == t.key && u.nNew == news && u.nTried == tried
    && u.news == seq(NEW_BUCKET_COUNT, _ => {})
  }

  lemma {:induction false} ReadNewRestores(h: Hashes, t: Tables, l: Listing)
    requires AddrIndexed(t) && |t.news| == NEW_BUCKET_COUNT && Ids(t, l.All()) && Listed(t, l)
    ensures
      var u := ReadNew(h, Image(t, l));
      Stage(h, t, l.All(), |l.news|, u, u, |l.news|) && Header(t, u, |l.news|, |l.tried|)
  {
    var d := Image(t, l);
    LoadNewEnters(h, t, Blank(d), l.All(), d.news, |l.news|);
  }

  lemma StageMoves(h: Hashes, t: Tables, order: seq<int>, split: nat, base: Tables, u: Tables, n: nat, tried: nat)
    requires Ids(t, order) && n <= |order| && Stage(h, t, order, split, base, u, n) && Header(t, base, split, tried)
    ensures Stage(h, t, order, split, u, u, n) && Header(t, u, split, tried)
  {
  }

  lemma {:induction false} ReadTriedRestores(h: Hashes, t: Tables, l: Listing)
    requires AddrIndexed(t) && |t.news| == NEW_BUCKET_COUNT && TriedPlaced(h, t)
    requires Ids(t, l.All()) && Listed(t, l)
    requires forall k :: |l.news| <= k < |l.All()| ==> t.info[l.All()[k]].inTried
    ensures
      var s := ReadTried(h, Image(t, l));
      Stage(h, t, l.All(), |l.news|, s, s, |l.All()|) && Header(t, s, |l.news|, |l.tried|)
  {
    var u, rs := ReadNew(h, Image(t, l)), Image(t, l).tried;
    ReadNewRestores(h, t, l);
    LoadTriedEnters(h, t, u, l.All(), |l.news|, rs);
    StageMoves(h, t, l.All(), |l.news|, u, LoadTried(h, u, rs), |l.news| + |rs|, |l.tried|);
  }

  lemma {:induction false} ReadBucketsRestores(t: Tables, list: seq<int>, s: Tables, tried: nat)
    requires NewPlaced(t) && RefsCounted(t, NO_ID) && NO_ID !in t.info && Header(t, s, |list|, tried)
    requires Increasing(list) && forall c, id :: 0 <= c < |t.news| && id in t.news[c] ==> id in list
    requires forall k :: 0 <= k < |list| ==> list[k] in t.info && k in s.info
    requires forall k <- s.info :: s.info[k].refCount == 0
    ensures BucketsEntered(t, list, s, LoadBuckets(s, Buckets(list, t.news), true), |t.news|, [])
  {
    var all := Buckets(list, t.news);
    BucketsStart(t, list, s);
    LoadBucketsEnters(t, list, s, |t.news|);
    assert all[..|t.news|] == all;
  }

  lemma {:induction false} ReadRestores(h: Hashes, t: Tables, l: Listing)
    requires AddrIndexed(t) && NewPlaced(t) && RefsCounted(t, NO_ID) && NO_ID !in t.info && TriedPlaced(h, t)
    requires Lists(t, l)
    ensures Listed(t, l) && Restored(h, t, l, ReadTried(h, Image(t, l)), Read(h, Image(t, l)))
  {
    OrderIds(t, l);
    ReadTriedRestores(h, t, l);
    ReadBucketsRestores(t, l.news, ReadTried(h, Image(t, l)), |l.tried|);
  }

  lemma BucketsStart(t: Tables, list: seq<int>, s: Tables)
    requires |s.news| == |t.news| && forall b :: 0 <= b < |s.news| ==> s.news[b] == {}
    requires forall k <- s.info :: s.info[k].refCount == 0
    ensures BucketsEntered(t, list, s, s, 0, [])
  {
    forall k <- s.info ensures s.info[k] == s.info[k].(refCount := Refs(s.news, k)) {
      RefsZero(s.news, k);
    }
  }

  /** The counts read back are the counts written, for new and for tried entries. */
  lemma CountsRestored(t: Tables, l: Listing, s: Tables, u: Tables, k: nat)
    requires Lists(t, l)
    requires NewPlaced(t) && RefsCounted(t, NO_ID) && NO_ID !in t.info && k < |l.All()|
    requires BucketsEntered(t, l.news, s, u, |t.news|, [])
    ensures l.All()[k] in t.info && Refs(u.news, k) == t.info[l.All()[k]].refCount
  {
    OrderAt(t, l, k);
    if k < |l.news| {
      RefsMatch(t, l.news, s, u, k);
    } else {
      RefsNone(t, l.news, s, u, k);
    }
  }

  lemma RefsMatch(t: Tables, list: seq<int>, s: Tables, u: Tables, k: nat)
    requires BucketsEntered(t, list, s, u, |t.news|, []) && k < |list|
    ensures Refs(t.news, list[k]) == Refs(u.news, k)
  {
    forall b | 0 <= b < |t.news| ensures k in u.news[b] <==> list[k] in t.news[b] {
    }
    RefsBelow(t.news, list[k], u.news, k);
    RefsBelow(u.news, k, t.news, list[k]);
  }

  lemma RefsNone(t: Tables, list: seq<int>, s: Tables, u: Tables, k: nat)
    requires BucketsEntered(t, list, s, u, |t.news|, []) && k >= |list|
    ensures Refs(u.news, k) == 0
  {
    forall b | 0 <= b < |u.news| ensures k !in u.news[b] {
    }
    RefsZero(u.news, k);
  }

  lemma InfoRestored(h: Hashes, t: Tables, l: Listing, s: Tables, u: Tables, k: nat)
    requires Lists(t, l)
    requires NewPlaced(t) && RefsCounted(t, NO_ID) && NO_ID !in t.info && Restored(h, t, l, s, u) && k < |l.All()|
    ensures l.All()[k] in t.info && k in u.info
    ensures u.info[k] == t.info[l.All()[k]].(lastTry := 0, randomPos := k)
  {
    OrderAt(t, l, k);
    CountsRestored(t, l, s, u, k);
    assert k in s.info;
  }

  lemma NewBucketRestored(t: Tables, l: Listing, s: Tables, u: Tables, b: nat, k: int)
    requires Lists(t, l)
    requires NewPlaced(t) && b < |u.news|
    requires BucketsEntered(t, l.news, s, u, |t.news|, [])
    ensures k in u.news[b] <==> 0 <= k < |l.All()| && l.All()[k] in t.news[b]
  {
    assert k in u.news[b] <==> 0 <= k < |l.news| && l.news[k] in t.news[b];
    if 0 <= k < |l.All()| {
      OrderAt(t, l, k);
      var id := l.All()[k];
      assert id in t.news[b] ==> !t.info[id].inTried;
    }
  }

  lemma TriedBucketRestored(h: Hashes, t: Tables, l: Listing, s: Tables, u: Tables, b: nat, k: int)
    requires Lists(t, l)
    requires TriedPlaced(h, t) && Restored(h, t, l, s, u) && b < |u.tried|
    ensures k in u.tried[b] <==> 0 <= k < |l.All()| && l.All()[k] in t.tried[b]
  {
    assert u.tried == s.tried;
    assert k in s.tried[b] <==>
           |l.news| <= k < |l.All()| && TriedBucket(h, t.key, t.info[l.All()[k]]) == b;
    if 0 <= k < |l.All()| {
      OrderAt(t, l, k);
    }
  }

  lemma {:induction false} RestoredIsRenumbered(h: Hashes, t: Tables, l: Listing, s: Tables, u: Tables)
    requires Lists(t, l)
    requires Consistent(h, t) && Restored(h, t, l, s, u)
    ensures Renumbered(t, l, u)
  {
    RestoredTotals(h, t, l, s, u);
    RestoredInfo(h, t, l, s, u);
    forall b, k | 0 <= b < |u.news| ensures k in u.news[b] <==> 0 <= k < |l.All()| && l.All()[k] in t.news[b] {
      NewBucketRestored(t, l, s, u, b, k);
    }
    forall b, k | 0 <= b < |u.tried| ensures k in u.tried[b] <==> 0 <= k < |l.All()| && l.All()[k] in t.tried[b] {
      TriedBucketRestored(h, t, l, s, u, b, k);
    }
  }

  lemma {:induction false} RestoredInfo(h: Hashes, t: Tables, l: Listing, s: Tables, u: Tables)
    requires Lists(t, l) && NewPlaced(t) && RefsCounted(t, NO_ID) && NO_ID !in t.info && Restored(h, t, l, s, u)
    requires forall k :: k in u.info <==> 0 <= k < |l.All()|
    ensures InfoRenumbered(t, l.All(), u)
  {
    forall k | 0 <= k < |l.All()|
      ensures l.All()[k] in t.info && k in u.info
      ensures u.info[k] == t.info[l.All()[k]].(lastTry := 0, randomPos := k)
    {
      InfoRestored(h, t, l, s, u, k);
    }
  }

  lemma RestoredTotals(h: Hashes, t: Tables, l: Listing, s: Tables, u: Tables)
    requires Lists(t, l)
    requires Tallied(t) && TriedPlaced(h, t) && Restored(h, t, l, s, u)
    ensures u.key == t.key && u.nNew == t.nNew && u.nTried == t.nTried && u.idCount == |l.All()|
    ensures |u.news| == |t.news| && |u.tried| == |t.tried|
    ensures forall k :: k in u.info <==> 0 <= k < |l.All()|
  {
    assert forall k :: k in u.info <==> k in s.info;
  }

  lemma {:induction false} RestoredIsConsistent(h: Hashes, t: Tables, l: Listing, s: Tables, u: Tables)
    requires Lists(t, l)
    requires Consistent(h, t) && Restored(h, t, l, s, u) && Renumbered(t, l, u)
    ensures Consistent(h, u)
  {
    RestoredIndexes(h, t, l, s, u);
    RestoredTried(h, t, l, s, u);
    RestoredNew(t, l, s, u);
    RestoredTallies(t, l, u);
  }

  lemma RestoredIndexes(h: Hashes, t: Tables, l: Listing, s: Tables, u: Tables)
    requires Timed(t) && Restored(h, t, l, s, u) && Renumbered(t, l, u)
    ensures AddrIndexed(u) && RandomIndexed(u) && Timed(u)
  {
  }

  lemma RestoredTried(h: Hashes, t: Tables, l: Listing, s: Tables, u: Tables)
    requires TriedPlaced(h, t) && Restored(h, t, l, s, u) && Renumbered(t, l, u)
    ensures TriedPlaced(h, u)
  {
    var order := l.All();
    forall b, k | 0 <= b < |u.tried| && k in u.tried[b]
      ensures k in u.info && u.info[k].inTried && TriedBucket(h, u.key, u.info[k]) == b
    {
      var id := order[k];
      assert id in t.tried[b];
    }
    forall k <- u.info | u.info[k].inTried ensures k in u.tried[TriedBucket(h, u.key, u.info[k])] {
      assert order[k] in t.info;
    }
  }

  lemma BucketSizeRestored(t: Tables, list: seq<int>, s: Tables, u: Tables, b: nat)
    requires NewPlaced(t) && b < |t.news| && Increasing(list) && (forall id <- t.news[b] :: id in list)
    requires BucketsEntered(t, list, s, u, |t.news|, [])
    ensures |u.news[b]| == |t.news[b]|
  {
    IndexesOfBucket(list, t.news[b]);
    var part := Indexes(list, Ascending(t.news[b]));
    forall k ensures k in part <==> k in u.news[b] {
    }
    DistinctSize(part, u.news[b]);
  }

  lemma RestoredNew(t: Tables, l: Listing, s: Tables, u: Tables)
    requires Lists(t, l)
    requires NewPlaced(t) && RefsCounted(t, NO_ID) && NO_ID !in t.info && Renumbered(t, l, u)
    requires BucketsEntered(t, l.news, s, u, |t.news|, [])
    ensures NewPlaced(u) && RefsCounted(u, NO_ID)
  {
    forall b | 0 <= b < |u.news| ensures |u.news[b]| <= NEW_BUCKET_SIZE {
      BucketSizeRestored(t, l.news, s, u, b);
    }
    forall b, k | 0 <= b < |u.news| && k in u.news[b] ensures k in u.info && !u.info[k].inTried {
      MemberRestored(t, l, u, b, k);
    }
    forall k <- u.info
      ensures u.info[k].refCount == Refs(u.news, k)
      ensures !u.info[k].inTried ==> 1 <= u.info[k].refCount <= NEW_BUCKETS_PER_ADDRESS
      ensures u.info[k].inTried ==> u.info[k].refCount == 0
    {
      CountsRestored(t, l, s, u, k);
      CountInRange(t, l, u, k);
    }
    assert NO_ID !in u.info;
  }

  lemma MemberRestored(t: Tables, l: Listing, u: Tables, b: nat, k: int)
    requires Lists(t, l)
    requires NewPlaced(t) && Renumbered(t, l, u) && b < |u.news| && k in u.news[b]
    ensures k in u.info && !u.info[k].inTried
  {
    var id := l.All()[k];
    assert id in t.news[b];
  }

  lemma CountInRange(t: Tables, l: Listing, u: Tables, k: nat)
    requires Lists(t, l)
    requires RefsCounted(t, NO_ID) && Renumbered(t, l, u) && k < |l.All()|
    ensures u.info[k].refCount == t.info[l.All()[k]].refCount
    ensures !u.info[k].inTried ==> 1 <= u.info[k].refCount <= NEW_BUCKETS_PER_ADDRESS
    ensures u.info[k].inTried ==> u.info[k].refCount == 0
  {
    OrderAt(t, l, k);
  }

  lemma RestoredTallies(t: Tables, l: Listing, u: Tables)
    requires Lists(t, l)
    requires Tallied(t) && Renumbered(t, l, u)
    ensures Tallied(u)
  {
    forall k ensures k in NewIds(u) <==> 0 <= k < |l.news| {
      if 0 <= k < |l.All()| {
        OrderAt(t, l, k);
      }
    }
    forall k ensures k in TriedIds(u) <==> |l.news| <= k < |l.All()| {
      if 0 <= k < |l.All()| {
        OrderAt(t, l, k);
      }
    }
    IntervalSize(NewIds(u), 0, |l.news|);
    IntervalSize(TriedIds(u), |l.news|, |l.All()|);
  }

  /**
  Writing a consistent address manager and reading it back loses no entry and renumbers the ids:
  the tables read are consistent again and agree with those written in everything but last tries.
  */
  lemma {:induction false} ReadInvertsEncode(h: Hashes, t: Tables)
    requires Consistent(h, t)
    ensures Renumbered(t, ListingOf(t), Read(h, Encode(t)))
    ensures Consistent(h, Read(h, Encode(t)))
  {
    ReadInvertsImage(h, t, ListingOf(t));
  }

  lemma {:induction false} ReadInvertsImage(h: Hashes, t: Tables, l: Listing)
    requires Consistent(h, t) && Lists(t, l)
    ensures Listed(t, l) && Renumbered(t, l, Read(h, Image(t, l))) && Consistent(h, Read(h, Image(t, l)))
  {
    ReadRestores(h, t, l);
    RestoredIsRenumbered(h, t, l, ReadTried(h, Image(t, l)), Read(h, Image(t, l)));
    RestoredIsConsistent(h, t, l, ReadTried(h, Image(t, l)), Read(h, Image(t, l)));
  }

  // ---------------------------------------------------------------- the loops that write and read

  /** Which entries a writing pass keeps: those with references, or those in the tried table. */
  predicate Kept(i: Info, tried: bool) { if tried then i.inTried else i.refCount != 0 }

  ghost predicate Walked(t: Tables, tried: bool, rest: set<int>, done: seq<int>) {
    && Increasing(done)
    && (forall id :: id in done <==> id in t.info && id !in rest && Kept(t.info[id], tried))
  }

  /** One pass over the entries in ascending order of id, numbering the ones it keeps. */
  method WriteEntries(t: Tables, tried: bool, limit: int)
    returns (records: seq<Record>, numbers: map<int, int>, ghost done: seq<int>)
    ensures forall k :: 0 <= k < |done| ==> done[k] in t.info
    ensures records == Records(t.info, done)
    ensures forall k :: 0 <= k < |done| ==> done[k] in numbers && numbers[done[k]] == k
    ensures limit == |set id | id in t.info && Kept(t.info[id], tried)| ==> Walked(t, tried, {}, done)
  {
    records, numbers, done := [], map[], [];
    var rest := t.info.Keys;
    while rest != {}
      invariant rest <= t.info.Keys && |records| == |done|
      invariant Walked(t, tried, rest, done)
      invariant forall k :: 0 <= k < |done| ==> done[k] in t.info && records[k] == Saved(t.info[done[k]])
      invariant forall k :: 0 <= k < |done| ==> done[k] in numbers && numbers[done[k]] == k
      invariant forall id, x :: id in t.info && id !in rest && x in rest ==> id < x
      decreases |rest|
    {
      if |records| == limit {
        StoppedEarly(t, tried, rest, done);
        break;
      }
      var id := Least(rest);
      numbers := numbers[id := |records|];
      if Kept(t.info[id], tried) {
        forall k | 0 <= k < |done| ensures done[k] < id {
          assert done[k] in done;
        }
        records := records + [Saved(t.info[id])];
        done := done + [id];
      }
      rest := rest - {id};
    }
  }

  /** Stopping at the announced number of entries stops when all of them are written. */
  lemma StoppedEarly(t: Tables, tried: bool, rest: set<int>, done: seq<int>)
    requires Walked(t, tried, rest, done)
    ensures |done| == |set id | id in t.info && Kept(t.info[id], tried)| ==> Walked(t, tried, {}, done)
  {
    var kept := set id | id in t.info && Kept(t.info[id], tried);
    var seen := set id | id in t.info && Kept(t.info[id], tried) && id !in rest;
    DistinctSize(done, seen);
    if |done| == |kept| {
      assert seen <= kept && |kept - seen| == |kept| - |seen|;
      assert kept == seen;
      forall id ensures id in done <==> id in t.info && id !in {} && Kept(t.info[id], tried) {
        assert id in kept <==> id in seen;
      }
    }
  }

  function NumberOf(numbers: map<int, int>, id: int): int { if id in numbers then numbers[id] else 0 }

  function Numbered(numbers: map<int, int>, ids: seq<int>): seq<int> {
    seq(|ids|, k requires 0 <= k < |ids| => NumberOf(numbers, ids[k]))
  }

  method WriteBucket(ids: seq<int>, numbers: map<int, int>) returns (indexes: seq<int>)
    ensures indexes == Numbered(numbers, ids)
  {
    indexes := [];
    var n := 0;
    while n < |ids|
      invariant 0 <= n <= |ids| && indexes == Numbered(numbers, ids[..n])
    {
      indexes := indexes + [NumberOf(numbers, ids[n])];
      n := n + 1;
    }
    assert ids[..n] == ids;
  }

  function BucketsNumbered(numbers: map<int, int>, news: seq<set<int>>): (r: seq<seq<int>>)
    ensures |r| == |news|
  {
    seq(|news|, b requires 0 <= b < |news| => Numbered(numbers, Ascending(news[b])))
  }

  method WriteBuckets(news: seq<set<int>>, numbers: map<int, int>) returns (buckets: seq<seq<int>>)
    ensures buckets == BucketsNumbered(numbers, news)
  {
    buckets := [];
    var b := 0;
    while b < |news|
      invariant 0 <= b <= |news| && buckets == BucketsNumbered(numbers, news[..b])
    {
      var indexes := WriteBucket(Ascending(news[b]), numbers);
      buckets := buckets + [indexes];
      b := b + 1;
    }
    assert news[..b] == news;
  }

  /** Writes the image; for consistent tables it is `Encode`. */
  method Write(h: Hashes, t: Tables) returns (d: Disk)
    ensures Consistent(h, t) ==> d == Encode(t)
  {
    var news, numbers, done := WriteEntries(t, false, t.nNew);
    var tried, unused, doneTried := WriteEntries(t, true, t.nTried);
    var buckets := WriteBuckets(t.news, numbers);
    d := Disk(t.key, news, tried, buckets);
    WroteEncoding(h, t, Listing(done, doneTried), numbers, d);
  }

  lemma {:induction false} WroteEncoding(h: Hashes, t: Tables, l: Listing, numbers: map<int, int>, d: Disk)
    requires forall k :: 0 <= k < |l.news| ==> l.news[k] in t.info
    requires forall k :: 0 <= k < |l.tried| ==> l.tried[k] in t.info
    requires d == Disk(t.key, Records(t.info, l.news), Records(t.info, l.tried), BucketsNumbered(numbers, t.news))
    requires forall k :: 0 <= k < |l.news| ==> l.news[k] in numbers && numbers[l.news[k]] == k
    requires t.nNew == |set id | id in t.info && Kept(t.info[id], false)| ==> Walked(t, false, {}, l.news)
    requires t.nTried == |set id | id in t.info && Kept(t.info[id], true)| ==> Walked(t, true, {}, l.tried)
    ensures Consistent(h, t) ==> d == Encode(t)
  {
    if NewPlaced(t) && Tallied(t) && RefsCounted(t, NO_ID) {
      WroteAll(t, l.news, l.tried);
      WroteListed(t, l);
      WroteImage(t, l, numbers, d);
    }
  }

  lemma WroteListed(t: Tables, l: Listing)
    requires NewPlaced(t) && l == ListingOf(t)
    ensures Listed(t, l)
  {
    forall b, id | 0 <= b < |t.news| && id in t.news[b] ensures id in l.news {
      assert id in NewIds(t);
    }
    forall k | 0 <= k < |l.news| ensures l.news[k] in t.info {
      var id := l.news[k];
      assert id in l.news;
      assert id in NewIds(t);
    }
    forall k | 0 <= k < |l.tried| ensures l.tried[k] in t.info {
      var id := l.tried[k];
      assert id in l.tried;
      assert id in TriedIds(t);
    }
  }

  lemma WroteImage(t: Tables, l: Listing, numbers: map<int, int>, d: Disk)
    requires Listed(t, l)
    requires d == Disk(t.key, Records(t.info, l.news), Records(t.info, l.tried), BucketsNumbered(numbers, t.news))
    requires forall k :: 0 <= k < |l.news| ==> l.news[k] in numbers && numbers[l.news[k]] == k
    ensures d == Image(t, l)
  {
    WroteBuckets(l.news, numbers, t.news);
  }

  lemma {:induction false} WroteAll(t: Tables, done: seq<int>, doneTried: seq<int>)
    requires Tallied(t) && RefsCounted(t, NO_ID)
    requires t.nNew == |set id | id in t.info && Kept(t.info[id], false)| ==> Walked(t, false, {}, done)
    requires t.nTried == |set id | id in t.info && Kept(t.info[id], true)| ==> Walked(t, true, {}, doneTried)
    ensures ListingOf(t) == Listing(done, doneTried)
  {
    forall id ensures id in t.info && Kept(t.info[id], false) <==> id in NewIds(t) {
    }
    assert (set id | id in t.info && Kept(t.info[id], false)) == NewIds(t);
    assert (set id | id in t.info && Kept(t.info[id], true)) == TriedIds(t);
    AscendingUnique(NewIds(t), done);
    AscendingUnique(TriedIds(t), doneTried);
  }

  lemma WroteBuckets(list: seq<int>, numbers: map<int, int>, news: seq<set<int>>)
    requires forall b, id :: 0 <= b < |news| && id in news[b] ==> id in list
    requires forall k :: 0 <= k < |list| ==> list[k] in numbers && numbers[list[k]] == k
    ensures BucketsNumbered(numbers, news) == Buckets(list, news)
  {
    forall b | 0 <= b < |news| ensures BucketsNumbered(numbers, news)[b] == Buckets(list, news)[b] {
      WroteBucket(list, numbers, Ascending(news[b]));
    }
  }

  lemma WroteBucket(list: seq<int>, numbers: map<int, int>, ids: seq<int>)
    requires forall k :: 0 <= k < |list| ==> list[k] in numbers && numbers[list[k]] == k
    requires forall id <- ids :: id in list
    ensures Numbered(numbers, ids) == Indexes(list, ids)
  {
    forall k | 0 <= k < |ids| ensures NumberOf(numbers, ids[k]) == Indexes(list, ids)[k] {
      assert ids[k] in ids;
      assert numbers[list[IndexOf(list, ids[k])]] == IndexOf(list, ids[k]);
    }
  }

  method ReadNewRecords(h: Hashes, t0: Tables, rs: seq<Record>, rebucket: bool) returns (t: Tables)
    requires |t0.news| == NEW_BUCKET_COUNT
    ensures t == LoadNew(h, t0, rs, rebucket)
  {
    t := t0;
    var n := 0;
    while n < |rs|
      invariant 0 <= n <= |rs| && t == LoadNew(h, t0, rs[..n], rebucket)
    {
      assert rs[..n + 1][..n] == rs[..n];
      t := AddNew(h, t, rs[n], n, rebucket);
      n := n + 1;
    }
    assert rs[..n] == rs;
  }

  method ReadTriedRecords(h: Hashes, t0: Tables, rs: seq<Record>) returns (t: Tables)
    requires |t0.tried| == TRIED_BUCKET_COUNT
    ensures t == LoadTried(h, t0, rs)
  {
    t := t0;
    var n := 0;
    while n < |rs|
      invariant 0 <= n <= |rs| && t == LoadTried(h, t0, rs[..n])
    {
      assert rs[..n + 1][..n] == rs[..n];
      t := AddTried(h, t, rs[n]);
      n := n + 1;
    }
    assert rs[..n] == rs;
  }

  method ReadBucket(t0: Tables, b: nat, indexes: seq<int>, sameCount: bool) returns (t: Tables)
    requires sameCount ==> b < |t0.news|
    ensures t == LoadBucket(t0, b, indexes, sameCount)
  {
    t := t0;
    var n := 0;
    while n < |indexes|
      invariant 0 <= n <= |indexes| && t == LoadBucket(t0, b, indexes[..n], sameCount)
    {
      assert indexes[..n + 1][..n] == indexes[..n];
      t := AddIndex(t, b, indexes[n], sameCount);
      n := n + 1;
    }
    assert indexes[..n] == indexes;
  }

  /** Rebuilds the tables from any image, as the reading loops do. */
  method ReadTables(h: Hashes, d: Disk) returns (t: Tables)
    ensures t == Read(h, d)
  {
    var sameCount := |d.buckets| == NEW_BUCKET_COUNT;
    t := ReadNewRecords(h, Blank(d), d.news, !sameCount);
    t := t.(idCount := |d.news|);
    t := ReadTriedRecords(h, t, d.tried);
    ghost var t0 := t;
    var b := 0;
    while b < |d.buckets|
      invariant 0 <= b <= |d.buckets| && t == LoadBuckets(t0, d.buckets[..b], sameCount)
    {
      assert d.buckets[..b + 1][..b] == d.buckets[..b];
      t := ReadBucket(t, b, d.buckets[b], sameCount);
      b := b + 1;
    }
    assert d.buckets[..b] == d.buckets;
  }
}
