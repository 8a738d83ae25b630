/**
Reading an image that was written with another number of new buckets: the bucket lists are passed over,
and every new entry goes to the one bucket that its source selects, with one reference.
*/
module AddrRebucket {
  import opened AddrTables
  import opened AddrDisk
  import opened IntSets

  /** The new bucket that a record selects. */
  function Chosen(h: Hashes, key: Key, r: Record): nat { NewBucket(h, key, Loaded(r, 0), r.source) }

  /** The numbers of the records that select a bucket. */
  function Share(h: Hashes, key: Key, rs: seq<Record>, b: nat): (s: set<int>)
    ensures forall k :: k in s <==> 0 <= k < |rs| && Chosen(h, key, rs[k]) == b
  {
    set k | 0 <= k < |rs| && Chosen(h, key, rs[k]) == b
  }

  /** What `t` is written as, but for the bucket lists, of which there are too many or too few. */
  predicate OtherCount(t: Tables, d: Disk)
    requires NewPlaced(t)
  {
    d == Encode(t).(buckets := d.buckets) && !SameCount(d)
  }

  /** Every index in the bucket lists belongs to an entry. */
  predicate IndexesKnown(d: Disk) {
    forall b, j :: 0 <= b < |d.buckets| && 0 <= j < |d.buckets[b]| ==> 0 <= d.buckets[b][j] < |d.news| + |d.tried|
  }

  /** No bucket is selected by more records than it may hold. */
  predicate SharesFit(h: Hashes, d: Disk) {
    forall b :: 0 <= b < NEW_BUCKET_COUNT ==> |Share(h, d.key, d.news, b)| <= NEW_BUCKET_SIZE
  }

  // ---------------------------------------------------------------- the new entries

  /** `u` is `v`, except that the numbers below `n` have one reference and the buckets are those of `u`. */
  ghost predicate Counted(v: Tables, u: Tables, n: nat) {
    && u == v.(info := u.info, news := u.news)
    && u.info.Keys == v.info.Keys
    && (forall k <- v.info :: u.info[k] == if k < n then v.info[k].(refCount := 1) else v.info[k])
  }

  ghost predicate Shared(h: Hashes, key: Key, rs: seq<Record>, news: seq<set<int>>) {
    && |news| == NEW_BUCKET_COUNT
    && forall b :: 0 <= b < |news| ==> news[b] == Share(h, key, rs, b)
  }

  lemma {:induction false} LoadNewCounted(h: Hashes, t: Tables, rs: seq<Record>)
    requires t.info == map[] && t.news == seq(NEW_BUCKET_COUNT, _ => {})
    ensures Counted(LoadNew(h, t, rs, false), LoadNew(h, t, rs, true), |rs|)
    ensures Shared(h, t.key, rs, LoadNew(h, t, rs, true).news) && LoadNew(h, t, rs, true).key == t.key
    ensures forall k :: k in LoadNew(h, t, rs, false).info <==> 0 <= k < |rs|
  {
    if rs != [] {
      var n := |rs| - 1;
      LoadNewCounted(h, t, rs[..n]);
      AddNewCounted(LoadNew(h, t, rs[..n], false), LoadNew(h, t, rs[..n], true), h, rs[n], n);
      SharesGrow(h, t.key, rs, LoadNew(h, t, rs[..n], true).news);
    }
  }

  lemma AddNewCounted(v: Tables, u: Tables, h: Hashes, r: Record, n: nat)
    requires Counted(v, u, n) && |u.news| == NEW_BUCKET_COUNT == |v.news|
    requires forall k :: k in v.info <==> 0 <= k < n
    ensures Counted(AddNew(h, v, r, n, false), AddNew(h, u, r, n, true), n + 1)
    ensures
      var b := Chosen(h, u.key, r);
      AddNew(h, u, r, n, true).news == u.news[b := u.news[b] + {n}]
  {
  }

  lemma SharesGrow(h: Hashes, key: Key, rs: seq<Record>, news: seq<set<int>>)
    requires rs != [] && Shared(h, key, rs[..|rs| - 1], news)
    ensures
      var b := Chosen(h, key, rs[|rs| - 1]);
      Shared(h, key, rs, news[b := news[b] + {|rs| - 1}])
  {
    var n := |rs| - 1;
    var b := Chosen(h, key, rs[n]);
    var more := news[b := news[b] + {n}];
    forall c | 0 <= c < |more| ensures more[c] == Share(h, key, rs, c) {
      forall k ensures k in more[c] <==> k in Share(h, key, rs, c) {
        assert k in news[c] <==> k in Share(h, key, rs[..n], c);
      }
    }
  }

  // ---------------------------------------------------------------- the tried entries and the lists

  lemma AddTriedCounted(v: Tables, u: Tables, h: Hashes, r: Record, n: nat)
    requires Counted(v, u, n) && |v.tried| == TRIED_BUCKET_COUNT && n <= v.idCount
    ensures Counted(AddTried(h, v, r), AddTried(h, u, r), n) && AddTried(h, u, r).news == u.news
    ensures n <= AddTried(h, v, r).idCount
  {
  }

  lemma {:induction false} LoadTriedCounted(v: Tables, u: Tables, h: Hashes, rs: seq<Record>, n: nat)
    requires Counted(v, u, n) && |v.tried| == TRIED_BUCKET_COUNT && n <= v.idCount
    ensures Counted(LoadTried(h, v, rs), LoadTried(h, u, rs), n) && LoadTried(h, u, rs).news == u.news
    ensures n <= LoadTried(h, v, rs).idCount
  {
    if rs != [] {
      var m := |rs| - 1;
      LoadTriedCounted(v, u, h, rs[..m], n);
      AddTriedCounted(LoadTried(h, v, rs[..m]), LoadTried(h, u, rs[..m]), h, rs[m], n);
    }
  }

  /** The lists add a blank entry for every index that belongs to none, and nothing else. */
  predicate Listless(u: Tables, r: Tables) {
    && r == u.(info := r.info) && u.info.Keys <= r.info.Keys
    && (forall k <- r.info :: r.info[k] == if k in u.info then u.info[k] else BLANK)
  }

  predicate Within(list: seq<int>, ids: set<int>) { forall j :: 0 <= j < |list| ==> list[j] in ids }

  lemma {:induction false} ListPassed(u: Tables, r: Tables, b: nat, list: seq<int>)
    requires Listless(u, r)
    ensures Listless(u, LoadBucket(r, b, list, false))
    ensures LoadBucket(r, b, list, false) == r <==> Within(list, r.info.Keys)
    ensures r.info.Keys <= LoadBucket(r, b, list, false).info.Keys
  {
    if list != [] {
      var front, x := list[..|list| - 1], list[|list| - 1];
      ListPassed(u, r, b, front);
      var s := LoadBucket(r, b, front, false);
      IndexPassed(u, s, b, x);
      assert Within(list, r.info.Keys) <==> Within(front, r.info.Keys) && x in r.info.Keys;
    }
  }

  lemma IndexPassed(u: Tables, s: Tables, b: nat, x: int)
    requires Listless(u, s)
    ensures Listless(u, AddIndex(s, b, x, false)) && AddIndex(s, b, x, false).info.Keys == s.info.Keys + {x}
    ensures AddIndex(s, b, x, false) == s <==> x in s.info
  {
    var a := AddIndex(s, b, x, false);
    if x in s.info {
      assert a.info == s.info;
    } else {
      assert x in a.info;
    }
  }

  lemma NothingAdded(u: Tables, r: Tables)
    requires Listless(u, r)
    ensures r.info.Keys <= u.info.Keys ==> r == u
  {
    if r.info.Keys <= u.info.Keys {
      forall k | k in r.info ensures k in u.info && r.info[k] == u.info[k] {
        assert k in r.info.Keys;
        assert k in u.info.Keys;
      }
      assert forall k :: k in u.info ==> k in u.info.Keys && k in r.info.Keys;
      assert r.info == u.info;
    }
  }

  lemma {:induction false} ListsPassed(u: Tables, lists: seq<seq<int>>)
    ensures Listless(u, LoadBuckets(u, lists, false))
    ensures LoadBuckets(u, lists, false) == u <==> forall b :: 0 <= b < |lists| ==> Within(lists[b], u.info.Keys)
  {
    if lists != [] {
      var n := |lists| - 1;
      ListsPassed(u, lists[..n]);
      var r := LoadBuckets(u, lists[..n], false);
      ListPassed(u, r, n, lists[n]);
      assert forall b :: 0 <= b < n ==> lists[..n][b] == lists[b];
      if LoadBucket(r, n, lists[n], false) == u {
        NothingAdded(u, r);
      }
    }
  }

  // ---------------------------------------------------------------- what is read

  /** The tables that the entries alone make: every new entry in its one bucket, every tried entry in its own. */
  ghost predicate Rebuilt(h: Hashes, t: Tables, d: Disk, w: Tables, u: Tables) {
    && u == w.(info := u.info, news := u.news)
    && u.info.Keys == w.info.Keys
    && (forall k <- w.info :: u.info[k] == w.info[k].(refCount := if k < |d.news| then 1 else 0))
    && Shared(h, t.key, d.news, u.news)
  }

  /** Against the same tables read from an image with the present number of new buckets. */
  lemma {:induction false} ReadEntries(h: Hashes, t: Tables, d: Disk)
    requires Consistent(h, t) && OtherCount(t, d)
    ensures Rebuilt(h, t, d, Read(h, Encode(t)), ReadTried(h, d))
    ensures Renumbered(t, ListingOf(t), Read(h, Encode(t))) && Consistent(h, Read(h, Encode(t)))
    ensures |d.news| == |ListingOf(t).news| && |d.tried| == |ListingOf(t).tried|
  {
    var l, e := ListingOf(t), Encode(t);
    ReadInvertsEncode(h, t);
    ReadRestores(h, t, l);
    var s, w := ReadTried(h, e), Read(h, e);
    ReadTriedCounted(h, d, e);
    WithoutCounts(h, t, l, s, w);
    RebuiltFrom(h, t, d, s, w, ReadTried(h, d));
  }

  lemma ReadTriedCounted(h: Hashes, d: Disk, e: Disk)
    requires d == e.(buckets := d.buckets) && SameCount(e) && !SameCount(d)
    ensures Counted(ReadTried(h, e), ReadTried(h, d), |d.news|) && Shared(h, d.key, d.news, ReadTried(h, d).news)
  {
    LoadNewCounted(h, Blank(e), e.news);
    LoadTriedCounted(ReadNew(h, e), ReadNew(h, d), h, d.tried, |d.news|);
  }

  /** Reading the bucket lists changes nothing but the counts and the new buckets. */
  predicate SameButCounts(s: Tables, w: Tables) {
    && w == s.(info := w.info, news := w.news) && w.info.Keys == s.info.Keys
    && (forall k <- s.info :: s.info[k] == w.info[k].(refCount := 0))
  }

  lemma WithoutCounts(h: Hashes, t: Tables, l: Listing, s: Tables, w: Tables)
    requires Restored(h, t, l, s, w)
    ensures SameButCounts(s, w)
  {
  }

  lemma RebuiltFrom(h: Hashes, t: Tables, d: Disk, s: Tables, w: Tables, u: Tables)
    requires SameButCounts(s, w) && Counted(s, u, |d.news|) && Shared(h, t.key, d.news, u.news)
    ensures Rebuilt(h, t, d, w, u)
  {
  }

  // ---------------------------------------------------------------- when it is consistent

  lemma {:induction false} RefsOfShares(h: Hashes, key: Key, rs: seq<Record>, news: seq<set<int>>, k: int)
    requires Shared(h, key, rs, news)
    ensures Refs(news, k) == if 0 <= k < |rs| then 1 else 0
  {
    if 0 <= k < |rs| {
      var b := Chosen(h, key, rs[k]);
      RefsUpdate(news, b, {}, k);
      RefsZero(news[b := {}], k);
      assert k in news[b];
    } else {
      RefsZero(news, k);
    }
  }

  /** With each new entry in one bucket the tables are consistent if and only if no bucket is over its size. */
  lemma {:induction false} RebuiltIsConsistent(h: Hashes, t: Tables, d: Disk, w: Tables, u: Tables)
    requires Consistent(h, w) && Rebuilt(h, t, d, w, u) && d.key == t.key
    requires forall k <- w.info :: k >= 0 && (w.info[k].inTried <==> k >= |d.news|)
    requires forall k :: 0 <= k < |d.news| ==> k in w.info
    ensures Consistent(h, u) <==> SharesFit(h, d)
  {
    RebuiltSame(h, t, d, w, u);
    AddrFrame(w, u);
    RandomFrame(w, u);
    TriedFrame(h, w, u);
    TallyFrame(w, u);
    RebuiltCounts(h, t, d, w, u);
    RebuiltTimes(h, t, d, w, u);
    RebuiltPlaces(h, t, d, w, u);
  }

  lemma RebuiltSame(h: Hashes, t: Tables, d: Disk, w: Tables, u: Tables)
    requires Rebuilt(h, t, d, w, u)
    ensures SameServices(w.info, u.info) && SamePositions(w.info, u.info) && SameFlags(w.info, u.info)
  {
  }

  lemma RebuiltTimes(h: Hashes, t: Tables, d: Disk, w: Tables, u: Tables)
    requires Timed(w) && Rebuilt(h, t, d, w, u)
    ensures Timed(u)
  {
  }

  lemma RebuiltCounts(h: Hashes, t: Tables, d: Disk, w: Tables, u: Tables)
    requires Rebuilt(h, t, d, w, u) && forall k <- w.info :: k >= 0 && (w.info[k].inTried <==> k >= |d.news|)
    ensures RefsCounted(u, NO_ID)
  {
    forall k <- u.info
      ensures u.info[k].refCount == Refs(u.news, k) + (if k == NO_ID then 1 else 0)
      ensures !u.info[k].inTried ==> 1 <= u.info[k].refCount <= NEW_BUCKETS_PER_ADDRESS
      ensures u.info[k].inTried ==> u.info[k].refCount == 0
    {
      RefsOfShares(h, t.key, d.news, u.news, k);
      assert k in w.info;
    }
  }

  lemma RebuiltPlaces(h: Hashes, t: Tables, d: Disk, w: Tables, u: Tables)
    requires Rebuilt(h, t, d, w, u) && d.key == t.key
    requires forall k <- w.info :: k >= 0 && (w.info[k].inTried <==> k >= |d.news|)
    requires forall k :: 0 <= k < |d.news| ==> k in w.info
    ensures NewPlaced(u) <==> SharesFit(h, d)
  {
    forall b, k | 0 <= b < |u.news| && k in u.news[b] ensures k in u.info && !u.info[k].inTried {
      assert k in Share(h, t.key, d.news, b);
      assert k in w.info;
    }
    assert forall b :: 0 <= b < |u.news| ==> u.news[b] == Share(h, d.key, d.news, b);
  }

  /** An entry that is in no place of the random order is not consistent. */
  lemma BlankIsInconsistent(h: Hashes, u: Tables, k: int)
    requires k in u.info && u.info[k] == BLANK
    ensures !Consistent(h, u)
  {
    assert u.info[k].randomPos == -1;
  }

  /**
  Consistent tables, written with another number of new buckets: what is read back is consistent if and only
  if every index in the bucket lists belongs to an entry and no bucket is selected by more than 64 entries.
  */
  lemma {:induction false} RebucketedIsConsistent(h: Hashes, t: Tables, d: Disk)
    requires Consistent(h, t) && OtherCount(t, d)
    ensures Consistent(h, Read(h, d)) <==> IndexesKnown(d) && SharesFit(h, d)
  {
    var u, w := ReadTried(h, d), Read(h, Encode(t));
    ReadEntries(h, t, d);
    EntryKeys(t, d, w);
    RebuiltIsConsistent(h, t, d, w, u);
    ListsChecked(h, d, u, Read(h, d));
  }

  /** The bucket lists either change nothing or spoil the tables. */
  lemma ListsChecked(h: Hashes, d: Disk, u: Tables, r: Tables)
    requires forall k :: k in u.info <==> 0 <= k < |d.news| + |d.tried|
    requires r == LoadBuckets(u, d.buckets, false)
    ensures if IndexesKnown(d) then r == u else !Consistent(h, r)
  {
    ListsPassed(u, d.buckets);
    KeysKnown(d, u);
    if !IndexesKnown(d) {
      var k := StrayKey(u, r);
      BlankIsInconsistent(h, r, k);
    }
  }

  /** Nothing is lost: every entry comes back under its place in the writing order, the new ones with one
      reference, whatever the bucket lists say. */
  lemma {:induction false} NothingLost(h: Hashes, t: Tables, d: Disk, k: nat)
    requires Consistent(h, t) && OtherCount(t, d) && k < |ListingOf(t).All()|
    ensures
      var order, u := ListingOf(t).All(), Read(h, d);
      && order[k] in t.info && k in u.info
      && u.info[k] == t.info[order[k]].(lastTry := 0, randomPos := k, refCount := if k < |d.news| then 1 else 0)
  {
    ReadEntries(h, t, d);
    ListsPassed(ReadTried(h, d), d.buckets);
  }

  lemma EntryKeys(t: Tables, d: Disk, w: Tables)
    requires Renumbered(t, ListingOf(t), w)
    requires |d.news| == |ListingOf(t).news| && |d.tried| == |ListingOf(t).tried|
    ensures forall k :: k in w.info <==> 0 <= k < |d.news| + |d.tried|
    ensures forall k <- w.info :: w.info[k].inTried <==> k >= |d.news|
  {
    forall k <- w.info ensures w.info[k].inTried <==> k >= |d.news| {
      OrderAt(t, ListingOf(t), k);
    }
  }

  lemma KeysKnown(d: Disk, u: Tables)
    requires forall k :: k in u.info <==> 0 <= k < |d.news| + |d.tried|
    ensures IndexesKnown(d) <==> forall b :: 0 <= b < |d.buckets| ==> Within(d.buckets[b], u.info.Keys)
  {
    if forall b :: 0 <= b < |d.buckets| ==> Within(d.buckets[b], u.info.Keys) {
      forall b, j | 0 <= b < |d.buckets| && 0 <= j < |d.buckets[b]|
        ensures 0 <= d.buckets[b][j] < |d.news| + |d.tried|
      {
        assert Within(d.buckets[b], u.info.Keys);
        var x := d.buckets[b][j];
        assert x in u.info.Keys;
      }
    }
  }

  /** If the lists changed anything they added a blank entry. */
  lemma StrayKey(u: Tables, r: Tables) returns (k: int)
    requires Listless(u, r) && r != u
    ensures k in r.info && r.info[k] == BLANK
  {
    NothingAdded(u, r);
    var extra := r.info.Keys - u.info.Keys;
    assert forall x :: x in r.info.Keys && x !in u.info.Keys ==> x in extra;
    k := Member(extra);
  }

  // ---------------------------------------------------------------- an image that overfills a bucket

  const MANY: int := NEW_BUCKET_SIZE + 1

  function Entry(id: nat): Info { Info(Service(id, 0), {}, 1, 0, 0, 0, 0, 1, false, id) }

  function IdOf(a: NetAddr): int { a }

  function Crowd(): map<int, Info> { map id: int | 0 <= id < MANY :: Entry(id) }

  function TwoBuckets(): (news: seq<set<int>>)
    ensures |news| == NEW_BUCKET_COUNT
  {
    seq(NEW_BUCKET_COUNT, b => if b == 0 then Crowd().Keys - {MANY - 1} else if b == 1 then {MANY - 1} else {})
  }

  /** One entry more than a bucket holds, in two buckets. */
  function Crowded(key: Key): Tables {
    Tables(key, MANY, Crowd(), map a: nat | 0 <= a < MANY :: IdOf(a), seq(MANY, p => p), 0, seq(TRIED_BUCKET_COUNT, _ => []),
           MANY, TwoBuckets())
  }

  lemma CrowdedBuckets(key: Key)
    ensures NewPlaced(Crowded(key))
  {
    var t := Crowded(key);
    IntervalSize(t.news[0], 0, MANY - 1);
    forall b | 0 <= b < |t.news| ensures |t.news[b]| <= NEW_BUCKET_SIZE {
      if b > 1 { assert t.news[b] == {}; }
    }
  }

  lemma CrowdedRefs(key: Key, id: int)
    requires 0 <= id < MANY
    ensures Refs(Crowded(key).news, id) == 1
  {
    var news := Crowded(key).news;
    var b := if id < MANY - 1 then 0 else 1;
    RefsUpdate(news, b, {}, id);
    RefsZero(news[b := {}], id);
    assert id in news[b];
  }

  lemma {:induction false} CrowdedIsConsistent(h: Hashes, key: Key)
    ensures Consistent(h, Crowded(key))
  {
    var t := Crowded(key);
    CrowdedBuckets(key);
    CrowdedIndexes(key);
    CrowdedTallies(key);
    CrowdedCounts(key);
    assert TriedPlaced(h, t) && Timed(t);
  }

  lemma CrowdedIndexes(key: Key)
    ensures AddrIndexed(Crowded(key)) && RandomIndexed(Crowded(key))
  {
  }

  lemma CrowdedTallies(key: Key)
    ensures Tallied(Crowded(key))
  {
    var t := Crowded(key);
    assert TriedIds(t) == {};
    IntervalSize(NewIds(t), 0, MANY);
  }

  lemma CrowdedCounts(key: Key)
    ensures RefsCounted(Crowded(key), NO_ID)
  {
    var t := Crowded(key);
    forall id <- t.info ensures t.info[id].refCount == Refs(t.news, id) + (if id == NO_ID then 1 else 0) {
      CrowdedRefs(key, id);
    }
  }

  /** With hashes that send every entry to one bucket, these consistent tables are read back inconsistent. */
  lemma {:induction false} CrowdedOverfills(h: Hashes, key: Key) returns (d: Disk)
    requires h.news == ((k: Key, a: NetAddr, s: NetAddr) => 0)
    ensures Consistent(h, Crowded(key)) && OtherCount(Crowded(key), d) && IndexesKnown(d)
    ensures !Consistent(h, Read(h, d))
  {
    var t := Crowded(key);
    CrowdedIsConsistent(h, key);
    d := Encode(t).(buckets := []);
    RebucketedIsConsistent(h, t, d);
    CrowdedTallies(key);
    AllInOne(h, t, d);
  }

  lemma AllInOne(h: Hashes, t: Tables, d: Disk)
    requires h.news == ((k: Key, a: NetAddr, s: NetAddr) => 0) && |d.news| > NEW_BUCKET_SIZE
    ensures !SharesFit(h, d)
  {
    IntervalSize(Share(h, d.key, d.news, 0), 0, |d.news|);
  }
}
