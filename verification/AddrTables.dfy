/**
The address manager's tables as values, and each table operation as a function on them.

Five redundant structures have to agree: `info` (id to entry), `byAddr` (address to id),
`random` (all ids in random order, with a back pointer in each entry), `news` (256 "new"
buckets, reference counted) and `tried` (64 "tried" buckets).  `Inv` is that agreement; it
takes the id whose reference has been counted but not yet placed in a bucket, because the
count is raised before a full bucket is shrunk.

Hashes are arbitrary functions, reduced modulo the bucket count.
*/
module AddrTables {
  import opened IntSets

  const TRIED_BUCKET_COUNT := 64
  const TRIED_BUCKET_SIZE := 64
  const NEW_BUCKET_COUNT := 256
  const NEW_BUCKET_SIZE := 64
  const NEW_BUCKETS_PER_ADDRESS := 4

  /** No id is ever negative, so this stands for "no id". */
  const NO_ID := -1

  type Key = seq<bv8>
  type NetAddr = nat

  datatype Service = Service(ip: NetAddr, port: nat)

  // Service flags are the set of their bit numbers.
  datatype Address = Address(service: Service, services: set<nat>, time: nat)

  datatype Info = Info(
    service: Service, services: set<nat>, time: nat, lastTry: int, source: NetAddr,
    lastSuccess: int, attempts: int, refCount: int, inTried: bool, randomPos: int)

  /** The keyed hashes that place an address in a bucket. */
  datatype Hashes = Hashes(tried: (Key, Service) -> nat, news: (Key, NetAddr, NetAddr) -> nat)

  datatype Tables = Tables(
    key: Key, idCount: int, info: map<int, Info>, byAddr: map<NetAddr, int>, random: seq<int>,
    nTried: int, tried: seq<seq<int>>, nNew: int, news: seq<set<int>>)

  function TriedBucket(h: Hashes, key: Key, i: Info): (b: nat)
    ensures b < TRIED_BUCKET_COUNT
  {
    h.tried(key, i.service) % TRIED_BUCKET_COUNT
  }

  function NewBucket(h: Hashes, key: Key, i: Info, source: NetAddr): (b: nat)
    ensures b < NEW_BUCKET_COUNT
  {
    h.news(key, i.service.ip, source) % NEW_BUCKET_COUNT
  }

  /** Truncation to the 32-bit unsigned `nTime` field. */
  function U32(x: int): nat { x % 0x1_0000_0000 }

  // ---------------------------------------------------------------- the invariant

  /** In how many buckets an id occurs. */
  function Refs(buckets: seq<set<int>>, id: int): nat
  {
    if buckets == [] then 0
    else Refs(buckets[..|buckets| - 1], id) + (if id in buckets[|buckets| - 1] then 1 else 0)
  }

  predicate AddrIndexed(t: Tables) {
    && (forall id <- t.info :: 0 <= id < t.idCount && t.info[id].service.ip in t.byAddr
          && t.byAddr[t.info[id].service.ip] == id)
    && (forall a <- t.byAddr :: t.byAddr[a] in t.info && t.info[t.byAddr[a]].service.ip == a)
  }

  predicate RandomIndexed(t: Tables) {
    && (forall id <- t.info :: 0 <= t.info[id].randomPos < |t.random| && t.random[t.info[id].randomPos] == id)
    && (forall p :: 0 <= p < |t.random| ==> t.random[p] in t.info && t.info[t.random[p]].randomPos == p)
  }

  predicate TriedPlaced(h: Hashes, t: Tables) {
    && |t.tried| == TRIED_BUCKET_COUNT
    && (forall b :: 0 <= b < |t.tried| ==> |t.tried[b]| <= TRIED_BUCKET_SIZE && Distinct(t.tried[b]))
    && (forall b, id {:trigger id in t.tried[b]} :: 0 <= b < |t.tried| && id in t.tried[b] ==>
          id in t.info && t.info[id].inTried && TriedBucket(h, t.key, t.info[id]) == b)
    && (forall id <- t.info :: t.info[id].inTried ==> id in t.tried[TriedBucket(h, t.key, t.info[id])])
  }

  predicate NewPlaced(t: Tables) {
    && |t.news| == NEW_BUCKET_COUNT
    && (forall b :: 0 <= b < |t.news| ==> |t.news[b]| <= NEW_BUCKET_SIZE)
    && (forall b, id {:trigger id in t.news[b]} :: 0 <= b < |t.news| && id in t.news[b] ==>
          id in t.info && !t.info[id].inTried)
  }

  /** Every reference is counted; `pending` has one reference that no bucket holds yet. */
  predicate RefsCounted(t: Tables, pending: int) {
    && (forall id <- t.info :: t.info[id].refCount == Refs(t.news, id) + (if id == pending then 1 else 0))
    && (forall id <- t.info :: !t.info[id].inTried ==> 1 <= t.info[id].refCount <= NEW_BUCKETS_PER_ADDRESS)
    && (forall id <- t.info :: t.info[id].inTried ==> t.info[id].refCount == 0)
  }

  function TriedIds(t: Tables): (r: set<int>)
    ensures forall id :: id in r <==> id in t.info && t.info[id].inTried
  {
    set id | id in t.info && t.info[id].inTried
  }

  function NewIds(t: Tables): (r: set<int>)
    ensures forall id :: id in r <==> id in t.info && !t.info[id].inTried
  {
    set id | id in t.info && !t.info[id].inTried
  }

  predicate Tallied(t: Tables) {
    t.nTried == |TriedIds(t)| && t.nNew == |NewIds(t)|
  }

  predicate Timed(t: Tables) {
    forall id <- t.info :: t.info[id].lastTry >= 0 && t.info[id].lastSuccess >= 0
                           && (t.info[id].inTried ==> t.info[id].lastSuccess != 0)
  }

  predicate Structured(h: Hashes, t: Tables, pending: int) {
    && AddrIndexed(t)
    && RandomIndexed(t)
    && TriedPlaced(h, t)
    && NewPlaced(t)
    && RefsCounted(t, pending)
    && Tallied(t)
  }

  predicate Inv(h: Hashes, t: Tables, pending: int) {
    Structured(h, t, pending) && Timed(t)
  }

  predicate Consistent(h: Hashes, t: Tables) { Inv(h, t, NO_ID) && t.idCount >= 0 }

  function Empty(key: Key): Tables {
    Tables(key, 0, map[], map[], [], 0, seq(TRIED_BUCKET_COUNT, _ => []), 0, seq(NEW_BUCKET_COUNT, _ => {}))
  }

  lemma EmptyIsConsistent(h: Hashes, key: Key)
    ensures Consistent(h, Empty(key))
  {
    assert TriedIds(Empty(key)) == {} && NewIds(Empty(key)) == {};
  }

  // ---------------------------------------------------------------- counting references

  lemma {:induction false} RefsZero(buckets: seq<set<int>>, id: int)
    ensures Refs(buckets, id) == 0 <==> forall b :: 0 <= b < |buckets| ==> id !in buckets[b]
  {
    if buckets != [] {
      var front := buckets[..|buckets| - 1];
      RefsZero(front, id);
      assert forall b :: 0 <= b < |front| ==> front[b] == buckets[b];
    }
  }

  /** Changing one bucket changes the count by the change of membership in that bucket. */
  lemma {:induction false} RefsUpdate(buckets: seq<set<int>>, b: nat, bucket: set<int>, id: int)
    requires b < |buckets|
    ensures Refs(buckets[b := bucket], id)
         == Refs(buckets, id) - (if id in buckets[b] then 1 else 0) + (if id in bucket then 1 else 0)
  {
    var last := |buckets| - 1;
    var changed := buckets[b := bucket];
    if b == last {
      assert changed[..last] == buckets[..last];
    } else {
      assert changed[..last] == buckets[..last][b := bucket];
      RefsUpdate(buckets[..last], b, bucket, id);
    }
  }

  /** Two bucket lists that agree on an id count it alike. */
  lemma {:induction false} RefsAgree(a: seq<set<int>>, b: seq<set<int>>, id: int)
    requires |a| == |b| && forall k :: 0 <= k < |a| ==> (id in a[k] <==> id in b[k])
    ensures Refs(a, id) == Refs(b, id)
  {
    if a != [] {
      RefsAgree(a[..|a| - 1], b[..|b| - 1], id);
    }
  }

  // ---------------------------------------------------------------- table operations

  function SetInfo(t: Tables, id: int, i: Info): Tables { t.(info := t.info[id := i]) }

  /** Takes the next id for an address that is not in the tables. */
  function Create(t: Tables, addr: Address, source: NetAddr): Tables {
    t.(idCount := t.idCount + 1,
    info := t.info[t.idCount := Info(addr.service, addr.services, addr.time, 0, source, 0, 0, 0, false, |t.random|)],
    byAddr := t.byAddr[addr.service.ip := t.idCount],
    random := t.random + [t.idCount])
  }

  predicate CanSwap(t: Tables, p: nat, q: nat) {
    p < |t.random| && q < |t.random| && t.random[p] in t.info && t.random[q] in t.info
  }

  function SwapRandom(t: Tables, p: nat, q: nat): Tables
    requires CanSwap(t, p, q)
  {
    if p == q then t
    else
      var id1, id2 := t.random[p], t.random[q];
      var info1 := t.info[id1 := t.info[id1].(randomPos := q)];
      t.(info := info1[id2 := info1[id2].(randomPos := p)], random := t.random[p := id2][q := id1])
  }

  predicate CanMove(t: Tables, id: int) {
    && id in t.info && 0 <= t.info[id].randomPos < |t.random|
    && t.random[t.info[id].randomPos] in t.info && t.random[|t.random| - 1] in t.info
  }

  /** Deletes an entry that no bucket refers to any more; the last id in the random order takes its position. */
  function Forget(t: Tables, id: int): Tables
    requires CanMove(t, id)
  {
    var p := t.info[id].randomPos;
    var last := t.random[|t.random| - 1];
    t.(random := t.random[p := last][..|t.random| - 1],
    byAddr := t.byAddr - {t.info[id].service.ip},
    info := t.info[last := t.info[last].(randomPos := p)] - {id},
    nNew := t.nNew - 1)
  }

  /** Drops an id from one new bucket, deleting the entry with its last reference. */
  function Unref(t: Tables, b: nat, id: int): Tables
    requires CanMove(t, id) && b < |t.news|
  {
    var s := SetInfo(t, id, t.info[id].(refCount := t.info[id].refCount - 1));
    var u := if s.info[id].refCount == 0 then Forget(s, id) else s;
    u.(news := u.news[b := u.news[b] - {id}])
  }

  /** Drops an id from every new bucket. */
  function Without(buckets: seq<set<int>>, id: int): (r: seq<set<int>>)
    ensures |r| == |buckets|
  {
    seq(|buckets|, b requires 0 <= b < |buckets| => buckets[b] - {id})
  }

  /** The tables between leaving the new buckets and entering a tried bucket. */
  function Uproot(t: Tables, id: int): Tables
    requires id in t.info
  {
    t.(info := t.info[id := t.info[id].(refCount := 0)], news := Without(t.news, id), nNew := t.nNew - 1)
  }

  function PlaceTried(h: Hashes, t: Tables, id: int): Tables
    requires id in t.info && |t.tried| == TRIED_BUCKET_COUNT
  {
    var k := TriedBucket(h, t.key, t.info[id]);
    t.(tried := t.tried[k := t.tried[k] + [id]],
    nTried := t.nTried + 1,
    info := t.info[id := t.info[id].(inTried := true)])
  }

  /** The new bucket that receives the entry evicted from a full tried bucket. */
  function EvictionBucket(h: Hashes, t: Tables, evicted: int, origin: nat): (b: nat)
    requires evicted in t.info && |t.news| == NEW_BUCKET_COUNT && origin < NEW_BUCKET_COUNT
    ensures b < NEW_BUCKET_COUNT
  {
    var u := NewBucket(h, t.key, t.info[evicted], t.info[evicted].source);
    if |t.news[u]| < NEW_BUCKET_SIZE then u else origin
  }

  /** Replaces the entry at `pos` of the (reordered) full tried bucket by `id`. */
  function ReplaceTried(h: Hashes, t: Tables, id: int, origin: nat, bucket: seq<int>, pos: nat): Tables
    requires id in t.info && |t.tried| == TRIED_BUCKET_COUNT && |t.news| == NEW_BUCKET_COUNT
    requires pos < |bucket| && bucket[pos] in t.info && origin < NEW_BUCKET_COUNT
  {
    var k := TriedBucket(h, t.key, t.info[id]);
    var evicted := bucket[pos];
    var b := EvictionBucket(h, t, evicted, origin);
    var info1 := t.info[evicted := t.info[evicted].(inTried := false, refCount := 1)];
    t.(info := info1[id := info1[id].(inTried := true)],
    news := t.news[b := t.news[b] + {evicted}],
    nNew := t.nNew + 1,
    tried := t.tried[k := bucket[pos := id]])
  }

  // ---------------------------------------------------------------- framing

  /** The same ids, each with the same tried flag. */
  predicate SameFlags(a: map<int, Info>, b: map<int, Info>) {
    a.Keys == b.Keys && forall id <- a :: a[id].inTried == b[id].inTried
  }

  predicate SameServices(a: map<int, Info>, b: map<int, Info>) {
    a.Keys == b.Keys && forall id <- a :: a[id].service == b[id].service
  }

  predicate SameCounts(a: map<int, Info>, b: map<int, Info>) {
    a.Keys == b.Keys && forall id <- a :: a[id].refCount == b[id].refCount
  }

  predicate SamePositions(a: map<int, Info>, b: map<int, Info>) {
    a.Keys == b.Keys && forall id <- a :: a[id].randomPos == b[id].randomPos
  }

  lemma AddrFrame(t: Tables, s: Tables)
    requires AddrIndexed(t) && s.idCount == t.idCount && s.byAddr == t.byAddr && SameServices(t.info, s.info)
    ensures AddrIndexed(s)
  {
  }

  lemma RandomFrame(t: Tables, s: Tables)
    requires RandomIndexed(t) && s.random == t.random && SamePositions(t.info, s.info)
    ensures RandomIndexed(s)
  {
  }

  lemma TriedFrame(h: Hashes, t: Tables, s: Tables)
    requires TriedPlaced(h, t) && s.key == t.key && s.tried == t.tried
    requires SameServices(t.info, s.info) && SameFlags(t.info, s.info)
    ensures TriedPlaced(h, s)
  {
    forall b, id | 0 <= b < |s.tried| && id in s.tried[b]
      ensures id in s.info && s.info[id].inTried && TriedBucket(h, s.key, s.info[id]) == b
    {
      assert id in t.info;
    }
    forall id <- s.info | s.info[id].inTried
      ensures id in s.tried[TriedBucket(h, s.key, s.info[id])]
    {
      assert id in t.info;
    }
  }

  lemma NewFrame(t: Tables, s: Tables, pending: int)
    requires NewPlaced(t) && RefsCounted(t, pending) && s.news == t.news
    requires SameFlags(t.info, s.info) && SameCounts(t.info, s.info)
    ensures NewPlaced(s) && RefsCounted(s, pending)
  {
    forall b, id | 0 <= b < |s.news| && id in s.news[b] ensures id in s.info && !s.info[id].inTried {
      assert id in t.info;
    }
    forall id <- s.info
      ensures s.info[id].refCount == Refs(s.news, id) + (if id == pending then 1 else 0)
      ensures !s.info[id].inTried ==> 1 <= s.info[id].refCount <= NEW_BUCKETS_PER_ADDRESS
      ensures s.info[id].inTried ==> s.info[id].refCount == 0
    {
      assert id in t.info;
    }
  }

  lemma TallyFrame(t: Tables, s: Tables)
    requires Tallied(t) && s.nTried == t.nTried && s.nNew == t.nNew && SameFlags(t.info, s.info)
    ensures Tallied(s)
  {
    assert forall id :: id in t.info <==> id in s.info;
    assert forall id :: id in TriedIds(s) <==> id in TriedIds(t);
    assert TriedIds(s) == TriedIds(t);
    assert NewIds(s) == NewIds(t);
  }

  // ---------------------------------------------------------------- what each operation keeps

  /** Statistics may change freely; identity, placement and counts may not. */
  predicate SamePlace(a: Info, b: Info) {
    a.service == b.service && a.source == b.source && a.refCount == b.refCount
    && a.inTried == b.inTried && a.randomPos == b.randomPos
  }

  lemma {:induction false} SetInfoKeeps(h: Hashes, t: Tables, pending: int, id: int, i: Info)
    requires Inv(h, t, pending) && id in t.info && SamePlace(t.info[id], i)
    requires i.lastTry >= 0 && i.lastSuccess >= 0 && (i.inTried ==> i.lastSuccess != 0)
    ensures Inv(h, SetInfo(t, id, i), pending)
  {
    SetInfoStructured(h, t, pending, id, i);
  }

  lemma {:induction false} SetInfoStructured(h: Hashes, t: Tables, pending: int, id: int, i: Info)
    requires Structured(h, t, pending) && id in t.info && SamePlace(t.info[id], i)
    ensures Structured(h, SetInfo(t, id, i), pending)
  {
    var s := SetInfo(t, id, i);
    AddrFrame(t, s);
    RandomFrame(t, s);
    TriedFrame(h, t, s);
    NewFrame(t, s, pending);
    TallyFrame(t, s);
  }

  /** `s` is `t` with only positions in the random order changed. */
  predicate Moved(t: Tables, s: Tables) {
    && RandomIndexed(s)
    && s == t.(info := s.info, random := s.random)
    && |s.random| == |t.random|
    && s.info.Keys == t.info.Keys
    && (forall id <- t.info :: Still(s.info[id]) == Still(t.info[id]))
  }

  /** An entry without its position in the random order. */
  function Still(i: Info): Info { i.(randomPos := 0) }

  lemma {:induction false} SwapRandomMoves(t: Tables, p: nat, q: nat)
    requires RandomIndexed(t) && p < |t.random| && q < |t.random|
    ensures Moved(t, SwapRandom(t, p, q))
    ensures SwapRandom(t, p, q).random[q] == t.random[p]
  {
    var s := SwapRandom(t, p, q);
    if p != q {
      assert t.random[p] != t.random[q];
      forall id <- s.info
        ensures 0 <= s.info[id].randomPos < |s.random| && s.random[s.info[id].randomPos] == id
      {
        assert id in t.info;
      }
    }
  }

  lemma {:induction false} SwapRandomKeeps(h: Hashes, t: Tables, pending: int, p: nat, q: nat)
    requires Inv(h, t, pending) && p < |t.random| && q < |t.random|
    ensures Inv(h, SwapRandom(t, p, q), pending)
  {
    SwapRandomMoves(t, p, q);
    MovedKeeps(h, t, SwapRandom(t, p, q), pending);
  }

  lemma {:induction false} MovedKeeps(h: Hashes, t: Tables, s: Tables, pending: int)
    requires Inv(h, t, pending) && Moved(t, s)
    ensures Inv(h, s, pending)
  {
    AddrFrame(t, s);
    TriedFrame(h, t, s);
    NewFrame(t, s, pending);
    TallyFrame(t, s);
  }

  /** Counts one more reference, which no bucket holds yet. */
  function Raise(t: Tables, id: int): Tables
    requires id in t.info
  {
    SetInfo(t, id, t.info[id].(refCount := t.info[id].refCount + 1))
  }

  /** The tables once a new entry is counted but before it has a reference. */
  function Enter(t: Tables, addr: Address, source: NetAddr): Tables {
    Create(t, addr, source).(nNew := t.nNew + 1)
  }

  lemma {:induction false} EnterKeeps(h: Hashes, t: Tables, addr: Address, source: NetAddr)
    requires Consistent(h, t) && addr.service.ip !in t.byAddr
    ensures Inv(h, Raise(Enter(t, addr, source), t.idCount), t.idCount)
    ensures forall b :: 0 <= b < |t.news| ==> t.idCount !in t.news[b]
  {
    var id := t.idCount;
    var u := Raise(Enter(t, addr, source), id);
    assert id !in t.info;
    EnterIndexes(t, addr, source);
    EnteredKeeps(h, t, u, id);
    NotYetPlaced(t, id);
  }

  lemma NotYetPlaced(t: Tables, id: int)
    requires NewPlaced(t) && id !in t.info
    ensures forall b :: 0 <= b < |t.news| ==> id !in t.news[b]
  {
  }

  /** What creating an entry with one reference does to the tables other than the two indexes. */
  predicate Entered(t: Tables, u: Tables, id: int) {
    && id !in t.info && u == t.(info := u.info, byAddr := u.byAddr, random := u.random, idCount := u.idCount, nNew := t.nNew + 1)
    && u.info.Keys == t.info.Keys + {id}
    && (forall k <- t.info :: u.info[k] == t.info[k])
    && !u.info[id].inTried && u.info[id].refCount == 1 && u.info[id].lastTry >= 0 && u.info[id].lastSuccess >= 0
  }

  lemma {:induction false} EnteredKeeps(h: Hashes, t: Tables, u: Tables, id: int)
    requires Consistent(h, t) && AddrIndexed(u) && RandomIndexed(u) && Entered(t, u, id) && id != NO_ID
    ensures Inv(h, u, id)
  {
    CreateKeepsTried(h, t, u, id);
    CreateKeepsNew(h, t, u, id);
    CreateTallies(t, u, id);
    CreateTimes(t, u, id);
  }

  lemma CreateTimes(t: Tables, u: Tables, id: int)
    requires Timed(t) && Entered(t, u, id)
    ensures Timed(u)
  {
    forall k <- u.info
      ensures u.info[k].lastTry >= 0 && u.info[k].lastSuccess >= 0 && (u.info[k].inTried ==> u.info[k].lastSuccess != 0)
    {
      assert k == id || k in t.info;
    }
  }

  lemma {:induction false} EnterIndexes(t: Tables, addr: Address, source: NetAddr)
    requires AddrIndexed(t) && RandomIndexed(t) && t.idCount >= 0 && addr.service.ip !in t.byAddr
    ensures
      var u := Raise(Enter(t, addr, source), t.idCount);
      AddrIndexed(u) && RandomIndexed(u)
  {
    var u := Raise(Enter(t, addr, source), t.idCount);
    var i := Info(addr.service, addr.services, addr.time, 0, source, 0, 0, 1, false, |t.random|);
    assert t.idCount !in t.info;
    assert u.info == t.info[t.idCount := i];
    EnterAddr(t, u, i);
    EnterRandom(t, u, i);
  }

  lemma EnterAddr(t: Tables, u: Tables, i: Info)
    requires AddrIndexed(t) && t.idCount >= 0 && i.service.ip !in t.byAddr
    requires u.info == t.info[t.idCount := i] && u.byAddr == t.byAddr[i.service.ip := t.idCount]
    requires u.idCount == t.idCount + 1
    ensures AddrIndexed(u)
  {
  }

  lemma EnterRandom(t: Tables, u: Tables, i: Info)
    requires RandomIndexed(t) && t.idCount !in t.info && i.randomPos == |t.random|
    requires u.info == t.info[t.idCount := i] && u.random == t.random + [t.idCount]
    ensures RandomIndexed(u)
  {
    forall p | 0 <= p < |u.random| ensures u.random[p] in u.info && u.info[u.random[p]].randomPos == p {
      assert p < |t.random| ==> u.random[p] == t.random[p];
    }
  }

  lemma {:induction false} RaiseKeeps(h: Hashes, t: Tables, id: int)
    requires Consistent(h, t) && id in t.info && !t.info[id].inTried && t.info[id].refCount < NEW_BUCKETS_PER_ADDRESS
    ensures Inv(h, Raise(t, id), id)
  {
    var s := Raise(t, id);
    CountSame(t.info, id, t.info[id].refCount + 1);
    AddrFrame(t, s);
    RandomFrame(t, s);
    TriedFrame(h, t, s);
    TallyFrame(t, s);
    RaiseCounts(t, s, id);
    RaiseTimes(t, s, id);
  }

  lemma RaiseTimes(t: Tables, s: Tables, id: int)
    requires Timed(t) && id in t.info && s == Raise(t, id)
    ensures Timed(s)
  {
  }

  lemma RaiseCounts(t: Tables, s: Tables, id: int)
    requires NewPlaced(t) && RefsCounted(t, NO_ID) && NO_ID !in t.info && id in t.info && !t.info[id].inTried
    requires t.info[id].refCount < NEW_BUCKETS_PER_ADDRESS && s == Raise(t, id)
    ensures NewPlaced(s) && RefsCounted(s, id)
  {
    forall b, k | 0 <= b < |s.news| && k in s.news[b] ensures k in s.info && !s.info[k].inTried {
      assert k in t.info;
    }
  }

  lemma NewMembers(h: Hashes, t: Tables, pending: int, b: nat)
    requires Inv(h, t, pending) && b < |t.news|
    ensures forall id <- t.news[b] :: id in t.info && id >= 0
  {
    forall id <- t.news[b] ensures id in t.info && id >= 0 {
      assert id in t.info;
    }
  }

  lemma CreateTallies(t: Tables, u: Tables, id: int)
    requires Tallied(t) && id !in t.info && u.nTried == t.nTried && u.nNew == t.nNew + 1
    requires u.info.Keys == t.info.Keys + {id} && !u.info[id].inTried
    requires forall k <- t.info :: u.info[k] == t.info[k]
    ensures Tallied(u)
  {
    assert forall k :: k in u.info <==> k in t.info || k == id;
    assert forall k :: k in TriedIds(u) <==> k in TriedIds(t);
    assert TriedIds(u) == TriedIds(t);
    assert NewIds(u) == NewIds(t) + {id};
  }

  lemma CreateKeepsTried(h: Hashes, t: Tables, u: Tables, id: int)
    requires TriedPlaced(h, t) && id !in t.info
    requires u.key == t.key && u.tried == t.tried
    requires u.info.Keys == t.info.Keys + {id} && !u.info[id].inTried
    requires forall k <- t.info :: u.info[k] == t.info[k]
    ensures TriedPlaced(h, u)
  {
    forall k <- u.info | u.info[k].inTried
      ensures k in u.tried[TriedBucket(h, u.key, u.info[k])]
    {
      assert k in t.info;
    }
  }

  lemma CreateKeepsNew(h: Hashes, t: Tables, u: Tables, id: int)
    requires NewPlaced(t) && RefsCounted(t, NO_ID) && id !in t.info && id != NO_ID && NO_ID !in t.info
    requires u.news == t.news
    requires u.info.Keys == t.info.Keys + {id} && !u.info[id].inTried && u.info[id].refCount == 1
    requires forall k <- t.info :: u.info[k] == t.info[k]
    ensures NewPlaced(u) && RefsCounted(u, id)
  {
    RefsZero(t.news, id);
    forall k <- u.info
      ensures u.info[k].refCount == Refs(u.news, k) + (if k == id then 1 else 0)
      ensures !u.info[k].inTried ==> 1 <= u.info[k].refCount <= NEW_BUCKETS_PER_ADDRESS
      ensures u.info[k].inTried ==> u.info[k].refCount == 0
    {
      assert k == id || k in t.info;
    }
  }

  // ---------------------------------------------------------------- dropping and adding references

  /** `u` is `t` without the entry `id`; other entries have at most moved in the random order. */
  predicate Forgot(t: Tables, u: Tables, id: int) {
    && AddrIndexed(u) && RandomIndexed(u)
    && u == t.(info := u.info, byAddr := u.byAddr, random := u.random, nNew := t.nNew - 1)
    && u.info.Keys == t.info.Keys - {id}
    && (forall k <- u.info :: k in t.info && Still(u.info[k]) == Still(t.info[k]))
  }

  lemma {:induction false} ForgetIndexes(t: Tables, id: int)
    requires AddrIndexed(t) && RandomIndexed(t) && id in t.info
    ensures Forgot(t, Forget(t, id), id)
  {
    var u := Forget(t, id);
    var last := t.random[|t.random| - 1];
    forall a <- u.byAddr ensures u.byAddr[a] in u.info && u.info[u.byAddr[a]].service.ip == a {
      assert a in t.byAddr;
    }
    forall k <- u.info
      ensures k in t.info && Still(u.info[k]) == Still(t.info[k])
      ensures 0 <= u.info[k].randomPos < |u.random| && u.random[u.info[k].randomPos] == k
    {
      assert k in t.info;
    }
    forall p | 0 <= p < |u.random| ensures u.random[p] in u.info && u.info[u.random[p]].randomPos == p {
      assert t.random[p] in t.info;
    }
  }

  /** Dropping one reference, seen per entry: one fewer for `id`, and the entry goes with its last one. */
  predicate Unrefed(t: Tables, u: Tables, b: nat, id: int)
    requires id in t.info && b < |t.news|
  {
    && u == t.(info := u.info, byAddr := u.byAddr, random := u.random, nNew := u.nNew, news := u.news)
    && u.news == t.news[b := t.news[b] - {id}]
    && u.info.Keys == (if t.info[id].refCount == 1 then t.info.Keys - {id} else t.info.Keys)
    && u.nNew == (if t.info[id].refCount == 1 then t.nNew - 1 else t.nNew)
    && (forall k <- u.info :: Still(u.info[k]).(refCount := 0) == Still(t.info[k]).(refCount := 0))
    && (forall k <- u.info :: u.info[k].refCount == t.info[k].refCount - (if k == id then 1 else 0))
  }

  lemma {:induction false} UnrefIndexes(t: Tables, b: nat, id: int)
    requires AddrIndexed(t) && RandomIndexed(t) && id in t.info && b < |t.news|
    ensures Unrefed(t, Unref(t, b, id), b, id)
    ensures AddrIndexed(Unref(t, b, id)) && RandomIndexed(Unref(t, b, id))
  {
    var s := SetInfo(t, id, t.info[id].(refCount := t.info[id].refCount - 1));
    CountSame(t.info, id, t.info[id].refCount - 1);
    AddrFrame(t, s);
    RandomFrame(t, s);
    if s.info[id].refCount == 0 {
      ForgetIndexes(s, id);
      UnrefForgets(t, s, Forget(s, id), b, id);
    } else {
      UnrefStays(t, s, b, id);
    }
  }

  lemma CountSame(info: map<int, Info>, id: int, n: int)
    requires id in info
    ensures
      var now := info[id := info[id].(refCount := n)];
      SameServices(info, now) && SamePositions(info, now) && SameFlags(info, now)
  {
  }

  lemma UnrefForgets(t: Tables, s: Tables, f: Tables, b: nat, id: int)
    requires id in t.info && b < |t.news| && t.info[id].refCount == 1 && CanMove(t, id)
    requires s == SetInfo(t, id, t.info[id].(refCount := 0)) && Forgot(s, f, id) && CanMove(s, id) && f == Forget(s, id)
    ensures Unrefed(t, Unref(t, b, id), b, id)
    ensures AddrIndexed(Unref(t, b, id)) && RandomIndexed(Unref(t, b, id))
  {
    var u := Unref(t, b, id);
    assert u == f.(news := f.news[b := f.news[b] - {id}]);
    UnrefedIf(t, f, u, b, id);
    AddrFrame(f, u);
    RandomFrame(f, u);
  }

  lemma UnrefedIf(t: Tables, f: Tables, u: Tables, b: nat, id: int)
    requires id in t.info && b < |t.news| && t.info[id].refCount == 1
    requires Forgot(SetInfo(t, id, t.info[id].(refCount := 0)), f, id)
    requires u == f.(news := f.news[b := f.news[b] - {id}])
    ensures Unrefed(t, u, b, id)
  {
  }

  lemma UnrefStays(t: Tables, s: Tables, b: nat, id: int)
    requires id in t.info && b < |t.news| && t.info[id].refCount != 1 && CanMove(t, id)
    requires s == SetInfo(t, id, t.info[id].(refCount := t.info[id].refCount - 1)) && AddrIndexed(s) && RandomIndexed(s)
    ensures Unrefed(t, Unref(t, b, id), b, id)
    ensures AddrIndexed(Unref(t, b, id)) && RandomIndexed(Unref(t, b, id))
  {
    AddrFrame(s, Unref(t, b, id));
    RandomFrame(s, Unref(t, b, id));
  }

  lemma UnrefTried(h: Hashes, t: Tables, u: Tables, b: nat, id: int)
    requires TriedPlaced(h, t) && id in t.info && !t.info[id].inTried && b < |t.news| && Unrefed(t, u, b, id)
    ensures TriedPlaced(h, u)
  {
    forall c, k | 0 <= c < |u.tried| && k in u.tried[c]
      ensures k in u.info && u.info[k].inTried && TriedBucket(h, u.key, u.info[k]) == c
    {
      assert k in t.info && t.info[k].inTried;
    }
    forall k <- u.info | u.info[k].inTried ensures k in u.tried[TriedBucket(h, u.key, u.info[k])] {
      assert k in t.info;
    }
  }

  lemma {:induction false} UnrefNew(t: Tables, u: Tables, b: nat, id: int, pending: int)
    requires NewPlaced(t) && RefsCounted(t, pending) && b < |t.news| && id in t.news[b] && id != pending
    requires Unrefed(t, u, b, id)
    ensures NewPlaced(u) && RefsCounted(u, pending) && |u.news[b]| == |t.news[b]| - 1
  {
    var rest := t.news[b] - {id};
    RefsUpdate(t.news, b, rest, id);
    RefsZero(u.news, id);
    forall c, k | 0 <= c < |u.news| && k in u.news[c] ensures k in u.info && !u.info[k].inTried {
      assert k in t.news[c];
    }
    forall k <- u.info
      ensures u.info[k].refCount == Refs(u.news, k) + (if k == pending then 1 else 0)
      ensures !u.info[k].inTried ==> 1 <= u.info[k].refCount <= NEW_BUCKETS_PER_ADDRESS
      ensures u.info[k].inTried ==> u.info[k].refCount == 0
    {
      assert k in t.info;
      RefsUpdate(t.news, b, rest, k);
    }
  }

  lemma UnrefTallies(t: Tables, u: Tables, b: nat, id: int)
    requires Tallied(t) && id in t.info && !t.info[id].inTried && b < |t.news| && Unrefed(t, u, b, id)
    ensures Tallied(u)
  {
    assert forall k :: k in u.info ==> k in t.info;
    assert forall k :: k in t.info && k != id ==> k in u.info;
    assert forall k :: k in TriedIds(u) <==> k in TriedIds(t);
    assert TriedIds(u) == TriedIds(t);
    if t.info[id].refCount == 1 {
      assert NewIds(t) == NewIds(u) + {id};
    } else {
      assert NewIds(t) == NewIds(u);
    }
  }

  /** The step shared by both exits of `ShrinkNew`: the bucket loses one entry, everything else stays in step. */
  lemma {:induction false} UnrefKeeps(h: Hashes, t: Tables, b: nat, id: int, pending: int)
    requires Inv(h, t, pending) && b < |t.news| && id in t.news[b] && id != pending
    ensures Inv(h, Unref(t, b, id), pending)
    ensures |Unref(t, b, id).news[b]| == |t.news[b]| - 1
    ensures Unrefed(t, Unref(t, b, id), b, id)
  {
    var u := Unref(t, b, id);
    UnrefIndexes(t, b, id);
    UnrefTried(h, t, u, b, id);
    UnrefNew(t, u, b, id, pending);
    UnrefTallies(t, u, b, id);
  }

  /** Puts the pending reference into a bucket that has room for it. */
  function Link(t: Tables, b: nat, id: int): Tables
    requires b < |t.news|
  {
    t.(news := t.news[b := t.news[b] + {id}])
  }

  lemma {:induction false} LinkKeeps(h: Hashes, t: Tables, b: nat, id: int)
    requires Inv(h, t, id) && b < |t.news| && |t.news[b]| < NEW_BUCKET_SIZE
    requires id in t.info && !t.info[id].inTried && id !in t.news[b] && id >= 0
    ensures Inv(h, Link(t, b, id), NO_ID)
  {
    var u := Link(t, b, id);
    AddrFrame(t, u);
    RandomFrame(t, u);
    TriedFrame(h, t, u);
    TallyFrame(t, u);
    forall c, k | 0 <= c < |u.news| && k in u.news[c] ensures k in u.info && !u.info[k].inTried {
      assert k == id || k in t.news[c];
    }
    forall k <- u.info ensures u.info[k].refCount == Refs(u.news, k) + (if k == NO_ID then 1 else 0) {
      RefsUpdate(t.news, b, t.news[b] + {id}, k);
    }
  }

  // ---------------------------------------------------------------- moving an entry to the tried table

  /** What the random choices of a promotion come to: the new bucket the entry was found in, and, for a
      full tried bucket, its reordering and the position to replace. */
  datatype Choice = Choice(origin: nat, bucket: seq<int>, pos: nat)

  predicate TriedFull(h: Hashes, t: Tables, id: int)
    requires id in t.info && |t.tried| == TRIED_BUCKET_COUNT
  {
    |t.tried[TriedBucket(h, t.key, t.info[id])]| >= TRIED_BUCKET_SIZE
  }

  predicate PossibleChoice(h: Hashes, t: Tables, id: int, c: Choice) {
    && id in t.info && |t.tried| == TRIED_BUCKET_COUNT && |t.news| == NEW_BUCKET_COUNT
    && c.origin < NEW_BUCKET_COUNT && id in t.news[c.origin]
    && (TriedFull(h, t, id) ==>
          && Reordered(t, TriedBucket(h, t.key, t.info[id]), c.bucket)
          && c.pos < |c.bucket| && c.bucket[c.pos] in t.info)
  }

  function MakeTried(h: Hashes, t: Tables, id: int, c: Choice): Tables
    requires PossibleChoice(h, t, id, c)
  {
    if TriedFull(h, t, id)
    then ReplaceTried(h, Uproot(t, id), id, c.origin, c.bucket, c.pos)
    else PlaceTried(h, Uproot(t, id), id)
  }

  lemma {:induction false} MakeTriedKeeps(h: Hashes, t: Tables, id: int, c: Choice)
    requires Consistent(h, t) && PossibleChoice(h, t, id, c)
    requires t.info[id].lastSuccess != 0
    ensures Consistent(h, MakeTried(h, t, id, c))
  {
    if TriedFull(h, t, id) {
      ReplaceTriedKeeps(h, t, id, c.origin, c.bucket, c.pos);
    } else {
      PlaceTriedKeeps(h, t, id);
    }
  }

  lemma UprootRefs(t: Tables, id: int)
    ensures Refs(Without(t.news, id), id) == 0
    ensures forall k :: k != id ==> Refs(Without(t.news, id), k) == Refs(t.news, k)
  {
    RefsZero(Without(t.news, id), id);
    forall k | k != id ensures Refs(Without(t.news, id), k) == Refs(t.news, k) {
      RefsAgree(Without(t.news, id), t.news, k);
    }
  }

  /** The entry alone changed sides: it left all new buckets and stands last in its tried bucket. */
  lemma {:induction false} PlaceTriedKeeps(h: Hashes, t: Tables, id: int)
    requires Consistent(h, t) && id in t.info && !t.info[id].inTried && t.info[id].lastSuccess != 0
    requires |t.tried[TriedBucket(h, t.key, t.info[id])]| < TRIED_BUCKET_SIZE
    ensures Consistent(h, PlaceTried(h, Uproot(t, id), id))
  {
    var u := PlaceTried(h, Uproot(t, id), id);
    assert u.info == Placed(t.info, id);
    PlacedIndexes(t, u, id);
    PlacedTried(h, t, u, id);
    PlacedNew(t, u, id);
    PlacedTallies(t, u, id);
  }

  function Placed(info: map<int, Info>, id: int): map<int, Info>
    requires id in info
  {
    info[id := info[id].(refCount := 0, inTried := true)]
  }

  lemma PlacedIndexes(t: Tables, u: Tables, id: int)
    requires AddrIndexed(t) && RandomIndexed(t) && Timed(t) && id in t.info && t.info[id].lastSuccess != 0
    requires u.info == Placed(t.info, id) && u.idCount == t.idCount && u.byAddr == t.byAddr && u.random == t.random
    ensures AddrIndexed(u) && RandomIndexed(u) && Timed(u)
  {
    PlacedSame(t.info, id);
    AddrFrame(t, u);
    RandomFrame(t, u);
    PlacedTimes(t, u, id);
  }

  lemma PlacedSame(info: map<int, Info>, id: int)
    requires id in info
    ensures SameServices(info, Placed(info, id)) && SamePositions(info, Placed(info, id))
  {
  }

  lemma PlacedTimes(t: Tables, u: Tables, id: int)
    requires Timed(t) && id in t.info && t.info[id].lastSuccess != 0 && u.info == Placed(t.info, id)
    ensures Timed(u)
  {
  }

  lemma PlacedTried(h: Hashes, t: Tables, u: Tables, id: int)
    requires TriedPlaced(h, t) && id in t.info && !t.info[id].inTried
    requires |t.tried[TriedBucket(h, t.key, t.info[id])]| < TRIED_BUCKET_SIZE
    requires u.key == t.key && u.info == Placed(t.info, id)
    requires var k := TriedBucket(h, t.key, t.info[id]); u.tried == t.tried[k := t.tried[k] + [id]]
    ensures TriedPlaced(h, u)
  {
    var k := TriedBucket(h, t.key, t.info[id]);
    assert id !in t.tried[k];
    forall b, x | 0 <= b < |u.tried| && x in u.tried[b]
      ensures x in u.info && u.info[x].inTried && TriedBucket(h, u.key, u.info[x]) == b
    {
      assert x == id || x in t.tried[b];
    }
    forall x <- u.info | u.info[x].inTried ensures x in u.tried[TriedBucket(h, u.key, u.info[x])] {
      if x == id {
        assert u.tried[k][|t.tried[k]|] == id;
      } else {
        assert x in t.tried[TriedBucket(h, t.key, t.info[x])];
      }
    }
  }

  lemma PlacedNew(t: Tables, u: Tables, id: int)
    requires NewPlaced(t) && RefsCounted(t, NO_ID) && id in t.info && !t.info[id].inTried && NO_ID !in t.info
    requires u.info == Placed(t.info, id) && u.news == Without(t.news, id)
    ensures NewPlaced(u) && RefsCounted(u, NO_ID)
  {
    UprootRefs(t, id);
    assert forall b :: 0 <= b < |u.news| ==> |u.news[b]| <= |t.news[b]|;
    forall b, x | 0 <= b < |u.news| && x in u.news[b] ensures x in u.info && !u.info[x].inTried {
      assert x in t.news[b] && x != id;
    }
  }

  lemma PlacedTallies(t: Tables, u: Tables, id: int)
    requires Tallied(t) && id in t.info && !t.info[id].inTried
    requires u.info == Placed(t.info, id)
    requires u.nNew == t.nNew - 1 && u.nTried == t.nTried + 1
    ensures Tallied(u)
  {
    assert forall x :: x in TriedIds(u) <==> x in TriedIds(t) || x == id;
    assert TriedIds(u) == TriedIds(t) + {id};
    assert NewIds(t) == NewIds(u) + {id};
  }

  /** `bucket` holds exactly the entries of the tried bucket `k`, in some order. */
  predicate Reordered(t: Tables, k: nat, bucket: seq<int>)
    requires k < |t.tried|
  {
    multiset(bucket) == multiset(t.tried[k])
  }

  lemma ReorderedSame(a: seq<int>, b: seq<int>)
    requires multiset(a) == multiset(b)
    ensures |a| == |b| && (forall x :: x in a <==> x in b)
    ensures Distinct(b) ==> Distinct(a)
  {
    assert |a| == |multiset(a)| && |b| == |multiset(b)|;
    forall x ensures x in a <==> x in b {
      assert x in a <==> x in multiset(a);
    }
    if Distinct(b) {
      forall x ensures multiset(b)[x] <= 1 {
        DistinctCount(b, x);
      }
      forall i, j | 0 <= i < j < |a| ensures a[i] != a[j] {
        RepeatCount(a, i, j);
      }
    }
  }

  lemma RepeatCount(a: seq<int>, i: nat, j: nat)
    requires i < j < |a|
    ensures a[i] == a[j] ==> multiset(a)[a[i]] >= 2
  {
    assert a == a[..i] + [a[i]] + a[i + 1..j] + [a[j]] + a[j + 1..];
  }

  lemma {:induction false} DistinctCount(s: seq<int>, x: int)
    requires Distinct(s)
    ensures multiset(s)[x] <= 1
  {
    if s != [] {
      var front := s[..|s| - 1];
      assert s == front + [s[|s| - 1]];
      DistinctCount(front, x);
      if x == s[|s| - 1] {
        assert x !in front;
        assert multiset(front)[x] == 0;
      }
    }
  }

  lemma {:induction false} ReplaceTriedKeeps(h: Hashes, t: Tables, id: int, origin: nat, bucket: seq<int>, pos: nat)
    requires Consistent(h, t) && id in t.info && !t.info[id].inTried && t.info[id].lastSuccess != 0
    requires origin < |t.news| && id in t.news[origin] && pos < |bucket|
    requires Reordered(t, TriedBucket(h, t.key, t.info[id]), bucket)
    ensures bucket[pos] in t.info
    ensures Consistent(h, ReplaceTried(h, Uproot(t, id), id, origin, bucket, pos))
  {
    var k := TriedBucket(h, t.key, t.info[id]);
    ReorderedSame(bucket, t.tried[k]);
    var evicted := bucket[pos];
    assert evicted in bucket && evicted in t.tried[k];
    var b := EvictionBucket(h, Uproot(t, id), evicted, origin);
    assert |Without(t.news, id)[origin]| < |t.news[origin]|;
    ExchangeKeeps(h, t, Exchange(h, t, id, bucket, pos, b), id, bucket, pos, b);
    ReplaceIsExchange(h, t, id, origin, bucket, pos);
  }

  lemma ReplaceIsExchange(h: Hashes, t: Tables, id: int, origin: nat, bucket: seq<int>, pos: nat)
    requires id in t.info && pos < |bucket| && bucket[pos] in t.info && bucket[pos] != id
    requires |t.tried| == TRIED_BUCKET_COUNT && |t.news| == NEW_BUCKET_COUNT && origin < |t.news|
    ensures ReplaceTried(h, Uproot(t, id), id, origin, bucket, pos)
         == Exchange(h, t, id, bucket, pos, EvictionBucket(h, Uproot(t, id), bucket[pos], origin))
  {
  }

  /** The outcome of the replacement, given the bucket `b` that takes the evicted entry. */
  function Exchange(h: Hashes, t: Tables, id: int, bucket: seq<int>, pos: nat, b: nat): Tables
    requires id in t.info && pos < |bucket| && bucket[pos] in t.info
    requires |t.tried| == TRIED_BUCKET_COUNT && b < |t.news|
  {
    t.(info := Exchanged(t.info, id, bucket[pos]),
    news := Without(t.news, id)[b := Without(t.news, id)[b] + {bucket[pos]}],
    tried := t.tried[TriedBucket(h, t.key, t.info[id]) := bucket[pos := id]])
  }

  lemma {:induction false} ExchangeKeeps(h: Hashes, t: Tables, u: Tables, id: int, bucket: seq<int>, pos: nat, b: nat)
    requires Consistent(h, t) && id in t.info && !t.info[id].inTried && t.info[id].lastSuccess != 0
    requires pos < |bucket| && bucket[pos] in t.info && t.info[bucket[pos]].inTried
    requires Reordered(t, TriedBucket(h, t.key, t.info[id]), bucket)
    requires b < |t.news| && |Without(t.news, id)[b]| < NEW_BUCKET_SIZE
    requires u == Exchange(h, t, id, bucket, pos, b)
    ensures Consistent(h, u)
  {
    ExchangeIndexes(t, u, id, bucket[pos]);
    ReplacedTried(h, t, u, id, bucket, pos);
    ReplacedNew(t, u, id, bucket[pos], b);
    ReplacedTallies(t, u, id, bucket[pos]);
  }

  lemma {:induction false} ExchangeIndexes(t: Tables, u: Tables, id: int, evicted: int)
    requires AddrIndexed(t) && RandomIndexed(t) && Timed(t) && id in t.info && evicted in t.info
    requires t.info[id].lastSuccess != 0 && u.info == Exchanged(t.info, id, evicted)
    requires u.idCount == t.idCount && u.byAddr == t.byAddr && u.random == t.random
    ensures AddrIndexed(u) && RandomIndexed(u) && Timed(u)
  {
    ExchangedSame(t.info, id, evicted);
    AddrFrame(t, u);
    RandomFrame(t, u);
    ExchangedTimes(t, u, id, evicted);
  }

  lemma ExchangedSame(info: map<int, Info>, id: int, evicted: int)
    requires id in info && evicted in info
    ensures SameServices(info, Exchanged(info, id, evicted)) && SamePositions(info, Exchanged(info, id, evicted))
  {
  }

  lemma ExchangedTimes(t: Tables, u: Tables, id: int, evicted: int)
    requires Timed(t) && id in t.info && evicted in t.info && t.info[id].lastSuccess != 0
    requires u.info == Exchanged(t.info, id, evicted)
    ensures Timed(u)
  {
  }

  /** `id` becomes tried, `evicted` becomes new with one reference. */
  function Exchanged(info: map<int, Info>, id: int, evicted: int): map<int, Info>
    requires id in info && evicted in info
  {
    info[evicted := info[evicted].(inTried := false, refCount := 1)][id := info[id].(refCount := 0, inTried := true)]
  }

  lemma ReplacedTried(h: Hashes, t: Tables, u: Tables, id: int, bucket: seq<int>, pos: nat)
    requires TriedPlaced(h, t) && id in t.info && !t.info[id].inTried && pos < |bucket|
    requires Reordered(t, TriedBucket(h, t.key, t.info[id]), bucket) && bucket[pos] in t.info
    requires u.key == t.key && u.info == Exchanged(t.info, id, bucket[pos])
    requires u.tried == t.tried[TriedBucket(h, t.key, t.info[id]) := bucket[pos := id]]
    ensures TriedPlaced(h, u)
  {
    var k := TriedBucket(h, t.key, t.info[id]);
    ReorderedSame(bucket, t.tried[k]);
    assert id !in t.tried[k] && id !in bucket;
    assert Distinct(u.tried[k]);
    forall b, x | 0 <= b < |u.tried| && x in u.tried[b]
      ensures x in u.info && u.info[x].inTried && TriedBucket(h, u.key, u.info[x]) == b
    {
      if b == k {
        var j :| 0 <= j < |bucket| && u.tried[k][j] == x;
        assert x == id || (bucket[j] == x && j != pos && x in t.tried[k]);
      } else {
        assert x in t.tried[b] && bucket[pos] in t.tried[k];
      }
    }
    forall x <- u.info | u.info[x].inTried ensures x in u.tried[TriedBucket(h, u.key, u.info[x])] {
      if x == id {
        assert u.tried[k][pos] == id;
      } else if x in bucket {
        var j :| 0 <= j < |bucket| && bucket[j] == x;
        assert u.tried[k][j] == x;
        assert x in t.tried[k];
      } else {
        assert x in t.tried[TriedBucket(h, t.key, t.info[x])];
      }
    }
  }

  lemma {:induction false} ReplacedNew(t: Tables, u: Tables, id: int, evicted: int, b: nat)
    requires NewPlaced(t) && RefsCounted(t, NO_ID) && NO_ID !in t.info
    requires id in t.info && !t.info[id].inTried && evicted in t.info && t.info[evicted].inTried
    requires u.info == Exchanged(t.info, id, evicted)
    requires b < |t.news| && |Without(t.news, id)[b]| < NEW_BUCKET_SIZE
    requires u.news == Without(t.news, id)[b := Without(t.news, id)[b] + {evicted}]
    ensures NewPlaced(u) && RefsCounted(u, NO_ID)
  {
    var w := Without(t.news, id);
    UprootRefs(t, id);
    assert forall c :: 0 <= c < |w| ==> |w[c]| <= |t.news[c]|;
    forall c, x | 0 <= c < |u.news| && x in u.news[c] ensures x in u.info && !u.info[x].inTried {
      assert x == evicted || (x in t.news[c] && x != id);
    }
    RefsZero(t.news, evicted);
    forall x <- u.info
      ensures u.info[x].refCount == Refs(u.news, x)
      ensures !u.info[x].inTried ==> 1 <= u.info[x].refCount <= NEW_BUCKETS_PER_ADDRESS
      ensures u.info[x].inTried ==> u.info[x].refCount == 0
    {
      assert x in t.info;
      RefsUpdate(w, b, w[b] + {evicted}, x);
    }
  }

  lemma ReplacedTallies(t: Tables, u: Tables, id: int, evicted: int)
    requires Tallied(t) && id in t.info && !t.info[id].inTried && evicted in t.info && t.info[evicted].inTried
    requires u.info == Exchanged(t.info, id, evicted) && u.nNew == t.nNew && u.nTried == t.nTried
    ensures Tallied(u)
  {
    assert forall x :: x in TriedIds(u) <==> (x in TriedIds(t) && x != evicted) || x == id;
    assert TriedIds(u) == TriedIds(t) - {evicted} + {id};
    assert NewIds(u) == NewIds(t) - {id} + {evicted};
  }
}
