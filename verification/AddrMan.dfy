/**
The address manager as the program keeps it: an object whose methods update its tables in place.
Each method is tied to the table function it carries out; what those functions keep is proved
beside them.  Random draws are unconstrained choices, reported as ghost results; only the number behind
the odds of a further reference is an argument.
*/
module AddrMan {
  import opened AddrTables
  import A = AddrTables
  import S = AddrSteps
  import C = AddrCheck
  import D = AddrDisk
  import opened AddrSelect
  import opened IntSets

  const HORIZON_DAYS := 30
  const RETRIES := 3
  const MAX_FAILURES := 10
  const MIN_FAIL_DAYS := 7

  /** Any number below `n` (or zero when there is none). */
  method GetRandInt(n: nat) returns (r: nat)
    ensures r < n || (n == 0 && r == 0)
  {
    r :| r < n || (n == 0 && r == 0);
  }

  /** Whether an entry is bad enough to be dropped. */
  predicate IsTerrible(i: Info, now: int) {
    && !(i.lastTry != 0 && i.lastTry >= now - 60)
    && (|| i.time > now + 10 * 60
        || i.time == 0 || now - i.time > HORIZON_DAYS * 86400
        || (i.lastSuccess == 0 && i.attempts >= RETRIES)
        || (now - i.lastSuccess > MIN_FAIL_DAYS * 86400 && i.attempts >= MAX_FAILURES))
  }

  /** How many members of a set come before `id` when it is walked in ascending order. */
  function Rank(s: set<int>, id: int): nat { |set x | x in s && x < id| }

  /** The least recently seen entry of a bucket among those whose rank was drawn. */
  predicate OldestDrawn(bucket: set<int>, info: map<int, Info>, draws: seq<nat>, id: int) {
    && id in bucket && Rank(bucket, id) in draws
    && (forall x <- bucket :: x in info)
    && (forall x <- bucket :: Rank(bucket, x) in draws ==> info[id].time <= info[x].time)
  }

  predicate FourDraws(size: nat, draws: seq<nat>) { |draws| == 4 && forall k :: 0 <= k < 4 ==> draws[k] < size }

  /** The entry a full bucket gives up: the first terrible one, or else the oldest drawn. */
  predicate Shed(bucket: set<int>, info: map<int, Info>, now: int, draws: seq<nat>, id: int) {
    && id in bucket && (forall x <- bucket :: x in info)
    && (if exists x <- bucket :: IsTerrible(info[x], now)
        then IsTerrible(info[id], now) && forall x <- bucket :: IsTerrible(info[x], now) ==> id <= x
        else FourDraws(|bucket|, draws) && OldestDrawn(bucket, info, draws, id))
  }

  /** A bucket that has to make room for `id` gives up the entry it sheds. */
  predicate MakesRoom(t: Tables, b: nat, id: int, now: int, draws: seq<nat>, victim: int) {
    && b < |t.news|
    && (id !in t.news[b] && |t.news[b]| == NEW_BUCKET_SIZE ==> Shed(t.news[b], t.info, now, draws, victim))
  }

  /** The entry given up by an announcement that reaches a full bucket. */
  predicate ShedsFor(h: Hashes, t: Tables, a: S.AddArgs, draws: seq<nat>, victim: int) {
    a.routable && S.GoesOn(t, a) ==>
      MakesRoom(t, S.TargetBucket(h, t, a), S.PreparedId(t, a), a.now, draws, victim)
  }

  /** When the cyclic walk over the new buckets from `start` reaches `bucket`. */
  function StepsFrom(start: int, bucket: int): int {
    if bucket >= start then bucket - start else bucket - start + NEW_BUCKET_COUNT
  }

  class AddressManager {
    const hashes: Hashes
    var key: Key
    var idCount: int
    var info: map<int, Info>
    var byAddr: map<NetAddr, int>
    var random: seq<int>
    var nTried: int
    var tried: seq<seq<int>>
    var nNew: int
    var news: seq<set<int>>

    function T(): Tables
      reads this
    {
      Tables(key, idCount, info, byAddr, random, nTried, tried, nNew, news)
    }

    constructor (h: Hashes, k: Key)
      ensures hashes == h && T() == Empty(k) && Consistent(h, T())
    {
      hashes, key, idCount, info, byAddr, random, nTried, nNew := h, k, 0, map[], map[], [], 0, 0;
      tried := seq(TRIED_BUCKET_COUNT, _ => []);
      news := seq(NEW_BUCKET_COUNT, _ => {});
      EmptyIsConsistent(h, k);
    }

    method Create(addr: Address, source: NetAddr) returns (id: int)
      modifies this
      ensures T() == A.Create(old(T()), addr, source) && id == old(idCount)
    {
      id := idCount;
      idCount := idCount + 1;
      info := info[id := Info(addr.service, addr.services, addr.time, 0, source, 0, 0, 0, false, -1)];
      byAddr := byAddr[addr.service.ip := id];
      info := info[id := info[id].(randomPos := |random|)];
      random := random + [id];
    }

    method SwapRandom(p: nat, q: nat)
      requires CanSwap(T(), p, q)
      modifies this`info, this`random
      ensures T() == A.SwapRandom(old(T()), p, q)
    {
      if p == q {
        return;
      }
      var id1, id2 := random[p], random[q];
      info := info[id1 := info[id1].(randomPos := q)];
      info := info[id2 := info[id2].(randomPos := p)];
      random := random[p := id2];
      random := random[q := id1];
    }

    /**
    Redraws the first places of a tried bucket and picks the position to replace: the draw that
    fetched the least recently successful of the inspected entries.
    */
    method SelectTried(k: nat) returns (pos: int, ghost draws: seq<nat>)
      requires k < |tried| && Known(tried[k], info)
      modifies this`tried
      ensures |tried| == |old(tried)| && BucketDraws(|old(tried)[k]|, draws)
      ensures tried == old(tried)[k := Shuffled(old(tried)[k], draws)]
      ensures pos == if old(tried)[k] == [] then -1 else Answer(old(tried)[k], info, draws)
    {
      var v;
      v, pos, draws := Inspect(tried[k], info);
      tried := tried[k := v];
    }

    /** Drops one entry from a new bucket; the entry is deleted with its last reference. */
    method ShrinkNew(b: nat, now: int, ghost pending: int)
      returns (r: int, ghost victim: int, ghost draws: seq<nat>)
      requires Inv(hashes, T(), pending) && b < |news| && news[b] != {} && pending !in news[b]
      modifies this
      ensures victim in old(news[b]) && CanMove(old(T()), victim)
      ensures Shed(old(news[b]), old(info), now, draws, victim)
      ensures r == 0 <==> exists id <- old(news[b]) :: id in old(info) && IsTerrible(old(info)[id], now)
      ensures T() == A.Unref(old(T()), b, victim) && Inv(hashes, T(), pending)
    {
      draws := [];
      NewMembers(hashes, T(), pending, b);
      var id := FirstTerrible(b, now);
      if id != -1 {
        DropReference(b, id, pending);
        return 0, id, draws;
      }
      var oldest, ns := OldestOfFour(b);
      draws := ns;
      DropReference(b, oldest, pending);
      return 1, oldest, draws;
    }

    /** Walks the bucket in order for an entry bad enough to be dropped, or -1. */
    method FirstTerrible(b: nat, now: int) returns (id: int)
      requires b < |news| && forall x <- news[b] :: x in info && x >= 0
      ensures id == -1 ==> forall x <- news[b] :: !IsTerrible(info[x], now)
      ensures id != -1 ==> id in news[b] && IsTerrible(info[id], now)
      ensures id != -1 ==> forall x <- news[b] :: IsTerrible(info[x], now) ==> id <= x
    {
      var rest := news[b];
      while rest != {}
        invariant rest <= news[b]
        invariant forall x <- news[b] - rest :: !IsTerrible(info[x], now)
        invariant forall x, y :: x in news[b] && x !in rest && y in rest ==> x < y
        decreases |rest|
      {
        id := Least(rest);
        assert id in news[b];
        if IsTerrible(info[id], now) {
          assert forall x <- news[b] :: IsTerrible(info[x], now) ==> x in rest;
          return;
        }
        rest := rest - {id};
      }
      return -1;
    }

    /** Draws four ranks and walks the bucket for the least recently seen entry among them. */
    method OldestOfFour(b: nat) returns (oldest: int, draws: seq<nat>)
      requires b < |news| && news[b] != {} && forall id <- news[b] :: id in info && id >= 0
      ensures FourDraws(|news[b]|, draws) && OldestDrawn(news[b], info, draws, oldest)
    {
      var n0 := GetRandInt(|news[b]|);
      var n1 := GetRandInt(|news[b]|);
      var n2 := GetRandInt(|news[b]|);
      var n3 := GetRandInt(|news[b]|);
      draws := [n0, n1, n2, n3];
      oldest := -1;
      var rest := news[b];
      var rank := 0;
      while rest != {}
        invariant rest <= news[b] && rank == |news[b]| - |rest|
        invariant forall id, x :: id in news[b] && id !in rest && x in rest ==> id < x
        invariant oldest == -1 ==> rank <= n0
        invariant oldest != -1 ==> oldest in news[b] && Rank(news[b], oldest) in draws
        invariant oldest != -1 ==>
                    forall x <- news[b] - rest :: Rank(news[b], x) in draws ==> info[oldest].time <= info[x].time
        invariant oldest == -1 ==> forall x <- news[b] - rest :: Rank(news[b], x) !in draws
        decreases |rest|
      {
        var id := Least(rest);
        assert (set x | x in news[b] && x < id) == news[b] - rest;
        assert rank == Rank(news[b], id);
        if rank == n0 || rank == n1 || rank == n2 || rank == n3 {
          if oldest == -1 || info[id].time < info[oldest].time {
            oldest := id;
          }
        }
        rest := rest - {id};
        rank := rank + 1;
      }
    }

    /** The common tail of both exits of `ShrinkNew`. */
    method DropReference(b: nat, id: int, ghost pending: int)
      requires Inv(hashes, T(), pending) && b < |news| && id in news[b] && id != pending
      modifies this
      ensures CanMove(old(T()), id) && T() == A.Unref(old(T()), b, id)
      ensures Inv(hashes, T(), pending)
    {
      UnrefKeeps(hashes, T(), b, id, pending);
      DropPlainly(b, id);
    }

    method DropPlainly(b: nat, id: int)
      requires RandomIndexed(T()) && b < |news| && id in news[b] && id in info
      modifies this
      ensures CanMove(old(T()), id) && T() == A.Unref(old(T()), b, id)
    {
      info := info[id := info[id].(refCount := info[id].refCount - 1)];
      if info[id].refCount == 0 {
        Delete(id);
      }
      news := news[b := news[b] - {id}];
    }

    method Delete(id: int)
      requires CanMove(T(), id) && random[info[id].randomPos] == id
      modifies this`info, this`random, this`byAddr, this`nNew
      ensures T() == A.Forget(old(T()), id)
    {
      SwapThenDrop(T(), id);
      SwapRandom(info[id].randomPos, |random| - 1);
      random := random[..|random| - 1];
      byAddr := byAddr - {info[id].service.ip};
      info := info - {id};
      nNew := nNew - 1;
    }

    /**
    Moves an entry from the new buckets to its tried bucket, evicting another entry from a full
    one.  The reference count reaches zero, and the entry evicted goes back to a new bucket.
    */
    method MakeTried(id: int, origin: nat) returns (ghost c: Choice, ghost draws: seq<nat>)
      requires Structured(hashes, T(), NO_ID) && id in info
      requires origin < |news| && id in news[origin]
      modifies this
      ensures PossibleChoice(hashes, old(T()), id, c)
      ensures T() == A.MakeTried(hashes, old(T()), id, c)
      ensures TriedFull(hashes, old(T()), id) ==>
                Selected(TriedList(hashes, old(T()), id), Uproot(old(T()), id).info, draws, c)
    {
      ghost var t := T();
      UprootReady(hashes, t, id);
      RemoveFromNew(id);
      nNew := nNew - 1;
      c, draws := Settle(id, origin);
      MakeTriedSettles(hashes, t, id, origin, c, draws, T());
    }

    method Settle(id: int, origin: nat) returns (ghost c: Choice, ghost draws: seq<nat>)
      requires Ready(T(), id) && origin < |news|
      modifies this
      ensures Settled(hashes, old(T()), id, origin, c, draws, T())
    {
      var k := TriedBucket(hashes, key, info[id]);
      c, draws := Choice(origin, [], 0), [];
      if |tried[k]| < TRIED_BUCKET_SIZE {
        tried := tried[k := tried[k] + [id]];
        nTried := nTried + 1;
        info := info[id := info[id].(inTried := true)];
        return;
      }
      var pos, ns := SelectTried(k);
      draws := ns;
      ShuffledKnown(old(tried[k]), info, draws);
      c := Choice(origin, tried[k], pos);
      Evict(k, pos, id, origin);
    }

    /** Clears an id out of every new bucket, taking one reference away for each. */
    method RemoveFromNew(id: int)
      requires id in info && info[id].refCount == Refs(news, id)
      modifies this`info, this`news
      ensures news == Without(old(news), id)
      ensures info == old(info)[id := old(info)[id].(refCount := 0)]
    {
      ghost var news0 := news;
      var b := 0;
      while b < |news|
        invariant 0 <= b <= |news| == |news0|
        invariant forall c :: 0 <= c < b ==> news[c] == news0[c] - {id}
        invariant forall c :: b <= c < |news| ==> news[c] == news0[c]
        invariant id in info && info == old(info)[id := old(info)[id].(refCount := info[id].refCount)]
        invariant info[id].refCount == Refs(news, id)
      {
        if id in news[b] {
          RefsUpdate(news, b, news[b] - {id}, id);
          news := news[b := news[b] - {id}];
          info := info[id := info[id].(refCount := info[id].refCount - 1)];
        }
        b := b + 1;
      }
      RefsZero(news, id);
    }

    method Evict(k: nat, pos: nat, id: int, origin: nat)
      requires id in info && k == TriedBucket(hashes, key, info[id]) && |tried| == TRIED_BUCKET_COUNT
      requires pos < |tried[k]| && tried[k][pos] in info && |news| == NEW_BUCKET_COUNT && origin < |news|
      modifies this
      ensures T() == ReplaceTried(hashes, old(T()), id, origin, old(tried)[k], pos)
    {
      var evicted := tried[k][pos];
      var u := NewBucket(hashes, key, info[evicted], info[evicted].source);
      info := info[evicted := info[evicted].(inTried := false, refCount := 1)];
      if |news[u]| < NEW_BUCKET_SIZE {
        news := news[u := news[u] + {evicted}];
      } else {
        news := news[origin := news[origin] + {evicted}];
      }
      nNew := nNew + 1;
      tried := tried[k := tried[k][pos := id]];
      info := info[id := info[id].(inTried := true)];
    }

    method Good_(s: Service, time: int) returns (ghost c: Choice, ghost draws: seq<nat>)
      requires Consistent(hashes, T())
      modifies this
      ensures S.GoodChoice(hashes, old(T()), s, time, c)
      ensures T() == S.Good(hashes, old(T()), s, time, c)
      ensures SelectedFor(hashes, old(T()), s, time, c, draws)
    {
      c, draws := Choice(0, [], 0), [];
      if s.ip !in byAddr || byAddr[s.ip] !in info {
        return;
      }
      var id := byAddr[s.ip];
      if info[id].service != s {
        return;
      }
      SetInfoStructured(hashes, T(), NO_ID, id, S.Seen(info[id], time));
      info := info[id := info[id].(lastSuccess := time, lastTry := time, time := U32(time), attempts := 0)];
      if info[id].inTried {
        return;
      }
      var origin := FindBucket(id);
      assert origin != -1;
      c, draws := MakeTried(id, origin);
    }

    /** Searches the new buckets from a random start. */
    method FindBucket(id: int) returns (b: int)
      requires |news| == NEW_BUCKET_COUNT
      ensures b == -1 <==> Refs(news, id) == 0
      ensures b != -1 ==> 0 <= b < |news| && id in news[b]
    {
      var start := GetRandInt(|news|);
      RefsZero(news, id);
      b := -1;
      var n := 0;
      while n < |news|
        invariant 0 <= n <= |news| && b == -1
        invariant forall c :: 0 <= c < |news| && StepsFrom(start, c) < n ==> id !in news[c]
      {
        var at := (n + start) % |news|;
        assert at == if n + start < |news| then n + start else n + start - |news|;
        if id in news[at] {
          b := at;
          break;
        }
        n := n + 1;
      }
    }

    /**
    Announces an address.  `routable` and `now` stand for the address test and the clock;
    `roll` is the random number behind the odds of a further reference.
    */
    method Add_(addr: Address, source: NetAddr, penalty: int, routable: bool, now: int, roll: nat)
      returns (isNew: bool, ghost victim: int, ghost draws: seq<nat>)
      requires Consistent(hashes, T())
      modifies this
      ensures
        var a := S.AddArgs(addr, source, penalty, now, routable, roll);
        && S.AddChoice(hashes, old(T()), a, victim)
        && T() == S.Add(hashes, old(T()), a, victim)
        && ShedsFor(hashes, old(T()), a, draws, victim)
      ensures isNew <==> routable && addr.service.ip !in old(byAddr)
    {
      isNew, victim, draws := false, NO_ID, [];
      if routable {
        if addr.service.ip in byAddr {
          victim, draws := AddKnown(byAddr[addr.service.ip], addr, source, penalty, now, roll);
        } else {
          victim, draws := AddUnknown(addr, source, penalty, now, roll);
          isNew := true;
        }
      }
    }

    method AddKnown(id: int, addr: Address, source: NetAddr, penalty: int, now: int, roll: nat)
      returns (ghost victim: int, ghost draws: seq<nat>)
      requires Consistent(hashes, T()) && S.Present(T(), addr.service.ip) && id == byAddr[addr.service.ip]
      modifies this
      ensures
        var a := S.AddArgs(addr, source, penalty, now, true, roll);
        && S.AddChoice(hashes, old(T()), a, victim)
        && T() == S.Add(hashes, old(T()), a, victim)
        && ShedsFor(hashes, old(T()), a, draws, victim)
    {
      victim, draws := NO_ID, [];
      var more := Refresh(id, addr, penalty, now, roll);
      SetInfoKeeps(hashes, old(T()), NO_ID, id, info[id]);
      if more {
        ghost var p := T();
        RaiseKeeps(hashes, p, id);
        victim, draws := Reference(id, source, now, old(T()));
        AddGoesOn(hashes, old(T()), p, S.AddArgs(addr, source, penalty, now, true, roll), id, victim, draws, T());
      }
    }

    method AddUnknown(addr: Address, source: NetAddr, penalty: int, now: int, ghost roll: nat)
      returns (ghost victim: int, ghost draws: seq<nat>)
      requires Consistent(hashes, T()) && addr.service.ip !in byAddr
      modifies this
      ensures
        var a := S.AddArgs(addr, source, penalty, now, true, roll);
        && S.AddChoice(hashes, old(T()), a, victim)
        && T() == S.Add(hashes, old(T()), a, victim)
        && ShedsFor(hashes, old(T()), a, draws, victim)
    {
      ghost var a := S.AddArgs(addr, source, penalty, now, true, roll);
      var id := EnterNew(addr, source, penalty, a);
      ghost var p := T();
      EnterKeeps(hashes, old(T()), S.Penalised(a), source);
      victim, draws := Reference(id, source, now, old(T()));
      AddGoesOn(hashes, old(T()), p, a, id, victim, draws, T());
    }

    /** The new entry, its age penalised, counted but in no bucket yet. */
    method EnterNew(addr: Address, source: NetAddr, penalty: int, ghost a: S.AddArgs) returns (id: int)
      requires addr.service.ip !in byAddr && a.addr == addr && a.source == source && a.penalty == penalty
      modifies this
      ensures id == old(idCount) == S.PreparedId(old(T()), a)
      ensures T() == Enter(old(T()), S.Penalised(a), source) == S.Prepared(old(T()), a)
    {
      id := Create(addr, source);
      info := info[id := info[id].(time := U32(S.Max(0, info[id].time - penalty)))];
      nNew := nNew + 1;
    }

    /** Updates a known entry and decides whether it earns another reference. */
    method Refresh(id: int, addr: Address, penalty: int, now: int, roll: nat) returns (more: bool)
      requires id in info
      modifies this`info
      ensures info == old(info)[id := S.Refreshed(old(info)[id], addr, penalty, now)]
      ensures more <==> S.EarnsReference(info[id], addr, roll)
    {
      var i := info[id];
      var online := now - addr.time < 24 * 60 * 60;
      var interval := if online then 60 * 60 else 24 * 60 * 60;
      if addr.time != 0 && (i.time == 0 || i.time < addr.time - interval - penalty) {
        i := i.(time := U32(S.Max(0, addr.time - penalty)));
      }
      i := i.(services := i.services + addr.services);
      info := info[id := i];
      if addr.time == 0 || (i.time != 0 && addr.time <= i.time) {
        return false;
      }
      if i.inTried {
        return false;
      }
      if i.refCount == NEW_BUCKETS_PER_ADDRESS {
        return false;
      }
      var factor := 1;
      var n := 0;
      while n < i.refCount
        invariant 0 <= n && (n > 0 ==> n <= i.refCount) && factor == S.Odds(n)
      {
        factor := factor * 2;
        n := n + 1;
      }
      more := true;
      if factor > 1 {
        more := roll % factor == 0;
      }
    }

    /** Places a reference to `id` in the bucket its source selects, shrinking a full bucket first. */
    method Reference(id: int, source: NetAddr, now: int, ghost before: Tables)
      returns (ghost victim: int, ghost draws: seq<nat>)
      requires SameBeside(before, T(), id) && id in info && |news| == NEW_BUCKET_COUNT
      requires id !in news[NewBucket(hashes, key, info[id], source)] ==> Inv(hashes, Raise(T(), id), id)
      modifies this
      ensures
        var b := NewBucket(hashes, old(key), old(info)[id], source);
        && S.PossibleVictim(old(T()), b, id, victim)
        && T() == S.Insert(old(T()), b, id, victim)
        && MakesRoom(before, b, id, now, draws, victim)
    {
      victim, draws := NO_ID, [];
      var b := NewBucket(hashes, key, info[id], source);
      if id !in news[b] {
        info := info[id := info[id].(refCount := info[id].refCount + 1)];
        victim, draws := MakeRoom(b, now, id, before);
        news := news[b := news[b] + {id}];
      }
    }

    method MakeRoom(b: nat, now: int, ghost pending: int, ghost before: Tables)
      returns (ghost victim: int, ghost draws: seq<nat>)
      requires Inv(hashes, T(), pending) && b < |news| && pending !in news[b] && SameBeside(before, T(), pending)
      modifies this
      ensures
        if |old(news)[b]| == NEW_BUCKET_SIZE
        then victim in old(news)[b] && CanMove(old(T()), victim) && T() == A.Unref(old(T()), b, victim)
        else T() == old(T())
      ensures MakesRoom(before, b, pending, now, draws, victim)
    {
      victim, draws := NO_ID, [];
      if |news[b]| == NEW_BUCKET_SIZE {
        var r;
        ghost var t := T();
        NewMembers(hashes, t, pending, b);
        r, victim, draws := ShrinkNew(b, now, pending);
        ShedSame(before, t, b, pending, now, draws, victim);
      }
    }

    /** Hands out a random part of the addresses: all different, and as many as the caps allow. */
    method GetAddr_() returns (addrs: seq<Address>, ghost draws: seq<nat>)
      requires Consistent(hashes, T())
      modifies this`info, this`random
      ensures S.PossibleDraws(|old(random)|, draws) && |draws| == S.NodeCount(|old(random)|)
      ensures T() == S.Shuffle(old(T()), draws)
      ensures |addrs| == S.NodeCount(|random|)
      ensures S.Drawn(T(), addrs)
      ensures forall m, n :: 0 <= m < n < |addrs| ==> addrs[m].service.ip != addrs[n].service.ip
    {
      var nodes := S.NodeCount(|random|);
      addrs, draws := [], [];
      ghost var t := T();
      var n := 0;
      while n < nodes
        invariant 0 <= n <= nodes && n == |draws| && S.HandedOut(t, T(), draws, addrs)
      {
        var draw := GetRandInt(|random| - n);
        var p := draw + n;
        S.HandOutOne(t, T(), draws, addrs, p);
        draws := draws + [p];
        SwapRandom(n, p);
        addrs := addrs + [S.AddressOf(info[random[n]])];
        n := n + 1;
      }
      S.ShuffleMoves(t, draws);
      S.DrawnAreDistinct(hashes, t, T(), addrs);
    }

    /** The debug check; on consistent tables it finds nothing and changes nothing. */
    method Check_() returns (err: int)
      modifies this`byAddr
      ensures err == 0 <==> C.Passes(old(T()))
      ensures Consistent(hashes, old(T())) ==> err == 0 && T() == old(T())
    {
      if Consistent(hashes, T()) {
        C.ConsistentPasses(hashes, T());
      }
      err, byAddr := C.Check(T());
    }

    method Serialize() returns (d: D.Disk)
      ensures Consistent(hashes, T()) ==> d == D.Encode(T())
    {
      d := D.Write(hashes, T());
    }

    method Unserialize(d: D.Disk)
      modifies this
      ensures T() == D.Read(hashes, d)
    {
      var t := D.ReadTables(hashes, d);
      key, idCount, info, byAddr, random := t.key, t.idCount, t.info, t.byAddr, t.random;
      nTried, tried, nNew, news := t.nTried, t.tried, t.nNew, t.news;
    }

    method Attempt_(s: Service, time: int)
      modifies this
      ensures T() == S.Attempt(old(T()), s, time)
    {
      if s.ip in byAddr && byAddr[s.ip] in info {
        var id := byAddr[s.ip];
        if info[id].service == s {
          info := info[id := info[id].(lastTry := time)];
          info := info[id := info[id].(attempts := info[id].attempts + 1)];
        }
      }
    }

    method Connected_(s: Service, time: int)
      modifies this
      ensures T() == S.Connected(old(T()), s, time)
    {
      if s.ip in byAddr && byAddr[s.ip] in info {
        var id := byAddr[s.ip];
        if info[id].service == s && time - info[id].time > 20 * 60 {
          info := info[id := info[id].(time := U32(time))];
        }
      }
    }
  }

  method Inspect(bucket: seq<int>, info: map<int, Info>)
    returns (v: seq<int>, pos: int, ghost draws: seq<nat>)
    requires Known(bucket, info)
    ensures BucketDraws(|bucket|, draws) && v == Shuffled(bucket, draws)
    ensures pos == if bucket == [] then -1 else Answer(bucket, info, draws)
  {
    v := bucket;
    var oldest := -1;
    pos, draws := -1, [];
    var n := 0;
    while n < TRIED_ENTRIES_INSPECT_ON_EVICT && n < |v|
      invariant 0 <= n <= TRIED_ENTRIES_INSPECT_ON_EVICT && n <= |v| == |bucket| && |draws| == n
      invariant Looked(bucket, info, draws, v, oldest, pos)
    {
      var draw := GetRandInt(|v| - n);
      var p := draw + n;
      LookOnce(bucket, info, draws, v, oldest, pos, p);
      draws := draws + [p];
      var temp := v[p];
      ghost var w := Swapped(v, n, p);
      v := v[p := v[n]][n := temp];
      assert v == w;
      if oldest == -1 || info[temp].lastSuccess < info[oldest].lastSuccess {
        oldest := temp;
        pos := p;
      }
      n := n + 1;
    }
    LookedAnswers(bucket, info, draws, v, oldest, pos);
  }

  /** Two states of the tables, with the same new buckets and the same entries but for `id`. */
  predicate SameBeside(t: Tables, u: Tables, id: int) {
    && t.news == u.news
    && (forall x <- u.info :: x != id ==> x in t.info && u.info[x] == t.info[x])
  }

  /** What a bucket sheds does not depend on an entry outside it. */
  lemma ShedSame(t: Tables, u: Tables, b: nat, id: int, now: int, draws: seq<nat>, victim: int)
    requires MakesRoom(u, b, id, now, draws, victim) && SameBeside(t, u, id)
    requires forall x <- u.news[b] :: x in u.info
    ensures MakesRoom(t, b, id, now, draws, victim)
  {
  }

  /** Prepared tables with a reference placed are what an announcement that goes on leaves. */
  lemma AddGoesOn(h: Hashes, t: Tables, p: Tables, a: S.AddArgs, id: int, victim: int, draws: seq<nat>, u: Tables)
    requires a.routable && S.GoesOn(t, a) && p == S.Prepared(t, a) && id == S.PreparedId(t, a) && id in p.info
    requires
      var b := NewBucket(h, p.key, p.info[id], a.source);
      && S.PossibleVictim(p, b, id, victim) && u == S.Insert(p, b, id, victim)
      && MakesRoom(t, b, id, a.now, draws, victim)
    ensures S.AddChoice(h, t, a, victim) && u == S.Add(h, t, a, victim) && ShedsFor(h, t, a, draws, victim)
  {
  }

  /** Swapping an entry to the end of the random order and dropping it there is what `Forget` does at once. */
  lemma SwapThenDrop(t: Tables, id: int)
    requires CanMove(t, id) && t.random[t.info[id].randomPos] == id
    ensures
      var s := A.SwapRandom(t, t.info[id].randomPos, |t.random| - 1);
      Forget(t, id) == s.(random := s.random[..|s.random| - 1], byAddr := s.byAddr - {s.info[id].service.ip},
      info := s.info - {id}, nNew := s.nNew - 1)
  {
    var p := t.info[id].randomPos;
    var last := |t.random| - 1;
    var s := A.SwapRandom(t, p, last);
    assert s.random[..last] == t.random[p := t.random[last]][..last];
    assert s.info - {id} == Forget(t, id).info;
  }

  /** What `Settle` needs of the tables. */
  predicate Ready(t: Tables, id: int) {
    && id in t.info && |t.tried| == TRIED_BUCKET_COUNT && |t.news| == NEW_BUCKET_COUNT
    && forall b :: 0 <= b < |t.tried| ==> Known(t.tried[b], t.info)
  }

  /** The tried bucket that an entry belongs to. */
  function TriedList(h: Hashes, t: Tables, id: int): seq<int>
    requires id in t.info && |t.tried| == TRIED_BUCKET_COUNT
  {
    t.tried[TriedBucket(h, t.key, t.info[id])]
  }

  /** The entry that a promotion evicts is the one its draws select. */
  predicate SelectedFor(h: Hashes, t: Tables, s: Service, time: int, c: Choice, draws: seq<nat>)
    requires S.GoodChoice(h, t, s, time, c)
  {
    S.Known(t, s) && !t.info[t.byAddr[s.ip]].inTried ==>
      var m, id := S.MarkSeen(t, s, time), t.byAddr[s.ip];
      TriedFull(h, m, id) ==> Selected(TriedList(h, m, id), Uproot(m, id).info, draws, c)
  }

  /** How the tables `u` come from `t`: the entry is placed, or takes the place the draws select. */
  predicate Settled(h: Hashes, t: Tables, id: int, origin: nat, c: Choice, draws: seq<nat>, u: Tables)
    requires Ready(t, id) && origin < |t.news|
  {
    && c.origin == origin
    && if TriedFull(h, t, id)
       then
         && Selected(TriedList(h, t, id), t.info, draws, c)
         && c.pos < |c.bucket| && c.bucket[c.pos] in t.info
         && u == ReplaceTried(h, t, id, origin, c.bucket, c.pos)
       else u == PlaceTried(h, t, id)
  }

  lemma UprootReady(h: Hashes, t: Tables, id: int)
    requires Structured(h, t, NO_ID) && id in t.info
    ensures t.info[id].refCount == Refs(t.news, id) && Ready(t, id) && Ready(Uproot(t, id), id)
  {
    TriedMembers(h, t);
  }

  lemma MakeTriedSettles(h: Hashes, t: Tables, id: int, origin: nat, c: Choice, draws: seq<nat>, u: Tables)
    requires Ready(t, id) && Ready(Uproot(t, id), id) && origin < |t.news| && id in t.news[origin]
    requires Settled(h, Uproot(t, id), id, origin, c, draws, u)
    ensures PossibleChoice(h, t, id, c) && u == A.MakeTried(h, t, id, c)
    ensures TriedFull(h, t, id) ==> Selected(TriedList(h, t, id), Uproot(t, id).info, draws, c)
  {
  }

  lemma TriedMembers(h: Hashes, t: Tables)
    requires Structured(h, t, NO_ID)
    ensures forall b :: 0 <= b < |t.tried| ==> Known(t.tried[b], t.info)
  {
    forall b, j | 0 <= b < |t.tried| && 0 <= j < |t.tried[b]| ensures t.tried[b][j] in t.info && t.tried[b][j] >= 0 {
      var id := t.tried[b][j];
      assert id in t.tried[b];
      assert id in t.info;
    }
  }
}
