/**
What each operation of the address manager does to the entry it is about, to the buckets and to all
other entries, told in the fields themselves.
*/
module AddrEffects {
  import opened AddrTables
  import opened AddrSteps
  import M = AddrMan

  /** A number of seconds as the 32-bit field keeps it, never negative. */
  predicate Keeps(time: nat, x: int) { if x <= 0 then time == 0 else time == x % 0x1_0000_0000 }

  /** Two entries that differ at most in their place in the random order. */
  predicate Alike(a: Info, b: Info) {
    && a.service == b.service && a.services == b.services && a.time == b.time && a.lastTry == b.lastTry
    && a.source == b.source && a.lastSuccess == b.lastSuccess && a.attempts == b.attempts
    && a.refCount == b.refCount && a.inTried == b.inTried
  }

  // ---------------------------------------------------------------- an announcement

  /** The reference goes into the bucket that the address and the announcing source select. */
  lemma ReferenceLands(h: Hashes, t: Tables, a: AddArgs, victim: int)
    requires Consistent(h, t) && AddChoice(h, t, a, victim) && a.routable && GoesOn(t, a)
    ensures PreparedId(t, a) in Add(h, t, a, victim).news[h.news(t.key, a.addr.service.ip, a.source) % 256]
  {
  }

  /** One bucket after a reference to `id` was placed in it. */
  function Filled(bucket: set<int>, id: int, victim: int): set<int> {
    if id in bucket then bucket else if |bucket| == 64 then bucket - {victim} + {id} else bucket + {id}
  }

  lemma InsertFills(t: Tables, b: nat, id: int, victim: int)
    requires PossibleVictim(t, b, id, victim)
    ensures
      var u := Insert(t, b, id, victim);
      u.tried == t.tried && u.key == t.key && u.nTried == t.nTried && u.idCount == t.idCount
      && u.news == t.news[b := Filled(t.news[b], id, victim)]
  {
  }

  lemma PreparedFrame(h: Hashes, t: Tables, a: AddArgs)
    requires Consistent(h, t)
    ensures
      var p, id := Prepared(t, a), PreparedId(t, a);
      p.tried == t.tried && p.key == t.key && p.nTried == t.nTried && p.news == t.news
      && id in p.info && p.info[id].service.ip == a.addr.service.ip
      && TargetBucket(h, t, a) == h.news(t.key, a.addr.service.ip, a.source) % 256
  {
  }

  /** A bucket with room takes the reference, a full one gives up one entry for it; no other bucket changes. */
  lemma AddFills(h: Hashes, t: Tables, a: AddArgs, victim: int, id: int, b: nat)
    requires Consistent(h, t) && AddChoice(h, t, a, victim)
    requires id == PreparedId(t, a) && b == h.news(t.key, a.addr.service.ip, a.source) % 256
    ensures
      var u := Add(h, t, a, victim);
      u.tried == t.tried && u.key == t.key
      && u.news == if a.routable && GoesOn(t, a) then t.news[b := Filled(t.news[b], id, victim)] else t.news
  {
    PreparedFrame(h, t, a);
    if a.routable && GoesOn(t, a) {
      InsertFills(Prepared(t, a), b, id, victim);
    }
  }

  /** An entry after a reference was placed: the one it is for is counted, and the one given up loses a reference
      or goes with its last one. */
  lemma {:induction false} InsertEntries(h: Hashes, t: Tables, b: nat, id: int, victim: int, x: int)
    requires AddrIndexed(t) && RandomIndexed(t) && PossibleVictim(t, b, id, victim) && x in t.info
    ensures
      var u := Insert(t, b, id, victim);
      var added := id !in t.news[b];
      var lost := added && |t.news[b]| == 64 && x == victim;
      (x in u.info <==> !(lost && t.info[x].refCount == 1))
      && (x in u.info ==>
            Alike(u.info[x], t.info[x].(refCount := t.info[x].refCount + (if added && x == id then 1 else 0) - (if lost then 1 else 0))))
  {
    if id !in t.news[b] {
      var r := Raise(t, id);
      CountSame(t.info, id, t.info[id].refCount + 1);
      AddrFrame(t, r);
      RandomFrame(t, r);
      if |t.news[b]| == NEW_BUCKET_SIZE {
        UnrefIndexes(r, b, victim);
        UnrefEntry(r, b, victim, x);
      }
    }
  }

  lemma UnrefEntry(t: Tables, b: nat, id: int, x: int)
    requires CanMove(t, id) && b < |t.news| && Unrefed(t, Unref(t, b, id), b, id) && x in t.info
    ensures
      var u := Unref(t, b, id);
      (x in u.info <==> !(x == id && t.info[x].refCount == 1))
      && (x in u.info ==> Alike(u.info[x], t.info[x].(refCount := t.info[x].refCount - (if x == id then 1 else 0))))
  {
    var u := Unref(t, b, id);
    if x in u.info {
      assert Still(u.info[x]).(refCount := 0) == Still(t.info[x]).(refCount := 0);
    }
  }

  /** An unknown address becomes an entry with the announced data, its age penalised, and one reference. */
  lemma {:induction false} UnknownEnters(h: Hashes, t: Tables, a: AddArgs, victim: int)
    requires Consistent(h, t) && AddChoice(h, t, a, victim) && a.routable && a.addr.service.ip !in t.byAddr
    ensures
      var u, id := Add(h, t, a, victim), t.idCount;
      u.idCount == id + 1 && a.addr.service.ip in u.byAddr && u.byAddr[a.addr.service.ip] == id && id in u.info
      && var i := u.info[id];
         && i.service == a.addr.service && i.services == a.addr.services && i.source == a.source
         && Keeps(i.time, a.addr.time - a.penalty)
         && i.lastTry == 0 && i.lastSuccess == 0 && i.attempts == 0 && i.refCount == 1 && !i.inTried
  {
    var p, b, id := Prepared(t, a), TargetBucket(h, t, a), t.idCount;
    UnknownPrepared(t, a, id);
    EntersIndexed(h, t, a);
    NotYetPlaced(t, id);
    InsertEntries(h, p, b, id, victim, id);
    InsertFills(p, b, id, victim);
    AddKeeps(h, t, a, victim);
    EntryIsIndexed(h, Add(h, t, a, victim), id);
  }

  lemma UnknownPrepared(t: Tables, a: AddArgs, id: int)
    requires a.addr.service.ip !in t.byAddr && id == t.idCount
    ensures
      var p := Prepared(t, a);
      && PreparedId(t, a) == id && GoesOn(t, a) && p.idCount == id + 1 && p.news == t.news && id in p.info
      && var i := p.info[id];
         && i.service == a.addr.service && i.services == a.addr.services && i.source == a.source
         && Keeps(i.time, a.addr.time - a.penalty)
         && i.lastTry == 0 && i.lastSuccess == 0 && i.attempts == 0 && i.refCount == 0 && !i.inTried
  {
  }

  lemma EntryIsIndexed(h: Hashes, u: Tables, id: int)
    requires Consistent(h, u) && id in u.info
    ensures u.info[id].service.ip in u.byAddr && u.byAddr[u.info[id].service.ip] == id
  {
  }

  lemma {:induction false} EntersIndexed(h: Hashes, t: Tables, a: AddArgs)
    requires Consistent(h, t) && !Present(t, a.addr.service.ip)
    ensures AddrIndexed(Prepared(t, a)) && RandomIndexed(Prepared(t, a))
  {
    var p := Prepared(t, a);
    assert a.addr.service.ip !in t.byAddr;
    EnterIndexes(t, Penalised(a), a.source);
    var r := Raise(p, t.idCount);
    CountSame(p.info, t.idCount, 1);
    assert p.info.Keys == r.info.Keys;
    AddrFrame(r, p);
    RandomFrame(r, p);
  }

  /** A repeated announcement adds its services and, if it is recent enough, its time; nothing else of the entry
      changes but the count. */
  lemma {:induction false} KnownRefreshed(h: Hashes, t: Tables, a: AddArgs, victim: int, id: int, i: Info)
    requires Consistent(h, t) && AddChoice(h, t, a, victim) && a.routable
    requires a.addr.service.ip in t.byAddr && id == t.byAddr[a.addr.service.ip] && i == t.info[id]
    ensures
      var u := Add(h, t, a, victim);
      id in u.info
      && var e, age := u.info[id], a.now - a.addr.time;
         && Alike(e, i.(services := i.services + a.addr.services, time := e.time, refCount := e.refCount))
         && (if a.addr.time != 0 && (i.time == 0 || a.addr.time - i.time > a.penalty + if age < 86400 then 3600 else 86400)
             then Keeps(e.time, a.addr.time - a.penalty) else e.time == i.time)
         && (GoesOn(t, a) <==> (&& a.addr.time != 0 && (e.time == 0 || e.time < a.addr.time) && !i.inTried
                                && Lucky(i.refCount, a.roll)))
         && e.refCount == i.refCount +
                          if GoesOn(t, a) && id !in t.news[h.news(t.key, a.addr.service.ip, a.source) % 256] then 1 else 0
  {
    var p := Prepared(t, a);
    PreparedIndexed(h, t, a);
    PreparedFrame(h, t, a);
    RefreshedIs(i, a.addr, a.penalty, a.now);
    if GoesOn(t, a) {
      InsertEntries(h, p, TargetBucket(h, t, a), id, victim, id);
    }
    if !i.inTried {
      LuckyWhen(i.refCount, a.roll);
    }
  }

  lemma RefreshedIs(i: Info, addr: Address, penalty: int, now: int)
    ensures
      var e, age := Refreshed(i, addr, penalty, now), now - addr.time;
      && e == i.(services := i.services + addr.services, time := e.time)
      && (if addr.time != 0 && (i.time == 0 || addr.time - i.time > penalty + if age < 86400 then 3600 else 86400)
          then Keeps(e.time, addr.time - penalty) else e.time == i.time)
  {
  }

  lemma {:induction false} PreparedIndexed(h: Hashes, t: Tables, a: AddArgs)
    requires Consistent(h, t)
    ensures AddrIndexed(Prepared(t, a)) && RandomIndexed(Prepared(t, a))
  {
    if Present(t, a.addr.service.ip) {
      var p, id := Prepared(t, a), PreparedId(t, a);
      SetInfoStructured(h, t, NO_ID, id, p.info[id]);
    } else {
      EntersIndexed(h, t, a);
    }
  }

  /** One chance in two, four or eight after the first, second or third reference, and none after the fourth. */
  predicate Lucky(refs: int, roll: nat) {
    (refs == 1 && roll % 2 == 0) || (refs == 2 && roll % 4 == 0) || (refs == 3 && roll % 8 == 0)
  }

  lemma LuckyWhen(refs: int, roll: nat)
    requires 1 <= refs <= 4
    ensures refs != NEW_BUCKETS_PER_ADDRESS && roll % Odds(refs) == 0 <==> Lucky(refs, roll)
  {
    OddsAre(refs);
  }

  lemma OddsAre(refs: int)
    ensures refs == 1 ==> Odds(refs) == 2
    ensures refs == 2 ==> Odds(refs) == 4
    ensures refs == 3 ==> Odds(refs) == 8
  {
    assert Odds(0) == 1 && Odds(1) == 2 && Odds(2) == 4;
  }

  /** No other entry changes, but that the one given up loses a reference or goes with its last one. */
  lemma {:induction false} OthersStay(h: Hashes, t: Tables, a: AddArgs, victim: int, x: int, b: nat)
    requires Consistent(h, t) && AddChoice(h, t, a, victim) && x in t.info && x != PreparedId(t, a)
    requires b == h.news(t.key, a.addr.service.ip, a.source) % 256
    ensures
      var u, id := Add(h, t, a, victim), PreparedId(t, a);
      var lost := a.routable && GoesOn(t, a) && id !in t.news[b] && |t.news[b]| == 64 && x == victim;
      (x in u.info <==> !(lost && t.info[x].refCount == 1))
      && (x in u.info ==> Alike(u.info[x], t.info[x].(refCount := t.info[x].refCount - if lost then 1 else 0)))
  {
    PreparedIndexed(h, t, a);
    PreparedFrame(h, t, a);
    assert x in Prepared(t, a).info && Prepared(t, a).info[x] == t.info[x];
    if a.routable && GoesOn(t, a) {
      InsertEntries(h, Prepared(t, a), b, PreparedId(t, a), victim, x);
    }
  }

  // ---------------------------------------------------------------- a success, an attempt, a sighting

  /** Success against a known service: its statistics are set and it stands in its tried bucket only. */
  lemma {:induction false} SuccessPromotes(h: Hashes, t: Tables, s: Service, time: int, c: Choice, id: int)
    requires Consistent(h, t) && GoodChoice(h, t, s, time, c) && time > 0
    requires s.ip in t.byAddr && id == t.byAddr[s.ip] && t.info[id].service == s
    ensures
      var u := Good(h, t, s, time, c);
      && id in u.info
      && Alike(u.info[id], t.info[id].(lastSuccess := time, lastTry := time, time := time % 0x1_0000_0000,
                                       attempts := 0, refCount := 0, inTried := true))
      && |u.tried| == 64 && id in u.tried[h.tried(t.key, s) % 64]
      && (forall b :: 0 <= b < |u.news| ==> id !in u.news[b])
  {
    GoodKeeps(h, t, s, time, c);
    SuccessFields(h, t, s, time, c, id);
    PlacedAsTried(h, Good(h, t, s, time, c), id);
  }

  lemma SuccessFields(h: Hashes, t: Tables, s: Service, time: int, c: Choice, id: int)
    requires Consistent(h, t) && GoodChoice(h, t, s, time, c)
    requires s.ip in t.byAddr && id == t.byAddr[s.ip] && t.info[id].service == s
    ensures
      var u := Good(h, t, s, time, c);
      && u.key == t.key && id in u.info
      && Alike(u.info[id], t.info[id].(lastSuccess := time, lastTry := time, time := time % 0x1_0000_0000,
                                       attempts := 0, refCount := 0, inTried := true))
  {
    if !t.info[id].inTried {
      var m := MarkSeen(t, s, time);
      if TriedFull(h, m, id) {
        EvictedIsTried(h, t, TriedBucket(h, m.key, m.info[id]), c);
      }
      PromotedFields(h, m, id, c);
    }
  }

  lemma EvictedIsTried(h: Hashes, t: Tables, k: nat, c: Choice)
    requires TriedPlaced(h, t) && k < 64 && Reordered(t, k, c.bucket) && c.pos < |c.bucket|
    ensures c.bucket[c.pos] in t.info && t.info[c.bucket[c.pos]].inTried
  {
    var out := c.bucket[c.pos];
    ReorderedSame(c.bucket, t.tried[k]);
    assert out in c.bucket;
    assert out in t.tried[k];
  }

  lemma PromotedFields(h: Hashes, t: Tables, id: int, c: Choice)
    requires PossibleChoice(h, t, id, c) && (TriedFull(h, t, id) ==> c.bucket[c.pos] != id)
    ensures
      var u := MakeTried(h, t, id, c);
      u.key == t.key && id in u.info && Alike(u.info[id], t.info[id].(refCount := 0, inTried := true))
  {
  }

  lemma PlacedAsTried(h: Hashes, u: Tables, id: int)
    requires Consistent(h, u) && id in u.info && u.info[id].inTried
    ensures |u.tried| == 64 && id in u.tried[h.tried(u.key, u.info[id].service) % 64]
    ensures forall b :: 0 <= b < |u.news| ==> id !in u.news[b]
  {
  }

  /** A tried bucket with room takes the entry at its end; nothing else moves. */
  lemma PromotedToRoom(h: Hashes, t: Tables, s: Service, time: int, c: Choice, id: int, k: nat)
    requires Consistent(h, t) && GoodChoice(h, t, s, time, c) && Known(t, s) && id == t.byAddr[s.ip]
    requires k == h.tried(t.key, s) % 64 && !t.info[id].inTried && |t.tried[k]| < 64
    ensures
      var u := Good(h, t, s, time, c);
      && u.tried == t.tried[k := t.tried[k] + [id]]
      && |u.news| == |t.news| && (forall b :: 0 <= b < |t.news| ==> u.news[b] == t.news[b] - {id})
      && u.info.Keys == t.info.Keys && (forall x <- t.info :: x != id ==> u.info[x] == t.info[x])
  {
  }

  /** A full tried bucket exchanges one entry for the promoted one.  The entry evicted is new again, with one
      reference, in the bucket that its own source selects if that has room, or else in the one that the
      promoted entry was found in. */
  lemma {:induction false} PromotedByEviction(h: Hashes, t: Tables, s: Service, time: int, c: Choice, id: int, k: nat, out: int, o: nat)
    requires Consistent(h, t) && GoodChoice(h, t, s, time, c) && Known(t, s) && id == t.byAddr[s.ip]
    requires k == h.tried(t.key, s) % 64 && !t.info[id].inTried && |t.tried[k]| == 64
    requires c.pos < |c.bucket| && out == c.bucket[c.pos] && out in t.info
    requires o == h.news(t.key, t.info[out].service.ip, t.info[out].source) % 256
    ensures
      var u := Good(h, t, s, time, c);
      var to := if |t.news[o] - {id}| < 64 then o else c.origin;
      && id in t.news[c.origin] && multiset(c.bucket) == multiset(t.tried[k])
      && u.tried == t.tried[k := c.bucket[c.pos := id]]
      && |u.news| == |t.news|
      && (forall b :: 0 <= b < |t.news| ==> u.news[b] == t.news[b] - {id} + if b == to then {out} else {})
      && u.info.Keys == t.info.Keys
      && (forall x <- t.info :: x != id ==>
            u.info[x] == if x == out then t.info[x].(inTried := false, refCount := 1) else t.info[x])
  {
    var m := MarkSeen(t, s, time);
    EvictedIsTried(h, t, k, c);
    var b := EvictionBucket(h, Uproot(m, id), out, c.origin);
    EvictedTo(h, t, m, id, out, c.origin, o);
    ReplaceIsExchange(h, m, id, c.origin, c.bucket, c.pos);
    ExchangeDoes(h, t, m, id, c.bucket, c.pos, b, k);
  }

  lemma EvictedTo(h: Hashes, t: Tables, m: Tables, id: int, out: int, origin: nat, o: nat)
    requires |t.news| == 256 && origin < 256 && id in t.info && out in t.info && out != id
    requires m.key == t.key && m.news == t.news && id in m.info && out in m.info && m.info[out] == t.info[out]
    requires o == h.news(t.key, t.info[out].service.ip, t.info[out].source) % 256
    ensures EvictionBucket(h, Uproot(m, id), out, origin) == if |t.news[o] - {id}| < 64 then o else origin
  {
  }

  lemma ExchangeDoes(h: Hashes, t: Tables, m: Tables, id: int, bucket: seq<int>, pos: nat, b: nat, k: nat)
    requires id in t.info && pos < |bucket| && bucket[pos] in t.info && bucket[pos] != id
    requires |t.tried| == TRIED_BUCKET_COUNT && b < |t.news| && k < 64
    requires m == t.(info := m.info) && id in m.info && m.info == t.info[id := m.info[id]]
    requires k == TriedBucket(h, m.key, m.info[id])
    ensures
      var u, out := Exchange(h, m, id, bucket, pos, b), bucket[pos];
      && u.tried == t.tried[k := bucket[pos := id]]
      && |u.news| == |t.news|
      && (forall c :: 0 <= c < |t.news| ==> u.news[c] == t.news[c] - {id} + if c == b then {out} else {})
      && u.info.Keys == t.info.Keys
      && (forall x <- t.info :: x != id ==>
            u.info[x] == if x == out then t.info[x].(inTried := false, refCount := 1) else t.info[x])
  {
  }

  /** Without a new entry of exactly this service, nothing is promoted; another port is another service. */
  lemma NothingToPromote(h: Hashes, t: Tables, s: Service, time: int, c: Choice)
    requires Consistent(h, t) && GoodChoice(h, t, s, time, c)
    requires s.ip !in t.byAddr || t.info[t.byAddr[s.ip]].service != s || t.info[t.byAddr[s.ip]].inTried
    ensures
      var u := Good(h, t, s, time, c);
      && u.tried == t.tried && u.news == t.news && u.info.Keys == t.info.Keys
      && (forall x <- t.info :: t.info[x].service != s ==> u.info[x] == t.info[x])
  {
  }

  /** An attempt sets its time and counts, for exactly this service. */
  lemma AttemptCounts(h: Hashes, t: Tables, s: Service, time: int, x: int)
    requires Consistent(h, t) && x in t.info
    ensures
      var u := Attempt(t, s, time);
      u == t.(info := u.info) && u.info.Keys == t.info.Keys
      && u.info[x] == if t.info[x].service == s then t.info[x].(lastTry := time, attempts := t.info[x].attempts + 1)
                      else t.info[x]
  {
  }

  /** A sighting moves the time of exactly this service, and only by more than twenty minutes. */
  lemma SightingMoves(h: Hashes, t: Tables, s: Service, time: int, x: int)
    requires Consistent(h, t) && x in t.info
    ensures
      var u := Connected(t, s, time);
      u == t.(info := u.info) && u.info.Keys == t.info.Keys
      && u.info[x] == if t.info[x].service == s && time > t.info[x].time + 1200 then t.info[x].(time := time % 0x1_0000_0000)
                      else t.info[x]
  {
  }

  /** At most 2500 addresses go out, and at most 23 in a hundred; no smaller number would do. */
  lemma HandedOutCount(size: nat)
    ensures
      var n := NodeCount(size);
      n <= 2500 && 100 * n <= 23 * size && (n < 2500 ==> 23 * size < 100 * n + 100)
  {
  }

  /** Each draw exchanges the next place with the place drawn. */
  lemma DrawExchanges(t: Tables, draws: seq<nat>, p: nat)
    requires RandomIndexed(t) && PossibleDraws(|t.random|, draws) && |draws| <= p < |t.random|
    ensures
      var was, now := Shuffle(t, draws).random, Shuffle(t, draws + [p]).random;
      && |was| == |now| == |t.random| && now[|draws|] == was[p] && now[p] == was[|draws|]
      && forall k :: 0 <= k < |was| && k != p && k != |draws| ==> now[k] == was[k]
  {
    ShuffleMoves(t, draws);
    ShuffleMore(t, draws, p);
  }

  /** When an entry may be dropped: never within a minute of an attempt; otherwise when its time lies more than
      ten minutes ahead or thirty days back, after three attempts without any success, and after ten attempts
      without success for a week. */
  lemma TerribleWhen(i: Info, now: int)
    ensures
      var age := now - i.time;
      M.IsTerrible(i, now) <==>
        && (i.lastTry == 0 || now - i.lastTry > 60)
        && (|| age < -600 || age > 2592000 || i.time == 0
            || (i.attempts >= 3 && i.lastSuccess == 0)
            || (i.attempts >= 10 && now - i.lastSuccess > 604800))
  {
  }
}
