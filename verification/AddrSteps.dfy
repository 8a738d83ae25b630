/**
The public operations of the address manager as steps between table states, and the proof that
no run of them, under any hashes and any random choices, leaves the consistent states.
*/
module AddrSteps {
  import opened AddrTables

  const GETADDR_MAX_PCT := 23
  const GETADDR_MAX := 2500

  predicate Known(t: Tables, s: Service) {
    s.ip in t.byAddr && t.byAddr[s.ip] in t.info && t.info[t.byAddr[s.ip]].service == s
  }

  function Seen(i: Info, time: int): Info {
    i.(lastSuccess := time, lastTry := time, time := U32(time), attempts := 0)
  }

  /** The tables once the statistics of a successful connection are recorded. */
  function MarkSeen(t: Tables, s: Service, time: int): Tables
    requires Known(t, s)
  {
    SetInfo(t, t.byAddr[s.ip], Seen(t.info[t.byAddr[s.ip]], time))
  }

  predicate GoodChoice(h: Hashes, t: Tables, s: Service, time: int, c: Choice) {
    Known(t, s) && !t.info[t.byAddr[s.ip]].inTried ==> PossibleChoice(h, MarkSeen(t, s, time), t.byAddr[s.ip], c)
  }

  function Good(h: Hashes, t: Tables, s: Service, time: int, c: Choice): Tables
    requires GoodChoice(h, t, s, time, c)
  {
    if !Known(t, s) then t
    else
      var id := t.byAddr[s.ip];
      if t.info[id].inTried then MarkSeen(t, s, time)
      else MakeTried(h, MarkSeen(t, s, time), id, c)
  }

  function Attempt(t: Tables, s: Service, time: int): Tables {
    if !Known(t, s) then t
    else
      var id := t.byAddr[s.ip];
      SetInfo(t, id, t.info[id].(lastTry := time, attempts := t.info[id].attempts + 1))
  }

  function Connected(t: Tables, s: Service, time: int): Tables {
    if !Known(t, s) then t
    else
      var id := t.byAddr[s.ip];
      if time - t.info[id].time > 20 * 60 then SetInfo(t, id, t.info[id].(time := U32(time))) else t
  }

  // ---------------------------------------------------------------- adding an address

  function Max(a: int, b: int): int { if a < b then b else a }

  /** What a repeated announcement changes in a known entry. */
  function Refreshed(i: Info, addr: Address, penalty: int, now: int): Info {
    var interval := if now - addr.time < 24 * 60 * 60 then 60 * 60 else 24 * 60 * 60;
    var time := if addr.time != 0 && (i.time == 0 || i.time < addr.time - interval - penalty)
                then U32(Max(0, addr.time - penalty)) else i.time;
    i.(time := time, services := i.services + addr.services)
  }

  /** Each reference an entry has doubles the odds against one more. */
  function Odds(refs: int): (n: nat)
    ensures n >= 1
  {
    if refs <= 0 then 1 else 2 * Odds(refs - 1)
  }

  /** Whether a repeated announcement earns the entry one more reference; `roll` is the random number drawn. */
  predicate EarnsReference(i: Info, addr: Address, roll: nat) {
    && addr.time != 0 && (i.time == 0 || addr.time > i.time)
    && !i.inTried
    && i.refCount != NEW_BUCKETS_PER_ADDRESS
    && roll % Odds(i.refCount) == 0
  }

  predicate PossibleVictim(t: Tables, b: nat, id: int, victim: int) {
    && b < |t.news| && id in t.info
    && (id !in t.news[b] && |t.news[b]| == NEW_BUCKET_SIZE ==> victim in t.news[b] && CanMove(Raise(t, id), victim))
  }

  /** Adds a reference to `id` in bucket `b`, making room first if the bucket is full. */
  function Insert(t: Tables, b: nat, id: int, victim: int): Tables
    requires PossibleVictim(t, b, id, victim)
  {
    if id in t.news[b] then t
    else
      var r := Raise(t, id);
      Link(if |t.news[b]| == NEW_BUCKET_SIZE then Unref(r, b, victim) else r, b, id)
  }

  datatype AddArgs = AddArgs(addr: Address, source: NetAddr, penalty: int, now: int, routable: bool, roll: nat)

  function Penalised(a: AddArgs): Address { a.addr.(time := U32(Max(0, a.addr.time - a.penalty))) }

  predicate Present(t: Tables, ip: NetAddr) { ip in t.byAddr && t.byAddr[ip] in t.info }

  /** The tables just before a reference is placed, for a known and for an unknown address. */
  function Prepared(t: Tables, a: AddArgs): Tables {
    if Present(t, a.addr.service.ip) then
      var id := t.byAddr[a.addr.service.ip];
      SetInfo(t, id, Refreshed(t.info[id], a.addr, a.penalty, a.now))
    else
      Enter(t, Penalised(a), a.source)
  }

  function PreparedId(t: Tables, a: AddArgs): int {
    if Present(t, a.addr.service.ip) then t.byAddr[a.addr.service.ip] else t.idCount
  }

  function TargetBucket(h: Hashes, t: Tables, a: AddArgs): nat {
    var p, id := Prepared(t, a), PreparedId(t, a);
    NewBucket(h, p.key, p.info[id], a.source)
  }

  predicate GoesOn(t: Tables, a: AddArgs) {
    Present(t, a.addr.service.ip) ==> EarnsReference(Prepared(t, a).info[PreparedId(t, a)], a.addr, a.roll)
  }

  predicate AddChoice(h: Hashes, t: Tables, a: AddArgs, victim: int) {
    a.routable && GoesOn(t, a) ==>
      PossibleVictim(Prepared(t, a), TargetBucket(h, t, a), PreparedId(t, a), victim)
  }

  function Add(h: Hashes, t: Tables, a: AddArgs, victim: int): Tables
    requires AddChoice(h, t, a, victim)
  {
    if !a.routable then t
    else if !GoesOn(t, a) then Prepared(t, a)
    else Insert(Prepared(t, a), TargetBucket(h, t, a), PreparedId(t, a), victim)
  }

  lemma {:induction false} InsertKeeps(h: Hashes, t: Tables, b: nat, id: int, victim: int)
    requires PossibleVictim(t, b, id, victim) && id !in t.news[b] && t.idCount >= 0
    requires Inv(h, Raise(t, id), id) && !t.info[id].inTried
    ensures Consistent(h, Insert(t, b, id, victim))
  {
    var r := Raise(t, id);
    if |t.news[b]| == NEW_BUCKET_SIZE {
      UnrefKeeps(h, r, b, victim, id);
    }
    var s := if |t.news[b]| == NEW_BUCKET_SIZE then Unref(r, b, victim) else r;
    assert Inv(h, s, id) && id in s.info && !s.info[id].inTried && id !in s.news[b] && |s.news[b]| < NEW_BUCKET_SIZE;
    LinkKeeps(h, s, b, id);
  }

  lemma {:induction false} AddKeeps(h: Hashes, t: Tables, a: AddArgs, victim: int)
    requires Consistent(h, t) && AddChoice(h, t, a, victim)
    ensures Consistent(h, Add(h, t, a, victim))
  {
    if a.routable {
      if Present(t, a.addr.service.ip) {
        AddKnownKeeps(h, t, a, victim);
      } else {
        AddUnknownKeeps(h, t, a, victim);
      }
    }
  }

  lemma {:induction false} AddKnownKeeps(h: Hashes, t: Tables, a: AddArgs, victim: int)
    requires Consistent(h, t) && AddChoice(h, t, a, victim) && a.routable && Present(t, a.addr.service.ip)
    ensures Consistent(h, Add(h, t, a, victim))
  {
    var p, id := Prepared(t, a), PreparedId(t, a);
    SetInfoKeeps(h, t, NO_ID, id, p.info[id]);
    if GoesOn(t, a) && id !in p.news[TargetBucket(h, t, a)] {
      RaiseKeeps(h, p, id);
      InsertKeeps(h, p, TargetBucket(h, t, a), id, victim);
    }
  }

  lemma {:induction false} AddUnknownKeeps(h: Hashes, t: Tables, a: AddArgs, victim: int)
    requires Consistent(h, t) && AddChoice(h, t, a, victim) && a.routable && !Present(t, a.addr.service.ip)
    ensures Consistent(h, Add(h, t, a, victim))
  {
    var p, id := Prepared(t, a), PreparedId(t, a);
    EnterKeeps(h, t, Penalised(a), a.source);
    InsertKeeps(h, p, TargetBucket(h, t, a), id, victim);
  }

  // ---------------------------------------------------------------- connection statistics

  /** Recording a success keeps the tables consistent exactly for positive times. */
  lemma {:induction false} GoodKeeps(h: Hashes, t: Tables, s: Service, time: int, c: Choice)
    requires Consistent(h, t) && GoodChoice(h, t, s, time, c)
    ensures Consistent(h, Good(h, t, s, time, c)) <==> (!Known(t, s) || time > 0)
  {
    if Known(t, s) {
      var id := t.byAddr[s.ip];
      if time > 0 {
        SetInfoKeeps(h, t, NO_ID, id, Seen(t.info[id], time));
        if !t.info[id].inTried {
          MakeTriedKeeps(h, MarkSeen(t, s, time), id, c);
        }
      } else {
        GoodMarks(h, t, s, time, c);
      }
    }
  }

  lemma GoodMarks(h: Hashes, t: Tables, s: Service, time: int, c: Choice)
    requires Consistent(h, t) && GoodChoice(h, t, s, time, c) && Known(t, s)
    ensures
      var u, id := Good(h, t, s, time, c), t.byAddr[s.ip];
      id in u.info && u.info[id].inTried && u.info[id].lastSuccess == time
  {
  }

  /** Recording an attempt keeps the tables consistent exactly for non-negative times. */
  lemma {:induction false} AttemptKeeps(h: Hashes, t: Tables, s: Service, time: int)
    requires Consistent(h, t)
    ensures Consistent(h, Attempt(t, s, time)) <==> (!Known(t, s) || time >= 0)
  {
    if Known(t, s) {
      var id := t.byAddr[s.ip];
      var u := Attempt(t, s, time);
      if time >= 0 {
        SetInfoKeeps(h, t, NO_ID, id, u.info[id]);
      } else {
        assert id in u.info && u.info[id].lastTry < 0;
      }
    }
  }

  lemma {:induction false} ConnectedKeeps(h: Hashes, t: Tables, s: Service, time: int)
    requires Consistent(h, t)
    ensures Consistent(h, Connected(t, s, time))
  {
    if Known(t, s) {
      var id := t.byAddr[s.ip];
      SetInfoKeeps(h, t, NO_ID, id, Connected(t, s, time).info[id]);
    }
  }

  /** The entry a promotion starts from is always in some new bucket, so the search for one succeeds. */
  lemma NewEntryHasBucket(h: Hashes, t: Tables, id: int) returns (b: nat)
    requires Consistent(h, t) && id in t.info && !t.info[id].inTried
    ensures b < |t.news| && id in t.news[b]
  {
    RefsZero(t.news, id);
    b :| b < |t.news| && id in t.news[b];
  }

  // ---------------------------------------------------------------- handing out addresses

  function AddressOf(i: Info): Address { Address(i.service, i.services, i.time) }

  function NodeCount(size: nat): (n: nat)
    ensures n <= size && n <= GETADDR_MAX
  {
    var n := GETADDR_MAX_PCT * size / 100;
    if n > GETADDR_MAX then GETADDR_MAX else n
  }

  predicate PossibleDraws(size: nat, draws: seq<nat>) {
    |draws| <= size && forall n :: 0 <= n < |draws| ==> n <= draws[n] < size
  }

  /** The first positions of the random order, redrawn one after the other. */
  function Shuffle(t: Tables, draws: seq<nat>): Tables
  {
    if draws == [] then t
    else
      var last := |draws| - 1;
      var s := Shuffle(t, draws[..last]);
      if CanSwap(s, last, draws[last]) then SwapRandom(s, last, draws[last]) else s
  }

  lemma {:induction false} ShuffleMoves(t: Tables, draws: seq<nat>)
    requires RandomIndexed(t) && PossibleDraws(|t.random|, draws)
    ensures Moved(t, Shuffle(t, draws))
  {
    if draws != [] {
      var last := |draws| - 1;
      ShuffleMoves(t, draws[..last]);
      SwapRandomMoves(Shuffle(t, draws[..last]), last, draws[last]);
      MovedTwice(t, Shuffle(t, draws[..last]), Shuffle(t, draws));
    }
  }

  lemma MovedTwice(t: Tables, s: Tables, u: Tables)
    requires Moved(t, s) && Moved(s, u)
    ensures Moved(t, u)
  {
    assert forall id <- t.info :: id in s.info;
  }

  lemma ShuffleMore(t: Tables, draws: seq<nat>, p: nat)
    requires CanSwap(Shuffle(t, draws), |draws|, p)
    ensures Shuffle(t, draws + [p]) == SwapRandom(Shuffle(t, draws), |draws|, p)
  {
    assert (draws + [p])[..|draws|] == draws;
  }

  /** The addresses collected so far are those at the first positions of the random order. */
  predicate Drawn(t: Tables, addrs: seq<Address>) {
    |addrs| <= |t.random|
    && forall k :: 0 <= k < |addrs| ==> t.random[k] in t.info && addrs[k] == AddressOf(t.info[t.random[k]])
  }

  lemma DrawOne(t: Tables, addrs: seq<Address>, p: nat)
    requires RandomIndexed(t) && Drawn(t, addrs) && |addrs| <= p < |t.random|
    ensures CanSwap(t, |addrs|, p)
    ensures
      var s := SwapRandom(t, |addrs|, p);
      s.random[|addrs|] in s.info && Drawn(s, addrs + [AddressOf(s.info[s.random[|addrs|]])])
  {
    var s := SwapRandom(t, |addrs|, p);
    SwapRandomMoves(t, |addrs|, p);
    DrawnStays(t, s, addrs);
    assert s.random[|addrs|] in s.info;
  }

  lemma DrawnStays(t: Tables, s: Tables, addrs: seq<Address>)
    requires Moved(t, s) && Drawn(t, addrs) && forall k :: 0 <= k < |addrs| ==> s.random[k] == t.random[k]
    ensures Drawn(s, addrs)
  {
    forall k | 0 <= k < |addrs| ensures s.random[k] in s.info && addrs[k] == AddressOf(s.info[s.random[k]]) {
      assert Still(s.info[s.random[k]]) == Still(t.info[t.random[k]]);
    }
  }

  /** After some draws: the order is shuffled that far, and the addresses at its front are out. */
  predicate HandedOut(t: Tables, u: Tables, draws: seq<nat>, addrs: seq<Address>) {
    && RandomIndexed(t) && PossibleDraws(|t.random|, draws) && |addrs| == |draws|
    && u == Shuffle(t, draws) && |u.random| == |t.random| && Drawn(u, addrs)
  }

  lemma HandOutOne(t: Tables, u: Tables, draws: seq<nat>, addrs: seq<Address>, p: nat)
    requires HandedOut(t, u, draws, addrs) && |draws| <= p < |t.random|
    ensures CanSwap(u, |draws|, p)
    ensures
      var s := SwapRandom(u, |draws|, p);
      s.random[|draws|] in s.info
      && HandedOut(t, s, draws + [p], addrs + [AddressOf(s.info[s.random[|draws|]])])
  {
    ShuffleMoves(t, draws);
    DrawOne(u, addrs, p);
    ShuffleMore(t, draws, p);
  }

  /** No address is handed out twice: distinct positions hold entries with distinct addresses. */
  lemma RandomOrderIsInjective(t: Tables, i: nat, j: nat)
    requires AddrIndexed(t) && RandomIndexed(t) && i < j < |t.random|
    ensures t.info[t.random[i]].service.ip != t.info[t.random[j]].service.ip
  {
    var a, b := t.random[i], t.random[j];
    assert t.info[a].randomPos == i && t.info[b].randomPos == j;
    assert t.byAddr[t.info[a].service.ip] == a && t.byAddr[t.info[b].service.ip] == b;
  }

  lemma DrawnAreDistinct(h: Hashes, t: Tables, u: Tables, addrs: seq<Address>)
    requires Consistent(h, t) && Moved(t, u) && Drawn(u, addrs)
    ensures forall m, n :: 0 <= m < n < |addrs| ==> addrs[m].service.ip != addrs[n].service.ip
  {
    MovedKeeps(h, t, u, NO_ID);
    forall m, n | 0 <= m < n < |addrs| ensures addrs[m].service.ip != addrs[n].service.ip {
      RandomOrderIsInjective(u, m, n);
    }
  }

  // ---------------------------------------------------------------- runs

  datatype Op =
    | AddOp(args: AddArgs, victim: int)
    | GoodOp(service: Service, time: int, choice: Choice)
    | AttemptOp(service: Service, time: int)
    | ConnectedOp(service: Service, time: int)
    | GetAddrOp(draws: seq<nat>)

  /** The operation's random choices are ones the code can make, and its time is a clock reading. */
  predicate Enabled(h: Hashes, t: Tables, op: Op) {
    match op
    case AddOp(a, victim) => AddChoice(h, t, a, victim)
    case GoodOp(s, time, c) => time > 0 && GoodChoice(h, t, s, time, c)
    case AttemptOp(_, time) => time >= 0
    case ConnectedOp(_, _) => true
    case GetAddrOp(draws) => PossibleDraws(|t.random|, draws) && |draws| == NodeCount(|t.random|)
  }

  function Apply(h: Hashes, t: Tables, op: Op): Tables
    requires Consistent(h, t) && Enabled(h, t, op)
  {
    match op
    case AddOp(a, victim) => Add(h, t, a, victim)
    case GoodOp(s, time, c) => Good(h, t, s, time, c)
    case AttemptOp(s, time) => Attempt(t, s, time)
    case ConnectedOp(s, time) => Connected(t, s, time)
    case GetAddrOp(draws) => Shuffle(t, draws)
  }

  lemma {:induction false} ApplyKeeps(h: Hashes, t: Tables, op: Op)
    requires Consistent(h, t) && Enabled(h, t, op)
    ensures Consistent(h, Apply(h, t, op))
  {
    match op
    case AddOp(a, victim) => AddKeeps(h, t, a, victim);
    case GoodOp(s, time, c) => GoodKeeps(h, t, s, time, c);
    case AttemptOp(s, time) => AttemptKeeps(h, t, s, time);
    case ConnectedOp(s, time) => ConnectedKeeps(h, t, s, time);
    case GetAddrOp(draws) =>
      ShuffleMoves(t, draws);
      MovedKeeps(h, t, Shuffle(t, draws), NO_ID);
  }

  /** From a consistent state the code does one enabled operation; nothing is said of other states. */
  predicate Next(h: Hashes, t: Tables, op: Op, u: Tables) {
    Consistent(h, t) ==> Enabled(h, t, op) && u == Apply(h, t, op)
  }

  predicate IsRun(h: Hashes, states: seq<Tables>, ops: seq<Op>) {
    && |states| == |ops| + 1
    && (forall k :: 0 <= k < |ops| ==> Next(h, states[k], ops[k], states[k + 1]))
  }

  /** Every state of every run from the empty tables is consistent. */
  lemma {:induction false} RunsStayConsistent(h: Hashes, states: seq<Tables>, ops: seq<Op>, k: nat)
    requires IsRun(h, states, ops) && states[0] == Empty(states[0].key) && k < |states|
    ensures Consistent(h, states[k])
  {
    if k == 0 {
      EmptyIsConsistent(h, states[0].key);
    } else {
      RunsStayConsistent(h, states, ops, k - 1);
      assert Next(h, states[k - 1], ops[k - 1], states[k - 1 + 1]);
      ApplyKeeps(h, states[k - 1], ops[k - 1]);
    }
  }
}
