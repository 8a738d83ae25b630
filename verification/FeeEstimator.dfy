/**
The fee estimator: a sliding window of per-block samples, a cached sorted copy of all of them, and a
percentile of that copy.
*/
module FeeEstimator {
  const DEFAULT_WINDOW: nat := 100
  const DEFAULT_TARGET: nat := 6
  const MAX_TARGET: nat := 1008
  const MIN_BLOCKS: nat := 10
  const MIN_TXS: nat := 50

  /** The hash of no block. */
  const NONE: int := 0

  datatype Record = Record(height: int, hash: int, fees: seq<int>)

  // ---------------------------------------------------------------- sorted samples

  predicate Sorted(s: seq<int>) { forall i, j :: 0 <= i < j < |s| ==> s[i] <= s[j] }

  function Insert(s: seq<int>, x: int): (r: seq<int>)
    requires Sorted(s)
    ensures Sorted(r) && |r| == |s| + 1 && (r[0] == x || (s != [] && r[0] == s[0]))
  {
    if s == [] then [x]
    else if x <= s[0] then [x] + s
    else [s[0]] + Insert(s[1..], x)
  }

  function Sort(s: seq<int>): (r: seq<int>)
    ensures Sorted(r) && |r| == |s|
  {
    if s == [] then [] else Insert(Sort(s[1..]), s[0])
  }

  function Below(s: seq<int>, x: int): nat { if s == [] then 0 else Below(s[1..], x) + if s[0] < x then 1 else 0 }

  function AtMost(s: seq<int>, x: int): nat { if s == [] then 0 else AtMost(s[1..], x) + if s[0] <= x then 1 else 0 }

  lemma {:induction false} InsertCounts(s: seq<int>, x: int, y: int)
    requires Sorted(s)
    ensures Below(Insert(s, x), y) == Below(s, y) + if x < y then 1 else 0
    ensures AtMost(Insert(s, x), y) == AtMost(s, y) + if x <= y then 1 else 0
  {
    var r := Insert(s, x);
    if s != [] && x > s[0] {
      InsertCounts(s[1..], x, y);
      assert r[1..] == Insert(s[1..], x);
    } else {
      assert r[1..] == s;
    }
  }

  /** Sorting rearranges: as many samples lie below any value, and up to it, as before. */
  lemma {:induction false} SortCounts(s: seq<int>, y: int)
    ensures Below(Sort(s), y) == Below(s, y) && AtMost(Sort(s), y) == AtMost(s, y)
  {
    if s != [] {
      SortCounts(s[1..], y);
      InsertCounts(Sort(s[1..]), s[0], y);
    }
  }

  // ---------------------------------------------------------------- the window

  /** The map from height to record, as the sequence in which it is walked. */
  predicate Ascending(bs: seq<Record>) { forall i, j :: 0 <= i < j < |bs| ==> bs[i].height < bs[j].height }

  function Put(bs: seq<Record>, r: Record): seq<Record> {
    if bs == [] then [r]
    else if r.height < bs[0].height then [r] + bs
    else if r.height == bs[0].height then [r] + bs[1..]
    else [bs[0]] + Put(bs[1..], r)
  }

  function Prune(bs: seq<Record>, low: int): seq<Record> {
    if bs == [] then []
    else if bs[0].height < low then Prune(bs[1..], low)
    else [bs[0]] + Prune(bs[1..], low)
  }

  function Samples(bs: seq<Record>): seq<int> {
    if bs == [] then [] else bs[0].fees + Samples(bs[1..])
  }

  function Count(bs: seq<Record>): nat { |Samples(bs)| }

  /** What sealing a block at this height throws away. */
  function Replaced(bs: seq<Record>, height: int): nat {
    if bs == [] then 0 else if bs[0].height == height then |bs[0].fees| else Replaced(bs[1..], height)
  }

  predicate AllSorted(bs: seq<Record>) { forall i :: 0 <= i < |bs| ==> Sorted(bs[i].fees) }

  lemma {:induction false} PutAscends(bs: seq<Record>, r: Record)
    requires Ascending(bs) && AllSorted(bs) && Sorted(r.fees)
    ensures Put(bs, r) != [] && Ascending(Put(bs, r)) && AllSorted(Put(bs, r))
    ensures Put(bs, r)[0].height == if bs == [] || r.height < bs[0].height then r.height else bs[0].height
  {
    if bs != [] && r.height > bs[0].height {
      PutAscends(bs[1..], r);
    }
  }

  lemma {:induction false} PutCounts(bs: seq<Record>, r: Record)
    requires Ascending(bs)
    ensures Count(Put(bs, r)) == Count(bs) - Replaced(bs, r.height) + |r.fees|
  {
    if bs != [] {
      if r.height > bs[0].height {
        PutCounts(bs[1..], r);
        assert Put(bs, r)[1..] == Put(bs[1..], r);
      } else {
        assert Put(bs, r)[0] == r;
        if r.height < bs[0].height {
          assert Put(bs, r)[1..] == bs;
          ReplacedNone(bs, r.height);
        } else {
          assert Put(bs, r)[1..] == bs[1..];
        }
      }
    } else {
      assert [r][1..] == [];
    }
  }

  lemma {:induction false} ReplacedNone(bs: seq<Record>, height: int)
    requires forall i :: 0 <= i < |bs| ==> bs[i].height != height
    ensures Replaced(bs, height) == 0
  {
    if bs != [] {
      ReplacedNone(bs[1..], height);
    }
  }

  lemma {:induction false} PruneKeeps(bs: seq<Record>, low: int)
    requires Ascending(bs) && AllSorted(bs)
    ensures Ascending(Prune(bs, low)) && AllSorted(Prune(bs, low))
    ensures bs != [] && Prune(bs, low) != [] ==> Prune(bs, low)[0].height >= bs[0].height
    ensures forall i :: 0 <= i < |Prune(bs, low)| ==> Prune(bs, low)[i].height >= low
  {
    if bs != [] {
      PruneKeeps(bs[1..], low);
    }
  }

  // ---------------------------------------------------------------- the estimate

  function Percentile(target: nat): (p: nat)
    ensures 10 <= p <= 90
  {
    if target <= 1 then 90 else if 100 - 10 * target < 10 then 10 else 100 - 10 * target
  }

  function Clamp(target: nat): nat {
    if target == 0 then DEFAULT_TARGET else if target > MAX_TARGET then MAX_TARGET else target
  }

  /** The rank that the percentile stands for, counted from zero. */
  function Rank(n: nat, target: nat): (i: nat)
    requires n > 0
    ensures i < n
  {
    var k := n * Percentile(target) / 100;
    if k >= n then n - 1 else k
  }

  /** The estimate from all stored samples, with no cache. */
  function Estimate(bs: seq<Record>, target: nat, floor: int): int {
    var all := Sort(Samples(bs));
    if |bs| < MIN_BLOCKS || |all| < MIN_TXS then 0 else
    var x := all[Rank(|all|, Clamp(target))];
    if x < floor then floor else x
  }

  lemma {:induction false} SplitCounts(s: seq<int>, k: nat, x: int)
    requires k <= |s|
    ensures Below(s, x) == Below(s[..k], x) + Below(s[k..], x)
    ensures AtMost(s, x) == AtMost(s[..k], x) + AtMost(s[k..], x)
  {
    if k > 0 {
      SplitCounts(s[1..], k - 1, x);
      assert s[1..][..k - 1] == s[..k][1..] && s[1..][k - 1..] == s[k..];
    } else {
      assert s[..0] == [] && s[0..] == s;
    }
  }

  lemma {:induction false} CountsBound(s: seq<int>, x: int)
    ensures Below(s, x) <= |s| && AtMost(s, x) <= |s|
    ensures (forall i :: 0 <= i < |s| ==> s[i] >= x) ==> Below(s, x) == 0
    ensures (forall i :: 0 <= i < |s| ==> s[i] <= x) ==> AtMost(s, x) == |s|
  {
    if s != [] {
      CountsBound(s[1..], x);
    }
  }

  /** The chosen sample is an order statistic of all stored samples: at most `i` are smaller, and more than
      `i` are no larger. */
  lemma EstimateIsOrderStatistic(bs: seq<Record>, target: nat)
    requires Count(bs) > 0
    ensures
      var s := Samples(bs);
      var i := Rank(|s|, target);
      Below(s, Sort(s)[i]) <= i < AtMost(s, Sort(s)[i])
  {
    var s := Samples(bs);
    var t, i := Sort(s), Rank(|s|, target);
    SortCounts(s, t[i]);
    SortedCounts(t, i);
  }

  lemma SortedCounts(t: seq<int>, i: nat)
    requires Sorted(t) && i < |t|
    ensures Below(t, t[i]) <= i < AtMost(t, t[i])
  {
    var x := t[i];
    SplitCounts(t, i, x);
    CountsBound(t[i..], x);
    CountsBound(t[..i], x);
    SplitCounts(t, i + 1, x);
    CountsBound(t[..i + 1], x);
  }

  /** `x` is the sample of percentile `p`: no more than `p` in a hundred are smaller, and more than `p` in a hundred
      are no larger.  This leaves no choice. */
  predicate AtPercentile(s: seq<int>, p: nat, x: int) { x in s && 100 * Below(s, x) <= |s| * p < 100 * AtMost(s, x) }

  lemma {:induction false} BelowAtMost(s: seq<int>, x: int, y: int)
    requires x < y
    ensures AtMost(s, x) <= Below(s, y)
  {
    if s != [] {
      BelowAtMost(s[1..], x, y);
    }
  }

  lemma OnePercentile(s: seq<int>, p: nat, x: int, y: int)
    requires AtPercentile(s, p, x) && AtPercentile(s, p, y)
    ensures x == y
  {
    if x < y {
      BelowAtMost(s, x, y);
    } else if y < x {
      BelowAtMost(s, y, x);
    }
  }

  lemma {:induction false} InsertMember(s: seq<int>, x: int, y: int)
    requires Sorted(s)
    ensures y in Insert(s, x) <==> y == x || y in s
  {
    if s != [] && x > s[0] {
      InsertMember(s[1..], x, y);
    }
  }

  lemma {:induction false} SortMember(s: seq<int>, y: int)
    ensures y in Sort(s) <==> y in s
  {
    if s != [] {
      SortMember(s[1..], y);
      InsertMember(Sort(s[1..]), s[0], y);
    }
  }

  lemma Percent(n: nat, p: nat, k: nat)
    requires p < 100 && k == n * p / 100 && n > 0
    ensures 100 * k <= n * p < 100 * k + 100 && k < n
  {
    assert n * p < n * 100;
  }

  lemma PercentileSample(bs: seq<Record>, t: nat, p: nat)
    requires t >= 1 && Count(bs) > 0 && p == if t >= 9 then 10 else 100 - 10 * t
    ensures AtPercentile(Samples(bs), p, Sort(Samples(bs))[Rank(Count(bs), t)])
  {
    var s := Samples(bs);
    var i := Rank(|s|, t);
    Percent(|s|, p, |s| * p / 100);
    EstimateIsOrderStatistic(bs, t);
    SortMember(s, Sort(s)[i]);
  }

  /** Of all samples stored, the fee is the one of percentile 90 for one block, ten less for each block more and ten
      from nine blocks on, or the floor if that is higher; target zero stands for six blocks.  With fewer than ten
      blocks or fifty samples it is zero. */
  lemma EstimateIsPercentile(bs: seq<Record>, target: nat, floor: int, t: nat, p: nat) returns (x: int)
    requires t == (if target == 0 then 6 else target) && p == if t >= 9 then 10 else 100 - 10 * t
    ensures |bs| < 10 || Count(bs) < 50 ==> Estimate(bs, target, floor) == 0
    ensures |bs| >= 10 && Count(bs) >= 50 ==>
              AtPercentile(Samples(bs), p, x) && Estimate(bs, target, floor) == if x < floor then floor else x
  {
    x := 0;
    if |bs| >= 10 && Count(bs) >= 50 {
      x := Sort(Samples(bs))[Rank(Count(bs), Clamp(target))];
      PercentileSample(bs, Clamp(target), p);
    }
  }

  /** The samples are those of the records, one record after the other. */
  lemma {:induction false} SamplesInOrder(bs: seq<Record>, i: nat, j: nat)
    requires i < |bs| && j < |bs[i].fees|
    ensures Count(bs[..i + 1]) == Count(bs[..i]) + |bs[i].fees| <= Count(bs)
    ensures Samples(bs)[Count(bs[..i]) + j] == bs[i].fees[j]
  {
    if i == 0 {
      assert bs[..1][1..] == [] && bs[..0] == [];
    } else {
      SamplesInOrder(bs[1..], i - 1, j);
      assert bs[..i + 1][1..] == bs[1..][..i] && bs[..i][1..] == bs[1..][..i - 1];
    }
  }

  lemma EstimateFloor(bs: seq<Record>, target: nat, floor: int)
    ensures Estimate(bs, target, floor) == 0 || Estimate(bs, target, floor) >= floor
    ensures Estimate(bs, target, floor) == 0 ==> |bs| < MIN_BLOCKS || Count(bs) < MIN_TXS || floor <= 0
  {
  }

  lemma RankFalls(n: nat, t: nat, u: nat)
    requires n > 0 && 1 <= t <= u
    ensures Rank(n, Clamp(u)) <= Rank(n, Clamp(t))
  {
    var p, q := Percentile(Clamp(u)), Percentile(Clamp(t));
    assert p <= q;
    assert n * p <= n * q;
  }

  /** Waiting longer never costs more. */
  lemma EstimateFalls(bs: seq<Record>, t: nat, u: nat, floor: int)
    requires 1 <= t <= u
    ensures Estimate(bs, u, floor) <= Estimate(bs, t, floor)
  {
    var all := Sort(Samples(bs));
    if |all| >= MIN_TXS {
      RankFalls(|all|, t, u);
    }
  }

  // ---------------------------------------------------------------- the estimator

  /** Rounded up, so that a small fee does not count as none. */
  function PerKb(fee: int, size: nat): (r: int)
    requires size > 0
    ensures fee <= 0 ==> r == 0
    ensures fee > 0 ==> r > 0 && r * size >= fee * 1000 > (r - 1) * size
  {
    if fee <= 0 then 0 else
    var x := fee * 1000 + size - 1;
    assert x == x / size * size + x % size;
    x / size
  }

  /** What the estimator keeps, but for the sorted copy. */
  datatype State = State(maxBlocks: nat, hash: int, height: int, current: seq<int>, total: int, blocks: seq<Record>)

  const NEW := State(DEFAULT_WINDOW, NONE, 0, [], 0, [])

  function Recorded(s: State, hash: int, height: int, fee: int, size: nat): State {
    if size == 0 then s
    else if s.hash == hash then s.(current := s.current + [PerKb(fee, size)])
    else s.(hash := hash, height := height, current := [PerKb(fee, size)])
  }

  /** The lowest height that stays in the window. */
  function Low(maxBlocks: nat, best: int): int {
    if best - maxBlocks + 1 < 0 then 0 else best - maxBlocks + 1
  }

  /** How many samples lie below the window. */
  function Expired(bs: seq<Record>, low: int): nat {
    if bs == [] then 0 else (if bs[0].height < low then |bs[0].fees| else 0) + Expired(bs[1..], low)
  }

  function Pruned(s: State, best: int): State {
    var low := Low(s.maxBlocks, best);
    s.(blocks := Prune(s.blocks, low), total := s.total - Expired(s.blocks, low))
  }

  function Sealed(s: State, height: int): State {
    s.(blocks := Put(s.blocks, Record(height, s.hash, Sort(s.current))), total := s.total + |s.current|,
    hash := NONE, height := 0, current := [])
  }

  function Ended(s: State, hash: int, height: int): State {
    if s.hash != hash then s else Pruned(Sealed(s, height), height)
  }

  function Resized(s: State, n: nat): State {
    var r := s.(maxBlocks := n);
    if s.blocks == [] then r else Pruned(r, s.blocks[|s.blocks| - 1].height)
  }

  predicate Ordered(s: State) { Ascending(s.blocks) && AllSorted(s.blocks) }

  class Estimator {
    const floor: int
    var maxBlocks: nat
    var currentHash: int
    var currentHeight: int
    var current: seq<int>
    var total: int
    var blocks: seq<Record>
    var all: seq<int>
    var cacheValid: bool

    function V(): State
      reads this
    {
      State(maxBlocks, currentHash, currentHeight, current, total, blocks)
    }

    ghost predicate Valid()
      reads this
    {
      Ordered(V()) && (cacheValid ==> all == Sort(Samples(blocks)))
    }

    constructor (minTxFee: int)
      ensures Valid() && floor == minTxFee && V() == NEW && maxBlocks == 100 && current == [] && blocks == [] && total == 0
    {
      floor, maxBlocks, currentHash, currentHeight, current := minTxFee, DEFAULT_WINDOW, NONE, 0, [];
      total, blocks, all, cacheValid := 0, [], [], false;
    }

    method RecordTransaction(hash: int, height: int, fee: int, size: nat)
      requires Valid()
      modifies this`currentHash, this`currentHeight, this`current
      ensures Valid() && V() == Recorded(old(V()), hash, height, fee, size)
    {
      if size == 0 {
        return;
      }
      if currentHash != hash {
        currentHash := hash;
        currentHeight := height;
        current := [];
      }
      current := current + [PerKb(fee, size)];
    }

    method PruneOldBlocks(best: int)
      requires Ordered(V())
      modifies this`blocks, this`total
      ensures Ordered(V()) && V() == Pruned(old(V()), best)
    {
      PruneKeeps(blocks, Low(maxBlocks, best));
      blocks, total := Keep(blocks, Low(maxBlocks, best), total);
    }

    method EndBlock(hash: int, height: int)
      requires Valid()
      modifies this
      ensures Valid() && V() == Ended(old(V()), hash, height)
    {
      if currentHash != hash {
        return;
      }
      var record := Record(height, hash, Sort(current));
      PutAscends(blocks, record);
      total := total + |record.fees|;
      blocks := Put(blocks, record);
      currentHash, currentHeight, current := NONE, 0, [];
      PruneOldBlocks(height);
      cacheValid := false;
    }

    method RebuildCache()
      requires Valid()
      modifies this`all, this`cacheValid
      ensures Valid() && cacheValid
    {
      var merged := Merge(blocks);
      all := Sort(merged);
      cacheValid := true;
    }

    /** The answer is the one computed from all stored blocks, whatever the cache held. */
    method EstimateFee(target: nat) returns (fee: int)
      requires Valid()
      modifies this`all, this`cacheValid
      ensures Valid() && fee == Estimate(blocks, target, floor)
    {
      var t := target;
      if t == 0 {
        t := DEFAULT_TARGET;
      }
      if t > MAX_TARGET {
        t := MAX_TARGET;
      }
      if |blocks| < MIN_BLOCKS {
        return 0;
      }
      if !cacheValid {
        RebuildCache();
      }
      if |all| < MIN_TXS {
        return 0;
      }
      var percentile;
      if t <= 1 {
        percentile := 90;
      } else {
        var pct := 100 - t * 10;
        if pct < 10 {
          pct := 10;
        }
        percentile := pct;
      }
      var idx := |all| * percentile / 100;
      if idx >= |all| {
        idx := |all| - 1;
      }
      fee := all[idx];
      if fee < floor {
        fee := floor;
      }
    }

    method SetMaxBlocks(n: nat)
      requires Valid()
      modifies this
      ensures Valid() && V() == Resized(old(V()), n)
    {
      maxBlocks := n;
      if blocks != [] {
        PruneOldBlocks(blocks[|blocks| - 1].height);
        cacheValid := false;
      }
    }
  }

  // ---------------------------------------------------------------- what each call does

  lemma {:induction false} PutHolds(bs: seq<Record>, r: Record, q: Record)
    requires Ascending(bs)
    ensures q in Put(bs, r) <==> q == r || (q in bs && q.height != r.height)
  {
    if bs != [] {
      assert bs == [bs[0]] + bs[1..];
      if r.height > bs[0].height {
        PutHolds(bs[1..], r, q);
      }
    }
  }

  lemma {:induction false} PruneHolds(bs: seq<Record>, low: int, q: Record)
    ensures q in Prune(bs, low) <==> q in bs && q.height >= low
  {
    if bs != [] {
      assert bs == [bs[0]] + bs[1..];
      PruneHolds(bs[1..], low, q);
    }
  }

  /** A sample counts for its block; the first one of another block drops what was not sealed. */
  lemma SampleCounts(s: State, hash: int, height: int, fee: int, size: nat)
    ensures
      var u := Recorded(s, hash, height, fee, size);
      && u == s.(hash := u.hash, height := u.height, current := u.current)
      && (size == 0 ==> u == s)
      && (size > 0 ==>
            && u.hash == hash && u.height == (if s.hash == hash then s.height else height)
            && |u.current| == (if s.hash == hash then |s.current| else 0) + 1
            && (s.hash == hash ==> u.current[..|s.current|] == s.current)
            && var x := u.current[|u.current| - 1];
               if fee <= 0 then x == 0 else x * size >= fee * 1000 > (x - 1) * size)
  {
  }

  /** Sealing a block: its samples, sorted, replace what the height held, and the records that stay are those from
      `maxBlocks` heights back, none below zero.  Another block's hash seals nothing. */
  lemma SealedWindow(s: State, hash: int, height: int, q: Record)
    requires Ordered(s)
    ensures
      var u := Ended(s, hash, height);
      if s.hash != hash then u == s
      else
        && u.hash == 0 && u.height == 0 && u.current == [] && u.maxBlocks == s.maxBlocks
        && (q in u.blocks <==>
              && q.height >= 0 && q.height > height - s.maxBlocks
              && (if q.height == height then q.hash == hash && q.fees == Sort(s.current) else q in s.blocks))
  {
    if s.hash == hash {
      var r := Record(height, s.hash, Sort(s.current));
      PutHolds(s.blocks, r, q);
      PruneHolds(Put(s.blocks, r), Low(s.maxBlocks, height), q);
    }
  }

  /** Another window: the records that stay are those within it, counted from the highest one. */
  lemma ResizedWindow(s: State, n: nat, q: Record)
    requires Ordered(s)
    ensures
      var u := Resized(s, n);
      && u.maxBlocks == n && u == s.(maxBlocks := n, blocks := u.blocks, total := u.total)
      && (q in u.blocks <==>
            q in s.blocks && q.height >= 0 && exists top :: top in s.blocks && Highest(s.blocks, top) && q.height > top.height - n)
  {
    if s.blocks != [] {
      var top := s.blocks[|s.blocks| - 1];
      assert top in s.blocks && Highest(s.blocks, top);
      forall x | x in s.blocks && Highest(s.blocks, x) ensures x.height == top.height {
      }
      PruneHolds(s.blocks, Low(n, top.height), q);
    }
  }

  predicate Highest(bs: seq<Record>, top: Record) { forall r :: r in bs ==> r.height <= top.height }

  // ---------------------------------------------------------------- the running total

  datatype Call = Pay(hash: int, height: int, fee: int, size: nat) | Seal(hash: int, height: int) | Resize(n: nat)

  function Step(s: State, c: Call): State {
    match c
    case Pay(hash, height, fee, size) => Recorded(s, hash, height, fee, size)
    case Seal(hash, height) => Ended(s, hash, height)
    case Resize(n) => Resized(s, n)
  }

  /** The state after a series of calls on a new estimator. */
  function After(calls: seq<Call>): State {
    if calls == [] then NEW else Step(After(calls[..|calls| - 1]), calls[|calls| - 1])
  }

  /** The samples that a call throws away by sealing a height that is already there. */
  function Overwritten(s: State, c: Call): nat {
    if c.Seal? && s.hash == c.hash then Replaced(s.blocks, c.height) else 0
  }

  function AllOverwritten(calls: seq<Call>): nat {
    if calls == [] then 0
    else AllOverwritten(calls[..|calls| - 1]) + Overwritten(After(calls[..|calls| - 1]), calls[|calls| - 1])
  }

  lemma {:induction false} PruneCounts(bs: seq<Record>, low: int)
    ensures Count(Prune(bs, low)) + Expired(bs, low) == Count(bs)
  {
    if bs != [] {
      PruneCounts(bs[1..], low);
      if bs[0].height >= low {
        assert Prune(bs, low)[1..] == Prune(bs[1..], low);
      }
    }
  }

  lemma PrunedCounts(s: State, best: int)
    requires Ordered(s)
    ensures Ordered(Pruned(s, best))
    ensures Pruned(s, best).total - Count(Pruned(s, best).blocks) == s.total - Count(s.blocks)
  {
    PruneKeeps(s.blocks, Low(s.maxBlocks, best));
    PruneCounts(s.blocks, Low(s.maxBlocks, best));
  }

  lemma SealedCounts(s: State, height: int)
    requires Ordered(s)
    ensures Ordered(Sealed(s, height))
    ensures Sealed(s, height).total - Count(Sealed(s, height).blocks)
         == s.total - Count(s.blocks) + Replaced(s.blocks, height)
  {
    var record := Record(height, s.hash, Sort(s.current));
    PutAscends(s.blocks, record);
    PutCounts(s.blocks, record);
  }

  lemma StepCounts(s: State, c: Call)
    requires Ordered(s)
    ensures Ordered(Step(s, c))
    ensures Step(s, c).total - Count(Step(s, c).blocks) == s.total - Count(s.blocks) + Overwritten(s, c)
  {
    match c
    case Pay(_, _, _, _) =>
    case Seal(hash, height) =>
      if s.hash == hash {
        SealedCounts(s, height);
        PrunedCounts(Sealed(s, height), height);
      }
    case Resize(n) =>
      if s.blocks != [] {
        PrunedCounts(s.(maxBlocks := n), s.blocks[|s.blocks| - 1].height);
      }
  }

  /** After any series of calls the total exceeds the stored samples by all that was ever sealed over. */
  lemma {:induction false} TotalDrifts(calls: seq<Call>)
    ensures Ordered(After(calls))
    ensures After(calls).total == Count(After(calls).blocks) + AllOverwritten(calls)
  {
    if calls != [] {
      TotalDrifts(calls[..|calls| - 1]);
      StepCounts(After(calls[..|calls| - 1]), calls[|calls| - 1]);
    }
  }

  /** What the call number `i` threw away. */
  function Lost(calls: seq<Call>, i: nat): nat
    requires i < |calls|
  {
    Overwritten(After(calls[..i]), calls[i])
  }

  lemma LostFront(calls: seq<Call>, n: nat, i: nat)
    requires i < n <= |calls|
    ensures Lost(calls[..n], i) == Lost(calls, i)
  {
    assert calls[..n][..i] == calls[..i];
  }

  lemma {:induction false} NoneOverwritten(calls: seq<Call>)
    ensures AllOverwritten(calls) == 0 <==> forall i :: 0 <= i < |calls| ==> Lost(calls, i) == 0
  {
    if calls != [] {
      var last := |calls| - 1;
      NoneOverwritten(calls[..last]);
      assert AllOverwritten(calls) == AllOverwritten(calls[..last]) + Lost(calls, last);
      forall i | 0 <= i < last ensures Lost(calls[..last], i) == Lost(calls, i) {
        LostFront(calls, last, i);
      }
    }
  }

  /** After any series of calls the running total is the stored number of samples if and only if no call sealed
      a height that still had samples. */
  lemma TotalIsExact(calls: seq<Call>)
    ensures After(calls).total >= Count(After(calls).blocks)
    ensures After(calls).total == Count(After(calls).blocks) <==>
              forall i :: 0 <= i < |calls| ==> Lost(calls, i) == 0
  {
    TotalDrifts(calls);
    NoneOverwritten(calls);
  }

  /** Two blocks of one transaction each are sealed at one height: one sample is stored, and two are counted. */
  method SealTwice(a: int, b: int, height: nat, fee: int, size: nat) returns (e: Estimator)
    requires size > 0
    ensures fresh(e) && e.Valid() && Count(e.blocks) == 1 && e.total == 2
  {
    e := new Estimator(1);
    SealOneBlock(e, a, height, fee, size);
    SealOneBlock(e, b, height, fee, size);
  }

  method SealOneBlock(e: Estimator, hash: int, height: nat, fee: int, size: nat)
    requires e.Valid() && size > 0 && e.maxBlocks > 0 && e.current == []
    requires e.blocks == [] || (|e.blocks| == 1 && e.blocks[0].height == height)
    modifies e
    ensures e.Valid() && e.maxBlocks == old(e.maxBlocks) && e.current == []
    ensures |e.blocks| == 1 == Count(e.blocks) && e.blocks[0].height == height && e.total == old(e.total) + 1
  {
    e.RecordTransaction(hash, height, fee, size);
    SealOne(e.V(), height, PerKb(fee, size));
    e.EndBlock(hash, height);
  }

  /** Sealed alone or over another record, a block of one sample leaves that sample; the total goes up by one
      all the same. */
  lemma SealOne(s: State, height: nat, x: int)
    requires s.maxBlocks > 0 && s.current == [x]
    requires s.blocks == [] || (|s.blocks| == 1 && s.blocks[0].height == height)
    ensures Ended(s, s.hash, height) == State(s.maxBlocks, NONE, 0, [], s.total + 1, [Record(height, s.hash, [x])])
    ensures Count([Record(height, s.hash, [x])]) == 1
  {
    var r := Record(height, s.hash, [x]);
    SortOne(x);
    assert s.blocks != [] ==> s.blocks[1..] == [];
    assert Put(s.blocks, r) == [r];
    PruneOne(r, Low(s.maxBlocks, height));
  }

  lemma SortOne(x: int)
    ensures Sort([x]) == [x]
  {
    assert [x][1..] == [];
  }

  lemma PruneOne(r: Record, low: int)
    requires |r.fees| == 1
    ensures Count([r]) == 1
    ensures r.height >= low ==> Prune([r], low) == [r] && Expired([r], low) == 0
  {
    assert [r][1..] == [] && Samples([r]) == r.fees + Samples([]);
  }

  method Merge(blocks: seq<Record>) returns (merged: seq<int>)
    ensures merged == Samples(blocks)
  {
    merged := [];
    var i := 0;
    assert blocks[0..] == blocks;
    while i < |blocks|
      invariant 0 <= i <= |blocks| && merged + Samples(blocks[i..]) == Samples(blocks)
    {
      assert blocks[i..][1..] == blocks[i + 1..];
      merged := merged + blocks[i].fees;
      i := i + 1;
    }
    assert blocks[i..] == [];
  }

  /** The records from `low` on, and the total without the samples of the others. */
  method Keep(bs: seq<Record>, low: int, total0: int) returns (kept: seq<Record>, total: int)
    ensures kept == Prune(bs, low) && total == total0 - Expired(bs, low)
  {
    kept, total := [], total0;
    var i := 0;
    assert bs[0..] == bs;
    while i < |bs|
      invariant 0 <= i <= |bs| && Prune(bs, low) == kept + Prune(bs[i..], low)
      invariant total - Expired(bs[i..], low) == total0 - Expired(bs, low)
    {
      assert bs[i..][1..] == bs[i + 1..] && bs[i..][0] == bs[i];
      if bs[i].height < low {
        total := total - |bs[i].fees|;
      } else {
        kept := kept + [bs[i]];
      }
      i := i + 1;
    }
    assert bs[i..] == [];
  }
}
