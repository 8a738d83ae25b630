/**
The choice of the tried entry that makes room: the first few places of the bucket are redrawn, the
entry with the oldest success among them is remembered, and the place it was drawn from is returned.
*/
module AddrSelect {
  import opened AddrTables
  import opened IntSets
  import S = AddrSteps

  const TRIED_ENTRIES_INSPECT_ON_EVICT := 4

  /** How many entries of a bucket are looked at. */
  function Inspected(size: nat): nat {
    if size < TRIED_ENTRIES_INSPECT_ON_EVICT then size else TRIED_ENTRIES_INSPECT_ON_EVICT
  }

  /** One draw for every entry looked at, each at or after the place it refills. */
  predicate BucketDraws(size: nat, draws: seq<nat>) {
    S.PossibleDraws(size, draws) && |draws| == Inspected(size)
  }

  function Swapped(s: seq<int>, i: nat, j: nat): seq<int>
    requires i < |s| && j < |s|
  {
    s[j := s[i]][i := s[j]]
  }

  /** The bucket after its first places have been redrawn one after the other. */
  function Shuffled(bucket: seq<int>, draws: seq<nat>): (r: seq<int>)
    requires S.PossibleDraws(|bucket|, draws)
    ensures |r| == |bucket| && multiset(r) == multiset(bucket)
  {
    if draws == [] then bucket
    else
      var last := |draws| - 1;
      SwapKeepsMultiset(Shuffled(bucket, draws[..last]), last, draws[last]);
      Swapped(Shuffled(bucket, draws[..last]), last, draws[last])
  }

  /** Among the first `m` entries, the first with the least last success. */
  function FirstOldest(bucket: seq<int>, info: map<int, Info>, m: nat): (i: nat)
    requires 0 < m <= |bucket| && forall j :: 0 <= j < m ==> bucket[j] in info
    ensures i < m
    ensures forall j :: 0 <= j < m ==> Success(bucket, info, i) <= Success(bucket, info, j)
    ensures forall j :: 0 <= j < i ==> Success(bucket, info, i) < Success(bucket, info, j)
  {
    if m == 1 then 0
    else
      var i := FirstOldest(bucket, info, m - 1);
      if Success(bucket, info, m - 1) < Success(bucket, info, i) then m - 1 else i
  }

  function Success(bucket: seq<int>, info: map<int, Info>, j: nat): int
    requires j < |bucket| && bucket[j] in info
  {
    info[bucket[j]].lastSuccess
  }

  predicate Known(bucket: seq<int>, info: map<int, Info>) {
    forall j :: 0 <= j < |bucket| ==> bucket[j] in info && bucket[j] >= 0
  }

  /** Where the oldest of the inspected entries stands after the shuffle. */
  function OldestPlace(bucket: seq<int>, info: map<int, Info>, draws: seq<nat>): (i: nat)
    requires bucket != [] && Known(bucket, info) && BucketDraws(|bucket|, draws)
    ensures i < |draws|
  {
    ShuffledKnown(bucket, info, draws);
    FirstOldest(Shuffled(bucket, draws), info, |draws|)
  }

  /** The place the program answers: the draw at the oldest entry, where that entry stood just before. */
  function Answer(bucket: seq<int>, info: map<int, Info>, draws: seq<nat>): (pos: nat)
    requires bucket != [] && Known(bucket, info) && BucketDraws(|bucket|, draws)
    ensures pos < |bucket|
  {
    draws[OldestPlace(bucket, info, draws)]
  }

  /** The entry that gives up its place. */
  function Evicted(bucket: seq<int>, info: map<int, Info>, draws: seq<nat>): int
    requires bucket != [] && Known(bucket, info) && BucketDraws(|bucket|, draws)
  {
    Shuffled(bucket, draws)[Answer(bucket, info, draws)]
  }

  /** The order and the place of an eviction are those the draws make of the bucket. */
  predicate Selected(bucket: seq<int>, info: map<int, Info>, draws: seq<nat>, c: Choice) {
    && bucket != [] && Known(bucket, info) && BucketDraws(|bucket|, draws)
    && c.bucket == Shuffled(bucket, draws) && c.pos == Answer(bucket, info, draws)
  }

  lemma SwapKeepsMultiset(s: seq<int>, i: nat, j: nat)
    requires i < |s| && j < |s|
    ensures multiset(Swapped(s, i, j)) == multiset(s)
  {
  }

  lemma ShuffledKnown(bucket: seq<int>, info: map<int, Info>, draws: seq<nat>)
    requires S.PossibleDraws(|bucket|, draws) && Known(bucket, info)
    ensures Known(Shuffled(bucket, draws), info)
  {
    var v := Shuffled(bucket, draws);
    ReorderedSame(v, bucket);
    forall j | 0 <= j < |v| ensures v[j] in info && v[j] >= 0 {
      assert v[j] in v;
      var k :| 0 <= k < |bucket| && bucket[k] == v[j];
    }
  }

  /** The choice among the first entries depends on those entries alone. */
  lemma {:induction false} FirstOldestFront(v: seq<int>, w: seq<int>, info: map<int, Info>, m: nat)
    requires 0 < m <= |v| && m <= |w| && forall j :: 0 <= j < m ==> v[j] == w[j] && v[j] in info
    ensures FirstOldest(v, info, m) == FirstOldest(w, info, m)
  {
    if m > 1 {
      FirstOldestFront(v, w, info, m - 1);
    }
  }

  /** One more draw, as the loop makes it. */
  lemma ShuffleOnce(bucket: seq<int>, draws: seq<nat>, p: nat)
    requires S.PossibleDraws(|bucket|, draws) && |draws| <= p < |bucket|
    ensures S.PossibleDraws(|bucket|, draws + [p])
    ensures Shuffled(bucket, draws + [p]) == Swapped(Shuffled(bucket, draws), |draws|, p)
  {
    assert (draws + [p])[..|draws|] == draws;
  }

  /**
  The entry evicted is the first oldest of those inspected if and only if the draw that fetched that one
  left it where it stood.  No inspected entry is older than the evicted one if and only if the evicted
  one is no newer than that first oldest.
  */
  lemma EvictsOldest(bucket: seq<int>, info: map<int, Info>, draws: seq<nat>, i: nat)
    requires bucket != [] && Distinct(bucket) && Known(bucket, info) && BucketDraws(|bucket|, draws)
    requires i == OldestPlace(bucket, info, draws)
    ensures Evicted(bucket, info, draws) == Shuffled(bucket, draws)[i] <==> draws[i] == i
    ensures Known(Shuffled(bucket, draws), info)
    ensures
      var v, p := Shuffled(bucket, draws), draws[i];
      (forall j :: 0 <= j < |draws| ==> Success(v, info, p) <= Success(v, info, j))
      <==> Success(v, info, p) <= Success(v, info, i)
  {
    ShuffledKnown(bucket, info, draws);
    ReorderedSame(Shuffled(bucket, draws), bucket);
  }

  /**
  When the oldest entry was fetched from behind the inspected places and no later draw hits the place
  it came from, the entry evicted is the one that stood at its new place before.
  */
  lemma EvictsDisplaced(bucket: seq<int>, info: map<int, Info>, draws: seq<nat>, i: nat, p: nat)
    requires bucket != [] && Known(bucket, info) && BucketDraws(|bucket|, draws)
    requires i == OldestPlace(bucket, info, draws) && p == draws[i] && p >= |draws|
    requires forall n :: i < n < |draws| ==> draws[n] != p
    ensures Evicted(bucket, info, draws) == Shuffled(bucket, draws[..i])[i]
  {
    PlaceUntouched(bucket, draws, i + 1, p);
    LastDraw(bucket, draws[..i + 1], draws[..i], i, p);
  }

  lemma LastDraw(bucket: seq<int>, draws: seq<nat>, front: seq<nat>, i: nat, p: nat)
    requires S.PossibleDraws(|bucket|, draws) && |draws| == i + 1 && draws[i] == p && front == draws[..i]
    ensures Shuffled(bucket, draws)[p] == Shuffled(bucket, front)[i]
  {
    ShuffleOnce(bucket, front, p);
    assert front + [p] == draws;
  }

  lemma {:induction false} PlaceUntouched(bucket: seq<int>, draws: seq<nat>, m: nat, p: nat)
    requires S.PossibleDraws(|bucket|, draws) && m <= |draws| <= p < |bucket|
    requires forall n :: m <= n < |draws| ==> draws[n] != p
    ensures Shuffled(bucket, draws)[p] == Shuffled(bucket, draws[..m])[p]
    decreases |draws|
  {
    if m < |draws| {
      var front := draws[..|draws| - 1];
      PlaceUntouched(bucket, front, m, p);
      assert front[..m] == draws[..m];
    } else {
      assert draws[..m] == draws;
    }
  }

  /**
  In every bucket of eight or more entries, a full one among them, some draws evict an entry that
  was never looked at: each inspected entry is fetched from behind and its old place given up.
  */
  lemma CanMissAll(bucket: seq<int>, info: map<int, Info>, draws: seq<nat>)
    requires |bucket| >= 8 && Distinct(bucket) && Known(bucket, info) && draws == [4, 5, 6, 7]
    ensures BucketDraws(|bucket|, draws)
    ensures forall j :: 0 <= j < |draws| ==> Shuffled(bucket, draws)[j] != Evicted(bucket, info, draws)
  {
    ReorderedSame(Shuffled(bucket, draws), bucket);
    var i := OldestPlace(bucket, info, draws);
    assert draws[i] == i + 4;
  }

  /** A bucket of two: the older entry is fetched to the front, and the younger one evicted in its stead. */
  lemma TwoEntriesMiss(bucket: seq<int>, info: map<int, Info>, draws: seq<nat>)
    requires bucket == [0, 1] && draws == [1, 1]
    requires 0 in info && 1 in info && info[1].lastSuccess < info[0].lastSuccess
    ensures Known(bucket, info) && BucketDraws(|bucket|, draws)
    ensures Shuffled(bucket, draws)[OldestPlace(bucket, info, draws)] == 1
    ensures Evicted(bucket, info, draws) == 0
  {
    var one := draws[..1];
    assert one[..0] == [] && S.PossibleDraws(2, one);
    assert Shuffled(bucket, one[..0]) == bucket;
    LastSwap(bucket, one, [1, 0]);
    LastSwap(bucket, draws, [1, 0]);
    FirstOfTwo([1, 0], info);
  }

  lemma LastSwap(bucket: seq<int>, draws: seq<nat>, r: seq<int>)
    requires draws != [] && S.PossibleDraws(|bucket|, draws) && |r| == |bucket|
    requires Swapped(Shuffled(bucket, draws[..|draws| - 1]), |draws| - 1, draws[|draws| - 1]) == r
    ensures Shuffled(bucket, draws) == r
  {
  }

  lemma FirstOfTwo(v: seq<int>, info: map<int, Info>)
    requires |v| == 2 && v[0] in info && v[1] in info && info[v[0]].lastSuccess < info[v[1]].lastSuccess
    ensures FirstOldest(v, info, 2) == 0
  {
  }

  // ---------------------------------------------------------------- the loop

  /** After some draws: the bucket so far, the oldest entry among the places redrawn, and where it came from. */
  predicate Looked(bucket: seq<int>, info: map<int, Info>, draws: seq<nat>, v: seq<int>, oldest: int, pos: int) {
    && S.PossibleDraws(|bucket|, draws) && v == Shuffled(bucket, draws) && Known(v, info)
    && if draws == [] then oldest == -1 && pos == -1
       else
         var i := FirstOldest(v, info, |draws|);
         oldest == v[i] && pos == draws[i]
  }

  lemma LookOnce(bucket: seq<int>, info: map<int, Info>, draws: seq<nat>, v: seq<int>, oldest: int, pos: int, p: nat)
    requires Looked(bucket, info, draws, v, oldest, pos) && |draws| <= p < |v|
    ensures v[p] in info && (oldest == -1 || oldest in info)
    ensures
      var better := oldest == -1 || info[v[p]].lastSuccess < info[oldest].lastSuccess;
      Looked(bucket, info, draws + [p], Swapped(v, |draws|, p), if better then v[p] else oldest, if better then p else pos)
  {
    var w := Swapped(v, |draws|, p);
    ShuffleOnce(bucket, draws, p);
    SwappedKnown(v, info, |draws|, p);
    if draws != [] {
      FirstOldestFront(v, w, info, |draws|);
    }
    FirstOldestNext(w, info, |draws|);
  }

  lemma SwappedKnown(v: seq<int>, info: map<int, Info>, i: nat, j: nat)
    requires Known(v, info) && i < |v| && j < |v|
    ensures Known(Swapped(v, i, j), info)
  {
  }

  lemma FirstOldestNext(v: seq<int>, info: map<int, Info>, m: nat)
    requires m < |v| && Known(v, info)
    ensures FirstOldest(v, info, m + 1) ==
            if m == 0 || Success(v, info, m) < Success(v, info, FirstOldest(v, info, m)) then m
            else FirstOldest(v, info, m)
  {
  }

  lemma LookedAnswers(bucket: seq<int>, info: map<int, Info>, draws: seq<nat>, v: seq<int>, oldest: int, pos: int)
    requires Looked(bucket, info, draws, v, oldest, pos) && |draws| == Inspected(|bucket|) && Known(bucket, info)
    ensures pos == if bucket == [] then -1 else Answer(bucket, info, draws)
  {
  }
}
