/** Walking a finite set of integers in ascending order, as an ordered container is walked. */
module IntSets {

  function Least(s: set<int>): (m: int)
    requires s != {}
    ensures m in s && forall x <- s :: m <= x
  {
    LeastExists(s);
    var m :| m in s && forall x <- s :: m <= x;
    m
  }

  lemma Member<X>(s: set<X>) returns (x: X)
    requires s != {}
    ensures x in s
  {
    x :| x in s;
  }

  lemma {:induction false} LeastExists(s: set<int>)
    requires s != {}
    ensures exists m :: m in s && forall x <- s :: m <= x
    decreases |s|
  {
    var y := Member(s);
    var rest := s - {y};
    if rest == {} {
      assert s == {y};
    } else {
      LeastExists(rest);
      var m :| m in rest && forall x <- rest :: m <= x;
      var w := if m <= y then m else y;
      assert s == rest + {y};
      assert w in s && forall x <- s :: w <= x;
    }
  }

  ghost predicate Increasing(s: seq<int>) {
    forall i, j :: 0 <= i < j < |s| ==> s[i] < s[j]
  }

  /** The members in ascending order. */
  function Ascending(s: set<int>): (r: seq<int>)
    ensures |r| == |s| && Increasing(r) && forall x :: x in r <==> x in s
    decreases |s|
  {
    if s == {} then []
    else
      var m := Least(s);
      [m] + Ascending(s - {m})
  }

  function IndexOf(s: seq<int>, x: int): (i: nat)
    requires x in s
    ensures i < |s| && s[i] == x
  {
    if s[0] == x then 0 else 1 + IndexOf(s[1..], x)
  }

  lemma IndexUnique(s: seq<int>, i: nat)
    requires Increasing(s) && i < |s|
    ensures IndexOf(s, s[i]) == i
  {
    var j := IndexOf(s, s[i]);
    assert !(i < j) && !(j < i);
  }

  ghost predicate SameMembers(a: seq<int>, b: seq<int>) { forall x :: x in a <==> x in b }

  lemma TailMembers(r: seq<int>)
    requires r != [] && Increasing(r)
    ensures Increasing(r[1..]) && forall x :: x in r[1..] <==> x in r && x != r[0]
  {
    assert r == [r[0]] + r[1..];
  }

  lemma SameHead(a: seq<int>, b: seq<int>)
    requires a != [] && b != [] && Increasing(a) && Increasing(b) && SameMembers(a, b)
    ensures a[0] == b[0] && SameMembers(a[1..], b[1..])
  {
    assert a[0] in a && b[0] in b;
    TailMembers(a);
    TailMembers(b);
  }

  lemma HasFirst(s: seq<int>)
    ensures s != [] ==> s[0] in s
  {
  }

  lemma {:induction false} IncreasingSame(a: seq<int>, b: seq<int>)
    requires Increasing(a) && Increasing(b) && SameMembers(a, b)
    ensures a == b
  {
    HasFirst(a);
    HasFirst(b);
    if a != [] {
      SameHead(a, b);
      TailMembers(a);
      TailMembers(b);
      IncreasingSame(a[1..], b[1..]);
      assert a == [a[0]] + a[1..] && b == [b[0]] + b[1..];
    }
  }

  /** Ascending order leaves no choice: the members determine the sequence. */
  lemma AscendingUnique(s: set<int>, r: seq<int>)
    requires Increasing(r) && forall x :: x in r <==> x in s
    ensures r == Ascending(s)
  {
    IncreasingSame(r, Ascending(s));
  }

  predicate Distinct(s: seq<int>) {
    forall i, j :: 0 <= i < j < |s| ==> s[i] != s[j]
  }

  lemma {:induction false} DistinctSize(s: seq<int>, ids: set<int>)
    requires Distinct(s) && forall id :: id in s <==> id in ids
    ensures |s| == |ids|
  {
    if s == [] {
      if ids != {} {
        var x := Member(ids);
        assert false;
      }
    } else {
      var x := s[|s| - 1];
      var front := s[..|s| - 1];
      assert s == front + [x];
      DistinctSize(front, ids - {x});
    }
  }

  lemma {:induction false} IntervalSize(s: set<int>, lo: int, hi: int)
    requires lo <= hi && forall k :: k in s <==> lo <= k < hi
    ensures |s| == hi - lo
    decreases hi - lo
  {
    if lo == hi {
      if s != {} {
        var x := Member(s);
        assert false;
      }
    } else {
      IntervalSize(s - {hi - 1}, lo, hi - 1);
      assert hi - 1 in s;
    }
  }
}
