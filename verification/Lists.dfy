/** What several modules do with sequences. */
module Lists {
  /** The lists one after the other. */
  function Flat<T>(lists: seq<seq<T>>): seq<T> {
    if lists == [] then [] else Flat(lists[..|lists| - 1]) + lists[|lists| - 1]
  }

  function Backward<T>(s: seq<T>): (r: seq<T>)
    ensures |r| == |s|
  {
    seq(|s|, i requires 0 <= i < |s| => s[|s| - 1 - i])
  }

  lemma BackwardLast<T>(s: seq<T>, x: T)
    ensures Backward(Backward(s) + [x]) == [x] + s
  {
  }

  lemma BackwardTwice<T>(s: seq<T>)
    ensures Backward(Backward(s)) == s
  {
  }
}
