/**
Synchronized checkpoints.  A received checkpoint replaces the current one only when it lies on a
branch that grows out of it; what the loops over parents compute is stated through ancestry.
*/
module SyncCheckpoints {
  type Hash = int

  /** A block index entry; the hash of a block is its key. */
  datatype Node = Node(height: int, time: int, parent: Parent)
  datatype Parent = NoParent | Parent(hash: Hash)

  type Tree = map<Hash, Node>

  predicate NodeOk(t: Tree, h: Hash)
    requires h in t
  {
    match t[h].parent
    case NoParent => t[h].height == 0
    case Parent(p) => p in t && t[h].height == t[p].height + 1 && t[h].height > 0
  }

  /** Every block's parent is there, one lower, down to height zero. */
  predicate WellFormed(t: Tree) { forall h <- t :: NodeOk(t, h) }

  /** `n` steps towards the root. */
  function Up(t: Tree, h: Hash, n: nat): Hash
    requires WellFormed(t) && h in t && n <= t[h].height
    ensures Up(t, h, n) in t && t[Up(t, h, n)].height == t[h].height - n
    decreases n
  {
    if n == 0 then h else
    assert NodeOk(t, h);
    assert t[h].parent.Parent?;
    Up(t, t[h].parent.hash, n - 1)
  }

  /** `a` is `b` or lies below it on its branch. */
  ghost predicate Ancestor(t: Tree, a: Hash, b: Hash)
    requires WellFormed(t) && b in t
  {
    exists n: nat :: n <= t[b].height && Up(t, b, n) == a
  }

  ghost predicate ProperAncestor(t: Tree, a: Hash, b: Hash)
    requires WellFormed(t) && b in t
  {
    a != b && Ancestor(t, a, b)
  }

  lemma HeightNonNegative(t: Tree, h: Hash)
    requires WellFormed(t) && h in t
    ensures t[h].height >= 0
  {
    assert NodeOk(t, h);
  }

  /** At a given height a branch has one block. */
  lemma AncestorAtHeight(t: Tree, a: Hash, b: Hash)
    requires WellFormed(t) && a in t && b in t
    ensures Ancestor(t, a, b) <==> t[a].height <= t[b].height && Up(t, b, t[b].height - t[a].height) == a
  {
    HeightNonNegative(t, a);
  }

  lemma {:induction false} UpUp(t: Tree, h: Hash, m: nat, n: nat)
    requires WellFormed(t) && h in t && m + n <= t[h].height
    ensures Up(t, Up(t, h, m), n) == Up(t, h, m + n)
    decreases m
  {
    if m > 0 {
      assert NodeOk(t, h);
      UpUp(t, t[h].parent.hash, m - 1, n);
    }
  }

  lemma AncestorTransitive(t: Tree, a: Hash, b: Hash, c: Hash)
    requires WellFormed(t) && b in t && c in t && Ancestor(t, a, b) && Ancestor(t, b, c)
    ensures Ancestor(t, a, c)
  {
    var m: nat :| m <= t[c].height && Up(t, c, m) == b;
    var n: nat :| n <= t[b].height && Up(t, b, n) == a;
    UpUp(t, c, m, n);
  }

  lemma {:induction false} UpGrows(t: Tree, u: Tree, h: Hash, n: nat)
    requires WellFormed(t) && WellFormed(u) && h in t && n <= t[h].height
    requires forall k <- t :: k in u && u[k] == t[k]
    ensures Up(u, h, n) == Up(t, h, n)
    decreases n
  {
    if n > 0 {
      assert NodeOk(t, h);
      UpGrows(t, u, t[h].parent.hash, n - 1);
    }
  }

  /** New blocks do not change who is below whom. */
  lemma AncestorGrows(t: Tree, u: Tree, a: Hash, b: Hash)
    requires WellFormed(t) && WellFormed(u) && b in t
    requires forall k <- t :: k in u && u[k] == t[k]
    ensures Ancestor(u, a, b) <==> Ancestor(t, a, b)
  {
    forall n: nat | n <= t[b].height ensures Up(u, b, n) == Up(t, b, n) {
      UpGrows(t, u, b, n);
    }
  }

  // ---------------------------------------------------------------- the checkpoint state

  /** Zero is no hash of a block. */
  const NONE: Hash := 0

  datatype State = State(index: Tree, sync: Hash, stored: Hash, pending: Hash, invalid: Hash)

  /** How the disk and the switch of the best chain turn out, when they are asked. */
  datatype Luck = Luck(inMainChain: bool, read: bool, setBest: bool, write: bool, commit: bool)

  predicate Valid(s: State) {
    WellFormed(s.index) && s.sync in s.index && NONE !in s.index && s.stored == s.sync
  }

  datatype Outcome = Accept | Older | Conflict | MissingCurrent | MissingReceived

  /** The decision, in terms of ancestry alone. */
  ghost function Decide(s: State, received: Hash): Outcome
    requires WellFormed(s.index)
  {
    if s.sync !in s.index then MissingCurrent
    else if received !in s.index then MissingReceived
    else if ProperAncestor(s.index, s.sync, received) then Accept
    else if Ancestor(s.index, received, s.sync) then Older
    else Conflict
  }

  ghost function Validated(s: State, received: Hash): State
    requires WellFormed(s.index)
  {
    if Decide(s, received).Conflict? then s.(invalid := received) else s
  }

  ghost function Accepted(s: State, l: Luck): State
    requires WellFormed(s.index)
  {
    if s.pending == NONE || s.pending !in s.index then s
    else if !Decide(s, s.pending).Accept? then Validated(s, s.pending).(pending := NONE)
    else if !l.inMainChain && !l.read then s
    else if !l.inMainChain && !l.setBest then s.(invalid := s.pending)
    else if !l.write || !l.commit then s
    else s.(sync := s.pending, stored := s.pending, pending := NONE)
  }

  class Checkpoints {
    var index: Tree
    var sync: Hash
    var stored: Hash
    var pending: Hash
    var invalid: Hash

    function S(): State
      reads this
    {
      State(index, sync, stored, pending, invalid)
    }

    constructor (t: Tree, genesis: Hash)
      ensures S() == State(t, genesis, genesis, genesis, NONE)
    {
      index, sync, stored, pending, invalid := t, genesis, genesis, genesis, NONE;
    }

    /** From `from` down to height `height`; null parents are never met. */
    method TraceBack(from: Hash, height: int) returns (h: Hash)
      requires WellFormed(index) && from in index && 0 <= height <= index[from].height
      ensures h == Up(index, from, index[from].height - height)
    {
      h := from;
      ghost var n: nat := 0;
      while index[h].height > height
        invariant n <= index[from].height - height && h == Up(index, from, n)
        decreases index[h].height - height
      {
        assert NodeOk(index, h);
        UpUp(index, from, n, 1);
        var parent := index[h].parent;
        if parent.NoParent? {
          assert false;
        }
        h := parent.hash;
        n := n + 1;
        assert Up(index, Up(index, from, n - 1), 1) == h;
      }
    }

    /** True for a proper descendant of the current checkpoint; an incomparable one is remembered as invalid. */
    method ValidateSyncCheckpoint(received: Hash) returns (ok: bool)
      requires WellFormed(index)
      modifies this`invalid
      ensures ok <==> Decide(old(S()), received).Accept?
      ensures S() == Validated(old(S()), received)
    {
      if sync !in index {
        return false;
      }
      if received !in index {
        return false;
      }
      HeightNonNegative(index, sync);
      HeightNonNegative(index, received);
      AncestorAtHeight(index, received, sync);
      AncestorAtHeight(index, sync, received);
      if index[received].height <= index[sync].height {
        var h := TraceBack(sync, index[received].height);
        if h != received {
          invalid := received;
          return false;
        }
        return false;
      }
      var h := TraceBack(received, index[sync].height);
      if h != sync {
        invalid := received;
        return false;
      }
      return true;
    }

    method WriteSyncCheckpoint(h: Hash, l: Luck) returns (ok: bool)
      modifies this`sync, this`stored
      ensures ok <==> l.write && l.commit
      ensures S() == if ok then old(S()).(sync := h, stored := h) else old(S())
    {
      if !l.write {
        return false;
      }
      if !l.commit {
        return false;
      }
      stored := h;
      sync := h;
      return true;
    }

    method AcceptPendingSyncCheckpoint(l: Luck) returns (ok: bool)
      requires WellFormed(index)
      modifies this
      ensures S() == Accepted(old(S()), l)
      ensures ok ==> sync == old(pending)
    {
      if pending != NONE && pending in index {
        var valid := ValidateSyncCheckpoint(pending);
        if !valid {
          pending := NONE;
          return false;
        }
        if !l.inMainChain {
          if !l.read {
            return false;
          }
          if !l.setBest {
            invalid := pending;
            return false;
          }
        }
        var written := WriteSyncCheckpoint(pending, l);
        if !written {
          return false;
        }
        pending := NONE;
        return true;
      }
      return false;
    }

    /** Backward from the tip to the first block that is old and deep enough, or to the root. */
    method AutoSelectSyncCheckpoint(best: Hash, span: int) returns (h: Hash)
      requires WellFormed(index) && best in index
      ensures Ancestor(index, h, best) && h in index
      ensures index[h].parent.NoParent? || Mature(index, h, best, span)
      ensures forall n: nat :: n < index[best].height - index[h].height ==> !Mature(index, Up(index, best, n), best, span)
    {
      h := best;
      ghost var n: nat := 0;
      HeightNonNegative(index, best);
      while index[h].parent.Parent? && !Mature(index, h, best, span)
        invariant n <= index[best].height && h == Up(index, best, n)
        invariant forall k: nat :: k < n ==> !Mature(index, Up(index, best, k), best, span)
        decreases index[h].height
      {
        assert NodeOk(index, h);
        UpUp(index, best, n, 1);
        h := index[h].parent.hash;
        n := n + 1;
        HeightNonNegative(index, h);
        assert Up(index, Up(index, best, n - 1), 1) == h;
      }
    }
  }

  predicate Mature(t: Tree, h: Hash, best: Hash, span: int)
    requires h in t && best in t
  {
    !(t[h].time + span > t[best].time || t[h].height + 8 > t[best].height)
  }

  /** The three answers exclude each other and say how the two checkpoints lie. */
  lemma DecisionIsAncestry(s: State, received: Hash)
    requires Valid(s) && received in s.index
    ensures Decide(s, received).Accept? <==> ProperAncestor(s.index, s.sync, received)
    ensures Decide(s, received).Older? <==> Ancestor(s.index, received, s.sync)
    ensures Decide(s, received).Conflict?
       <==> !Ancestor(s.index, s.sync, received) && !Ancestor(s.index, received, s.sync)
  {
    AncestorAtHeight(s.index, s.sync, received);
    AncestorAtHeight(s.index, received, s.sync);
    assert Ancestor(s.index, s.sync, s.sync) by { assert Up(s.index, s.sync, 0) == s.sync; }
  }

  /** Old enough by the given span and at least eight blocks deep, seen from the tip. */
  lemma MatureIs(t: Tree, h: Hash, best: Hash, span: int)
    requires h in t && best in t
    ensures Mature(t, h, best, span) <==> t[best].time - t[h].time >= span && t[best].height - t[h].height >= 8
  {
  }

  /** The pending checkpoint becomes the current one, on disk and in memory, exactly when it descends from the current
      one, the best chain has it or can be switched to it, and it is written.  It is dropped then, and when it does
      not descend; it is held invalid when the two lie on different branches, or its branch cannot be made the best. */
  lemma PendingDecided(s: State, l: Luck, p: Hash)
    requires Valid(s) && p == s.pending
    ensures
      var z := Accepted(s, l);
      var known := p in s.index;
      var grows := known && ProperAncestor(s.index, s.sync, p);
      var apart := known && !Ancestor(s.index, s.sync, p) && !Ancestor(s.index, p, s.sync);
      var moves := grows && (l.inMainChain || (l.read && l.setBest)) && l.write && l.commit;
      && z.index == s.index
      && z.sync == (if moves then p else s.sync) && z.stored == z.sync
      && z.pending == (if known && (moves || !grows) then 0 else p)
      && z.invalid == (if apart || (grows && !l.inMainChain && l.read && !l.setBest) then p else s.invalid)
  {
    if p in s.index {
      DecisionIsAncestry(s, p);
    }
  }

  // ---------------------------------------------------------------- runs

  datatype Event = NewBlock(hash: Hash, node: Node) | Receive(hash: Hash) | Process(luck: Luck)

  ghost predicate Possible(s: State, e: Event) {
    match e
    case NewBlock(h, node) => h !in s.index && h != NONE && WellFormed(s.index[h := node])
    case Receive(_) => true
    case Process(_) => true
  }

  ghost function Step(s: State, e: Event): State
    requires Valid(s) && Possible(s, e)
  {
    match e
    case NewBlock(h, node) => s.(index := s.index[h := node])
    case Receive(h) => s.(pending := h)
    case Process(l) => Accepted(s, l)
  }

  /** A step keeps the checkpoint or moves it to a proper descendant, and disk and memory agree. */
  lemma StepMovesForward(s: State, e: Event)
    requires Valid(s) && Possible(s, e)
    ensures
      var z := Step(s, e);
      && Valid(z)
      && Ancestor(z.index, s.sync, z.sync)
      && (z.sync != s.sync ==> e.Process? && s.pending == z.sync && ProperAncestor(z.index, s.sync, z.sync))
  {
    assert Up(s.index, s.sync, 0) == s.sync;
    if e.NewBlock? {
      AncestorGrows(s.index, s.index[e.hash := e.node], s.sync, s.sync);
    }
  }

  ghost predicate Run(ys: seq<State>, es: seq<Event>) {
    && |ys| == |es| + 1
    && Valid(ys[0])
    && forall i :: 0 <= i < |es| ==> StepAt(ys, es, i)
  }

  ghost predicate StepAt(ys: seq<State>, es: seq<Event>, i: nat)
    requires |ys| == |es| + 1 && i < |es|
  {
    Valid(ys[i]) && Possible(ys[i], es[i]) && ys[i + 1] == Step(ys[i], es[i])
  }

  ghost predicate Below(a: State, b: State) { Valid(b) && Ancestor(b.index, a.sync, b.sync) }

  lemma BelowStep(a: State, s: State, e: Event)
    requires Below(a, s) && Possible(s, e)
    ensures Below(a, Step(s, e))
  {
    StepMovesForward(s, e);
    AncestorGrows(s.index, Step(s, e).index, a.sync, s.sync);
    AncestorTransitive(Step(s, e).index, a.sync, s.sync, Step(s, e).sync);
  }

  lemma BelowItself(s: State)
    requires Valid(s)
    ensures Below(s, s)
  {
    assert Up(s.index, s.sync, 0) == s.sync;
  }

  lemma {:induction false} RunValid(ys: seq<State>, es: seq<Event>, i: nat)
    requires Run(ys, es) && i < |ys|
    ensures Valid(ys[i])
  {
    if i > 0 {
      assert StepAt(ys, es, i - 1);
      StepMovesForward(ys[i - 1], es[i - 1]);
    }
  }

  /** Over a whole run the checkpoint only moves to descendants, whatever is received and however the disk behaves. */
  lemma {:induction false} RunMovesForward(ys: seq<State>, es: seq<Event>, i: nat, j: nat)
    requires Run(ys, es) && i <= j < |ys|
    ensures Below(ys[i], ys[j])
    decreases j
  {
    if i == j {
      RunValid(ys, es, i);
      BelowItself(ys[i]);
    } else {
      RunMovesForward(ys, es, i, j - 1);
      assert StepAt(ys, es, j - 1);
      BelowStep(ys[i], ys[j - 1], es[j - 1]);
    }
  }
}
