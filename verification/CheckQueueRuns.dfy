/** Every interleaving of a master and its workers over the check queue. */
module CheckQueueRuns {
  import opened CheckQueue

  /** A thread is outside the loop, asleep on its condition variable, or running a chunk. */
  datatype Where = Out | Asleep(notified: bool) | Running(left: seq<Check>)

  /** `ok` is set when the thread enters the loop and never set again; `before` is what it was when
      the thread took its chunk. */
  datatype Thread = Thread(at: Where, ok: bool, chunk: seq<Check>, before: bool)

  /** A chunk that was handed back, and its thread's flag when it was taken and when it came back. */
  datatype Done = Done(chunk: seq<Check>, before: bool, ok: bool)

  datatype Phase = Idle | Filling | Waiting

  datatype System = System(
    shared: Shared, phase: Phase, master: Thread, workers: seq<Thread>,
    added: seq<Check>, taken: seq<Check>, done: seq<Done>, verdict: bool, failed: bool)

  function Init(batchSize: nat, n: nat): System {
    System(Shared([], 0, 0, true, 0, false, batchSize), Idle, Thread(Out, true, [], true),
           seq(n, _ => Thread(Out, true, [], true)), [], [], [], true, false)
  }

  function Get(y: System, who: int): Thread
    requires -1 <= who < |y.workers|
  {
    if who == MASTER then y.master else y.workers[who]
  }

  const MASTER := -1

  function Put(y: System, who: int, th: Thread): System
    requires -1 <= who < |y.workers|
  {
    if who == MASTER then y.(master := th) else y.(workers := y.workers[who := th])
  }

  function Notify(th: Thread): Thread {
    if th.at.Asleep? then th.(at := Asleep(true)) else th
  }

  /** A thread that holds the mutex goes through the loop head. */
  function AtHead(y: System, who: int): System
    requires -1 <= who < |y.workers| && y.shared.nTotal >= 0
  {
    var (s, o) := Head(y.shared, who == MASTER);
    var th := Get(y, who);
    match o
    case Sleep => Put(y.(shared := s), who, th.(at := Asleep(false), chunk := []))
    case Leave(v) =>
      var z := Put(y.(shared := s), who, th.(at := Out, chunk := []));
      if who == MASTER then z.(phase := Idle, verdict := v) else z
    case Take(chunk) =>
      Put(y.(shared := s, taken := y.taken + chunk), who, th.(at := Running(chunk), chunk := chunk, before := th.ok))
  }

  datatype Action =
    | Start(who: int)          // a worker thread begins
    | Wake(who: int)           // notified or spuriously
    | Run(who: int)            // one check of the chunk, outside the mutex
    | HandBack(who: int)       // the chunk is done
    | Begin                    // StartBatch
    | Push(checks: seq<Check>) // Add
    | Await                    // Wait
    | Stop                     // Quit

  predicate Enabled(y: System, a: Action) {
    match a
    case Start(w) => 0 <= w < |y.workers| && y.workers[w].at.Out?
    case Wake(w) => -1 <= w < |y.workers| && Get(y, w).at.Asleep?
    case Run(w) => -1 <= w < |y.workers| && Get(y, w).at.Running? && Get(y, w).at.left != []
    case HandBack(w) => -1 <= w < |y.workers| && Get(y, w).at == Running([])
    case Begin => y.phase == Idle
    case Push(_) => y.phase == Filling
    case Await => y.phase == Filling
    case Stop => true
  }

  function Handed(y: System, who: int): System
    requires -1 <= who < |y.workers|
  {
    var th := Get(y, who);
    var z := Put(y, who, th.(at := Asleep(true), chunk := []));
    var s := Finish(y.shared, |th.chunk|, th.ok);
    z.(shared := s, done := y.done + [Done(th.chunk, th.before, th.ok)],
    master := if s.nTodo == 0 then Notify(z.master) else z.master)
  }

  function Executed(y: System, who: int): System
    requires -1 <= who < |y.workers| && Get(y, who).at.Running? && Get(y, who).at.left != []
  {
    var th := Get(y, who);
    var c := th.at.left[0];
    var z := Put(y, who, th.(at := Running(th.at.left[1..]), ok := th.ok && c.pass));
    z.(failed := y.failed || (th.ok && !c.pass))
  }

  function Entered(y: System, who: int): System
    requires -1 <= who < |y.workers|
  {
    Put(y.(shared := Enter(y.shared, who == MASTER), phase := if who == MASTER then Waiting else y.phase), who,
        Thread(Asleep(true), true, [], true))
  }

  function Next(y: System, a: Action): System
    requires Enabled(y, a) && y.shared.nTotal >= 0
  {
    match a
    case Start(w) => AtHead(Entered(y, w), w)
    case Wake(w) => AtHead(y, w)
    case Run(w) => Executed(y, w)
    case HandBack(w) => AtHead(Handed(y, w), w)
    case Begin =>
      y.(shared := y.shared.(allOk := true, nTodo := 0), phase := Filling, added := [], taken := [], done := [])
    case Push(cs) =>
      y.(shared := y.shared.(queue := y.shared.queue + cs, nTodo := y.shared.nTodo + |cs|), added := y.added + cs)
    case Await => AtHead(Entered(y, MASTER), MASTER)
    case Stop =>
      y.(shared := y.shared.(quit := true), master := Notify(y.master),
      workers := seq(|y.workers|, i requires 0 <= i < |y.workers| => Notify(y.workers[i])))
  }

  // ---------------------------------------------------------------- sums over the threads

  function Load(th: Thread): nat { |th.chunk| }

  function Idles(th: Thread): nat { if th.at.Asleep? then 1 else 0 }

  function Inside(th: Thread): nat { if th.at.Out? then 0 else 1 }

  function Sum(ts: seq<Thread>, f: Thread -> nat): nat {
    if ts == [] then 0 else Sum(ts[..|ts| - 1], f) + f(ts[|ts| - 1])
  }

  lemma {:induction false} SumUpdate(ts: seq<Thread>, f: Thread -> nat, i: nat, th: Thread)
    requires i < |ts|
    ensures Sum(ts[i := th], f) == Sum(ts, f) - f(ts[i]) + f(th)
  {
    var last := |ts| - 1;
    if i == last {
      assert ts[i := th][..last] == ts[..last];
    } else {
      assert ts[i := th][..last] == ts[..last][i := th];
      SumUpdate(ts[..last], f, i, th);
    }
  }

  lemma {:induction false} SumSame(a: seq<Thread>, b: seq<Thread>, f: Thread -> nat)
    requires |a| == |b| && forall i :: 0 <= i < |a| ==> f(a[i]) == f(b[i])
    ensures Sum(a, f) == Sum(b, f)
  {
    if a != [] {
      SumSame(a[..|a| - 1], b[..|b| - 1], f);
    }
  }

  /** How often a thread holds a given check. */
  function Holding(c: Check): Thread -> nat { (th: Thread) => multiset(th.chunk)[c] }

  /** How often a given check was handed back. */
  function Returned(ds: seq<Done>, c: Check): nat {
    if ds == [] then 0 else Returned(ds[..|ds| - 1], c) + multiset(ds[|ds| - 1].chunk)[c]
  }

  lemma {:induction false} NothingHeld(ts: seq<Thread>, c: Check)
    requires Sum(ts, Load) == 0
    ensures Sum(ts, Holding(c)) == 0
  {
    if ts != [] {
      NothingHeld(ts[..|ts| - 1], c);
    }
  }

  // ---------------------------------------------------------------- the invariant

  function Loads(y: System): nat { Load(y.master) + Sum(y.workers, Load) }

  function Sleepers(y: System): nat { Idles(y.master) + Sum(y.workers, Idles) }

  function Holds(y: System, c: Check): nat { multiset(y.master.chunk)[c] + Sum(y.workers, Holding(c)) }

  predicate ThreadOk(th: Thread, failed: bool) {
    && (th.at.Running? ==> |th.at.left| <= |th.chunk| && th.at.left == th.chunk[|th.chunk| - |th.at.left|..])
    && (th.at.Running? ==>
          (th.ok <==> th.before && forall i :: 0 <= i < |th.chunk| - |th.at.left| ==> th.chunk[i].pass))
    && (!th.at.Running? ==> th.chunk == [])
    && (!failed ==> th.ok && th.before)
  }

  predicate ThreadsOk(y: System) {
    ThreadOk(y.master, y.failed) && forall i :: 0 <= i < |y.workers| ==> ThreadOk(y.workers[i], y.failed)
  }

  /** The counters tell the truth: `nTodo` is what is queued plus what is being run. */
  predicate Counted(y: System) {
    && y.shared.nTodo == |y.shared.queue| + Loads(y)
    && y.shared.nIdle == Sleepers(y)
    && y.shared.nTotal == Sum(y.workers, Inside)
  }

  /** Checks are taken in the order in which they were added, and each is held or handed back once. */
  ghost predicate Fifo(y: System) {
    && y.added == y.taken + y.shared.queue
    && (forall c :: multiset(y.taken)[c] == Returned(y.done, c) + Holds(y, c))
  }

  predicate AllPass(cs: seq<Check>) { forall i :: 0 <= i < |cs| ==> cs[i].pass }

  predicate DoneOk(y: System) {
    && (y.shared.allOk <==> forall d <- y.done :: d.ok)
    && (forall d <- y.done :: d.ok <==> d.before && AllPass(d.chunk))
    && (!y.failed ==> forall d <- y.done :: d.ok)
  }

  predicate Phased(y: System) {
    && (y.phase == Waiting <==> !y.master.at.Out?)
    && (y.phase == Idle ==> y.shared.queue == [] && (!y.shared.quit ==> y.shared.nTodo == 0))
    && (y.master.at == Asleep(false) ==> !y.shared.quit && y.shared.queue == [] && y.shared.nTodo > 0)
  }

  ghost predicate Inv(y: System) {
    && ThreadsOk(y) && Counted(y) && Fifo(y) && DoneOk(y) && Phased(y)
  }

  // ---------------------------------------------------------------- every step keeps it

  lemma PutSums(y: System, who: int, th: Thread)
    requires -1 <= who < |y.workers|
    ensures
      var z, was := Put(y, who, th), Get(y, who);
      && Loads(z) == Loads(y) - Load(was) + Load(th)
      && Sleepers(z) == Sleepers(y) - Idles(was) + Idles(th)
      && Sum(z.workers, Inside)
         == Sum(y.workers, Inside) + (if who == MASTER then 0 else Inside(th) - Inside(was))
      && (forall c :: Holds(z, c) == Holds(y, c) - multiset(was.chunk)[c] + multiset(th.chunk)[c])
  {
    if who != MASTER {
      SumUpdate(y.workers, Load, who, th);
      SumUpdate(y.workers, Idles, who, th);
      SumUpdate(y.workers, Inside, who, th);
    }
    forall c ensures Holds(Put(y, who, th), c)
                  == Holds(y, c) - multiset(Get(y, who).chunk)[c] + multiset(th.chunk)[c] {
      if who != MASTER {
        SumUpdate(y.workers, Holding(c), who, th);
      }
    }
  }

  lemma PutThreads(y: System, who: int, th: Thread)
    requires -1 <= who < |y.workers| && ThreadOk(th, y.failed) && ThreadsOk(y)
    ensures ThreadsOk(Put(y, who, th))
  {
  }

  lemma {:induction false} EnteredKeeps(y: System, who: int)
    requires Inv(y) && -1 <= who < |y.workers| && Get(y, who).at.Out?
    requires who == MASTER ==> y.phase == Filling
    ensures Inv(Entered(y, who)) && Get(Entered(y, who), who).at.Asleep?
  {
    var th := Thread(Asleep(true), true, [], true);
    PutSums(y, who, th);
    PutThreads(y, who, th);
  }

  lemma {:induction false} HandedKeeps(y: System, who: int, z: System)
    requires Inv(y) && -1 <= who < |y.workers| && Get(y, who).at == Running([]) && z == Handed(y, who)
    ensures Inv(z) && Get(z, who).at.Asleep?
  {
    var was := Get(y, who);
    var th := was.(at := Asleep(true), chunk := []);
    PutSums(y, who, th);
    PutThreads(y, who, th);
    HandedCounts(y, who);
    HandedDone(y, who);
  }

  lemma {:induction false} HandedCounts(y: System, who: int)
    requires Counted(y) && Fifo(y) && ThreadsOk(y) && -1 <= who < |y.workers| && Get(y, who).at == Running([])
    ensures Counted(Handed(y, who)) && Fifo(Handed(y, who))
  {
    var was := Get(y, who);
    var z := Handed(y, who);
    PutSums(y, who, was.(at := Asleep(true), chunk := []));
    assert z.done[..|y.done|] == y.done && z.done[|y.done|] == Done(was.chunk, was.before, was.ok);
  }

  lemma HandedDone(y: System, who: int)
    requires DoneOk(y) && ThreadsOk(y) && -1 <= who < |y.workers| && Get(y, who).at == Running([])
    ensures DoneOk(Handed(y, who))
  {
    var was := Get(y, who);
    var z := Handed(y, who);
    var d := Done(was.chunk, was.before, was.ok);
    assert z.done[|y.done|] == d && d in z.done;
    assert forall e <- y.done :: e in z.done;
    assert forall e <- z.done :: e in y.done || e == d;
    assert ThreadOk(was, y.failed);
  }

  lemma {:induction false} HeadKeeps(y: System, who: int, z: System)
    requires Inv(y) && -1 <= who < |y.workers| && Get(y, who).at.Asleep? && z == AtHead(y, who)
    ensures Inv(z)
  {
    assert ThreadOk(Get(y, who), y.failed);
    if y.shared.queue != [] {
      HeadTakes(y, who);
    } else {
      HeadStops(y, who);
    }
  }

  lemma {:induction false} HeadStops(y: System, who: int)
    requires Inv(y) && -1 <= who < |y.workers| && Get(y, who).at.Asleep? && y.shared.queue == []
    requires ThreadOk(Get(y, who), y.failed)
    ensures Inv(AtHead(y, who))
  {
    var (s, o) := Head(y.shared, who == MASTER);
    var th := Get(y, who).(at := if o.Sleep? then Asleep(false) else Out, chunk := []);
    var z := AtHead(y, who);
    var x := y.(shared := s, phase := z.phase, verdict := z.verdict);
    assert z == Put(x, who, th);
    PutThreads(x, who, th);
    StoppedCounts(y, x, who, th);
    assert z.done == y.done;
  }

  lemma {:induction false} StoppedCounts(y: System, x: System, who: int, th: Thread)
    requires Counted(y) && Fifo(y) && -1 <= who < |y.workers| && Get(y, who).at.Asleep? && Get(y, who).chunk == []
    requires y.shared.queue == [] && x == y.(shared := x.shared, phase := x.phase, verdict := x.verdict)
    requires x.shared == Head(y.shared, who == MASTER).0 && th.chunk == []
    requires th.at == if Head(y.shared, who == MASTER).1.Sleep? then Asleep(false) else Out
    ensures Counted(Put(x, who, th)) && Fifo(Put(x, who, th))
  {
    var z := Put(x, who, th);
    PutSums(x, who, th);
    forall c ensures multiset(z.taken)[c] == Returned(z.done, c) + Holds(z, c) {
      assert Holds(x, c) == Holds(y, c);
    }
  }

  lemma {:induction false} HeadTakes(y: System, who: int)
    requires Inv(y) && -1 <= who < |y.workers| && Get(y, who).at.Asleep? && y.shared.queue != []
    requires ThreadOk(Get(y, who), y.failed)
    ensures Inv(AtHead(y, who))
  {
    var o := Head(y.shared, who == MASTER).1;
    var th := Get(y, who).(at := Running(o.chunk), chunk := o.chunk, before := Get(y, who).ok);
    PutThreads(y, who, th);
    TakenCounts(y, who, th);
    assert AtHead(y, who).done == y.done;
  }

  lemma TakenCounts(y: System, who: int, th: Thread)
    requires Counted(y) && Fifo(y) && -1 <= who < |y.workers| && Get(y, who).at.Asleep? && Get(y, who).chunk == []
    requires y.shared.queue != []
    requires th == Get(y, who).(at := Running(th.chunk), chunk := Head(y.shared, who == MASTER).1.chunk,
                                before := Get(y, who).ok)
    ensures Counted(AtHead(y, who)) && Fifo(AtHead(y, who))
  {
    var s := Head(y.shared, who == MASTER).0;
    var x := y.(shared := s, taken := y.taken + th.chunk);
    assert AtHead(y, who) == Put(x, who, th);
    assert y.shared.queue == th.chunk + s.queue;
    PutSums(x, who, th);
    TakenFifo(y, x, who, th);
  }

  lemma TakenFifo(y: System, x: System, who: int, th: Thread)
    requires Fifo(y) && -1 <= who < |y.workers| && Get(y, who).chunk == []
    requires x == y.(shared := x.shared, taken := y.taken + th.chunk) && y.shared.queue == th.chunk + x.shared.queue
    requires forall c :: Holds(Put(x, who, th), c) == Holds(x, c) - multiset(Get(x, who).chunk)[c] + multiset(th.chunk)[c]
    ensures Fifo(Put(x, who, th))
  {
    var z := Put(x, who, th);
    assert z.added == z.taken + z.shared.queue;
    forall c ensures multiset(z.taken)[c] == Returned(z.done, c) + Holds(z, c) {
      assert multiset(z.taken)[c] == multiset(y.taken)[c] + multiset(th.chunk)[c];
      assert Holds(x, c) == Holds(y, c);
    }
  }

  lemma {:induction false} ExecutedKeeps(y: System, who: int)
    requires Inv(y) && -1 <= who < |y.workers| && Get(y, who).at.Running? && Get(y, who).at.left != []
    ensures Inv(Executed(y, who))
  {
    var was := Get(y, who);
    assert ThreadOk(was, y.failed);
    var th := was.(at := Running(was.at.left[1..]), ok := was.ok && was.at.left[0].pass);
    ExecutedCounts(y, who, th);
    ExecutedThread(was, y.failed);
    ExecutedThreads(y, who, th);
    ExecutedRest(y, who);
  }

  lemma ExecutedCounts(y: System, who: int, th: Thread)
    requires Counted(y) && Fifo(y) && -1 <= who < |y.workers| && Get(y, who).at.Running? && Get(y, who).at.left != []
    requires th.at.Running? && th.chunk == Get(y, who).chunk && Executed(y, who) == Put(y, who, th).(failed := Executed(y, who).failed)
    ensures Counted(Executed(y, who)) && Fifo(Executed(y, who))
  {
    PutSums(y, who, th);
    var z := Executed(y, who);
    forall c ensures Holds(z, c) == Holds(y, c) {
    }
  }

  lemma ExecutedRest(y: System, who: int)
    requires DoneOk(y) && Phased(y) && -1 <= who < |y.workers| && Get(y, who).at.Running? && Get(y, who).at.left != []
    ensures DoneOk(Executed(y, who)) && Phased(Executed(y, who))
  {
  }

  lemma ExecutedThread(was: Thread, failed: bool)
    requires ThreadOk(was, failed) && was.at.Running? && was.at.left != []
    ensures ThreadOk(was.(at := Running(was.at.left[1..]), ok := was.ok && was.at.left[0].pass),
                     failed || (was.ok && !was.at.left[0].pass))
  {
    assert was.at.left[0] == was.chunk[|was.chunk| - |was.at.left|];
  }

  lemma ExecutedThreads(y: System, who: int, th: Thread)
    requires ThreadsOk(y) && -1 <= who < |y.workers| && Get(y, who).at.Running? && Get(y, who).at.left != []
    requires var z := Executed(y, who); z == Put(y, who, th).(failed := z.failed) && ThreadOk(th, z.failed)
    ensures ThreadsOk(Executed(y, who))
  {
    assert forall t: Thread :: ThreadOk(t, y.failed) ==> ThreadOk(t, Executed(y, who).failed);
  }

  lemma {:induction false} StopKeeps(y: System)
    requires Inv(y)
    ensures Inv(Next(y, Stop))
  {
    StopCounts(y);
    StopThreads(y);
    assert DoneOk(Next(y, Stop)) && Phased(Next(y, Stop));
  }

  lemma StopCounts(y: System)
    requires Counted(y) && Fifo(y) && y.shared.nTotal >= 0
    ensures Counted(Next(y, Stop)) && Fifo(Next(y, Stop))
  {
    var z := Next(y, Stop);
    SumSame(y.workers, z.workers, Load);
    SumSame(y.workers, z.workers, Idles);
    SumSame(y.workers, z.workers, Inside);
    forall c ensures Holds(z, c) == Holds(y, c) {
      SumSame(y.workers, z.workers, Holding(c));
    }
  }

  lemma StopThreads(y: System)
    requires ThreadsOk(y) && y.shared.nTotal >= 0
    ensures ThreadsOk(Next(y, Stop))
  {
    var z := Next(y, Stop);
    forall i | 0 <= i < |z.workers| ensures ThreadOk(z.workers[i], z.failed) {
      assert ThreadOk(y.workers[i], y.failed);
    }
  }

  /** With nothing outstanding a new batch starts clean. */
  lemma BeginKeeps(y: System)
    requires Inv(y) && y.phase == Idle && y.shared.nTodo == 0
    ensures Inv(Next(y, Begin))
  {
    var z := Next(y, Begin);
    forall c ensures multiset(z.taken)[c] == Returned(z.done, c) + Holds(z, c) {
      NothingHeld(y.workers, c);
    }
  }

  lemma {:induction false} StepKeeps(y: System, a: Action)
    requires Inv(y) && Enabled(y, a) && (a.Begin? ==> y.shared.nTodo == 0)
    ensures Inv(Next(y, a))
  {
    match a
    case Start(w) =>
      EnteredKeeps(y, w);
      HeadKeeps(Entered(y, w), w, Next(y, a));
    case Wake(w) => HeadKeeps(y, w, Next(y, a));
    case Run(w) => ExecutedKeeps(y, w);
    case HandBack(w) =>
      HandedKeeps(y, w, Handed(y, w));
      HeadKeeps(Handed(y, w), w, Next(y, a));
    case Begin => BeginKeeps(y);
    case Push(cs) =>
      assert y.taken + (y.shared.queue + cs) == y.taken + y.shared.queue + cs;
    case Await =>
      EnteredKeeps(y, MASTER);
      HeadKeeps(Entered(y, MASTER), MASTER, Next(y, a));
    case Stop => StopKeeps(y);
  }

  // ---------------------------------------------------------------- whole runs

  /** Each action is enabled when its turn comes, and a batch is started only when `nTodo` is
      zero; without `Quit` it always is. */
  predicate Legal(y: System, acts: seq<Action>)
    decreases |acts|
  {
    acts != [] && y.shared.nTotal >= 0 ==>
      && Enabled(y, acts[0])
      && (acts[0].Begin? ==> y.shared.nTodo == 0)
      && Legal(Next(y, acts[0]), acts[1..])
  }

  /** The state after a run; it would stop short if the thread count ever went below zero. */
  function After(y: System, acts: seq<Action>): System
    requires Legal(y, acts)
    decreases |acts|
  {
    if acts == [] || y.shared.nTotal < 0 then y else After(Next(y, acts[0]), acts[1..])
  }

  lemma {:induction false} RunKeeps(y: System, acts: seq<Action>)
    requires Inv(y) && Legal(y, acts)
    ensures Inv(After(y, acts))
    decreases |acts|
  {
    if acts != [] {
      StepKeeps(y, acts[0]);
      RunKeeps(Next(y, acts[0]), acts[1..]);
    }
  }

  lemma {:induction false} SumOut(n: nat, f: Thread -> nat)
    requires f(Thread(Out, true, [], true)) == 0
    ensures Sum(seq(n, _ => Thread(Out, true, [], true)), f) == 0
  {
    if n > 0 {
      var ts := seq(n, _ => Thread(Out, true, [], true));
      assert ts[..n - 1] == seq(n - 1, _ => Thread(Out, true, [], true));
      SumOut(n - 1, f);
    }
  }

  lemma InitInv(batchSize: nat, n: nat)
    ensures Inv(Init(batchSize, n))
  {
    SumOut(n, Load);
    SumOut(n, Idles);
    SumOut(n, Inside);
    forall c: Check ensures Holds(Init(batchSize, n), c) == 0 {
      SumOut(n, Holding(c));
    }
  }

  /** Every interleaving keeps the invariant: the counters are exact and never go below zero, checks are
      taken in order and each is queued, held by one thread or handed back. */
  lemma {:induction false} RunsKeepInv(batchSize: nat, n: nat, acts: seq<Action>)
    requires Legal(Init(batchSize, n), acts)
    ensures
      var z := After(Init(batchSize, n), acts);
      && Inv(z)
      && z.shared.nTodo >= 0 && z.shared.nIdle >= 0 && z.shared.nTotal >= 0
      && z.taken <= z.added
      && (z.phase == Idle ==> z.shared.queue == [] && (!z.shared.quit ==> z.shared.nTodo == 0))
  {
    InitInv(batchSize, n);
    RunKeeps(Init(batchSize, n), acts);
  }

  // ---------------------------------------------------------------- when a batch may start

  lemma Prepend(y: System, a: Action, rest: seq<Action>)
    requires Enabled(y, a) && y.shared.nTotal >= 0 && (a.Begin? ==> y.shared.nTodo == 0) && Legal(Next(y, a), rest)
    ensures Legal(y, [a] + rest) && After(y, [a] + rest) == After(Next(y, a), rest)
  {
    assert ([a] + rest)[1..] == rest;
  }

  /** From here some run takes the count below zero. */
  predicate Underflows(y: System, acts: seq<Action>) {
    Legal(y, acts) && After(y, acts).shared.nTodo < 0
  }

  /** A worker runs what is left of its chunk and hands it back, for more checks than are counted. */
  lemma {:induction false} ChunkUnderflows(y: System, w: nat, left: seq<Check>) returns (acts: seq<Action>)
    requires w < |y.workers| && y.workers[w].at == Running(left) && y.shared.nTotal >= 0
    requires y.shared.nTodo < |y.workers[w].chunk|
    ensures Underflows(y, acts)
    decreases |left|
  {
    if left == [] {
      var z := Next(y, HandBack(w));
      assert Legal(z, []) && After(z, []) == z;
      Prepend(y, HandBack(w), []);
      acts := [HandBack(w)] + [];
    } else {
      var rest := ChunkUnderflows(Next(y, Run(w)), w, left[1..]);
      Prepend(y, Run(w), rest);
      acts := [Run(w)] + rest;
    }
  }

  lemma {:induction false} SomeLoad(ts: seq<Thread>) returns (w: nat)
    requires Sum(ts, Load) > 0
    ensures w < |ts| && |ts[w].chunk| > 0
  {
    if |ts[|ts| - 1].chunk| > 0 {
      w := |ts| - 1;
    } else {
      w := SomeLoad(ts[..|ts| - 1]);
    }
  }

  /** Between batches only workers can hold checks. */
  lemma OutstandingIsHeld(y: System) returns (w: nat)
    requires Inv(y) && y.phase == Idle && y.shared.nTodo != 0
    ensures w < |y.workers| && y.workers[w].at.Running? && y.workers[w].chunk != []
  {
    assert ThreadOk(y.master, y.failed);
    w := SomeLoad(y.workers);
    assert ThreadOk(y.workers[w], y.failed);
  }

  /** Between batches, after any run: starting a batch keeps the count exact, and no run from there ever takes
      it below zero, if and only if `nTodo` is zero. */
  lemma {:induction false} BeginCounts(batchSize: nat, n: nat, acts: seq<Action>)
    requires Legal(Init(batchSize, n), acts) && After(Init(batchSize, n), acts).phase == Idle
    ensures
      var y := After(Init(batchSize, n), acts);
      && y.shared.nTotal >= 0
      && (y.shared.nTodo == 0 <==> Counted(Next(y, Begin)))
      && (y.shared.nTodo == 0 <==> forall more :: !Underflows(Next(y, Begin), more))
  {
    RunsKeepInv(batchSize, n, acts);
    var y := After(Init(batchSize, n), acts);
    if y.shared.nTodo == 0 {
      BeginKeeps(y);
      forall more ensures !Underflows(Next(y, Begin), more) {
        if Legal(Next(y, Begin), more) {
          RunKeeps(Next(y, Begin), more);
        }
      }
    } else {
      var w := OutstandingIsHeld(y);
      var more := ChunkUnderflows(Next(y, Begin), w, y.workers[w].at.left);
    }
  }

  // ---------------------------------------------------------------- the verdict

  lemma {:induction false} ReturnedFrom(ds: seq<Done>, c: Check) returns (k: nat)
    requires Returned(ds, c) > 0
    ensures k < |ds| && c in ds[k].chunk
  {
    if c in ds[|ds| - 1].chunk {
      k := |ds| - 1;
    } else {
      k := ReturnedFrom(ds[..|ds| - 1], c);
    }
  }

  lemma {:induction false} ReturnedAtLeast(ds: seq<Done>, c: Check, k: nat)
    requires k < |ds| && c in ds[k].chunk
    ensures Returned(ds, c) > 0
  {
    if k < |ds| - 1 {
      ReturnedAtLeast(ds[..|ds| - 1], c, k);
    }
  }

  /** The master is about to leave the loop and nobody has called `Quit`. */
  predicate Returns(y: System, a: Action)
  {
    && Enabled(y, a) && y.shared.nTotal >= 0 && !y.shared.quit
    && y.phase != Idle && Next(y, a).phase == Idle
  }

  lemma LeavingHead(y: System)
    requires Inv(y) && !y.shared.quit && y.master.at.Asleep? && AtHead(y, MASTER).phase == Idle && y.phase != Idle
    ensures
      var z := AtHead(y, MASTER);
      && z.shared.queue == [] && z.shared.nTodo == 0 && z.verdict == z.shared.allOk && z.added == z.taken
  {
  }

  lemma {:induction false} ReturnedState(y: System, a: Action)
    requires Inv(y) && Returns(y, a)
    ensures
      var z := Next(y, a);
      && Inv(z) && z.shared.queue == [] && z.shared.nTodo == 0 && z.verdict == z.shared.allOk && z.added == z.taken
  {
    StepKeeps(y, a);
    match a
    case Start(_) =>
    case Wake(w) =>
      assert w == MASTER;
      LeavingHead(y);
    case Run(_) =>
    case HandBack(w) =>
      assert w == MASTER;
      HandedKeeps(y, w, Handed(y, w));
      LeavingHead(Handed(y, w));
    case Begin =>
    case Push(_) =>
    case Await =>
      EnteredKeeps(y, MASTER);
      LeavingHead(Entered(y, MASTER));
    case Stop =>
  }

  /** When `Wait` returns every added check has been handed back, once for each time it was added. */
  lemma EachCheckHandedBack(y: System, a: Action, c: Check)
    requires Inv(y) && Returns(y, a)
    ensures multiset(Next(y, a).added)[c] == Returned(Next(y, a).done, c)
  {
    ReturnedState(y, a);
    NothingHeld(Next(y, a).workers, c);
  }

  /** `Wait` answers true exactly when every added check passes and no chunk was taken by a thread
      whose flag was already down; without any earlier failure the second half is automatic. */
  lemma {:induction false} Verdict(y: System, a: Action)
    requires Inv(y) && Returns(y, a)
    ensures
      var z := Next(y, a);
      && (z.verdict <==> AllPass(z.added) && forall d <- z.done :: d.before)
      && (!z.failed ==> z.verdict)
  {
    var z := Next(y, a);
    ReturnedState(y, a);
    if z.verdict {
      forall i | 0 <= i < |z.added| ensures z.added[i].pass {
        var c := z.added[i];
        assert multiset(z.added)[c] > 0;
        EachCheckHandedBack(y, a, c);
        var k := ReturnedFrom(z.done, c);
        assert z.done[k] in z.done && AllPass(z.done[k].chunk);
      }
    }
    if AllPass(z.added) && forall d <- z.done :: d.before {
      forall k | 0 <= k < |z.done| ensures z.done[k].ok {
        assert z.done[k] in z.done;
        forall i | 0 <= i < |z.done[k].chunk| ensures z.done[k].chunk[i].pass {
          var c := z.done[k].chunk[i];
          ReturnedAtLeast(z.done, c, k);
          EachCheckHandedBack(y, a, c);
          assert c in z.added;
        }
      }
    }
  }

  // ---------------------------------------------------------------- progress

  /** A master that sleeps with no notification under way has a worker in flight. */
  lemma SleepingMasterIsAwaited(y: System) returns (w: nat)
    requires Inv(y) && y.master.at == Asleep(false)
    ensures w < |y.workers| && y.workers[w].at.Running? && y.workers[w].chunk != []
  {
    assert ThreadOk(y.master, y.failed);
    w := SomeLoad(y.workers);
    assert ThreadOk(y.workers[w], y.failed);
  }

  /** The thread that brings back the last chunk notifies the master. */
  lemma {:induction false} LastChunkNotifies(y: System, w: nat)
    requires Inv(y) && w < |y.workers| && y.workers[w].at == Running([]) && y.master.at.Asleep?
    ensures
      var z := Next(y, HandBack(w));
      && z.shared.nTotal >= 0
      && (z.shared.nTodo == 0 && !z.shared.quit ==>
            z.master.at == Asleep(true) && Next(z, Wake(MASTER)).phase == Idle)
  {
    StepKeeps(y, HandBack(w));
    HandedKeeps(y, w, Handed(y, w));
  }

  /** What is left to do: three for a queued check, one for each check of a chunk and one for its return. */
  function Remaining(th: Thread): nat { if th.at.Running? then |th.at.left| + 1 else 0 }

  function Work(y: System): nat {
    3 * |y.shared.queue| + Remaining(y.master) + Sum(y.workers, Remaining)
  }

  lemma PutWork(y: System, who: int, th: Thread)
    requires -1 <= who < |y.workers|
    ensures Work(Put(y, who, th)) == Work(y) - Remaining(Get(y, who)) + Remaining(th)
  {
    if who != MASTER {
      SumUpdate(y.workers, Remaining, who, th);
    }
  }

  lemma HeadWork(y: System, who: int)
    requires -1 <= who < |y.workers| && y.shared.nTotal >= 0 && Get(y, who).at.Asleep?
    ensures Work(AtHead(y, who)) <= Work(y)
  {
    if Head(y.shared, who == MASTER).1.Take? {
      TakeWork(y, who);
    } else {
      LeaveWork(y, who);
    }
  }

  lemma TakeWork(y: System, who: int)
    requires -1 <= who < |y.workers| && y.shared.nTotal >= 0 && Get(y, who).at.Asleep?
    requires Head(y.shared, who == MASTER).1.Take?
    ensures Work(AtHead(y, who)) <= Work(y)
  {
    var (s, o) := Head(y.shared, who == MASTER);
    var was := Get(y, who);
    var x := y.(shared := s, taken := y.taken + o.chunk);
    PutWork(x, who, was.(at := Running(o.chunk), chunk := o.chunk, before := was.ok));
  }

  lemma LeaveWork(y: System, who: int)
    requires -1 <= who < |y.workers| && y.shared.nTotal >= 0 && Get(y, who).at.Asleep?
    requires !Head(y.shared, who == MASTER).1.Take?
    ensures Work(AtHead(y, who)) <= Work(y)
  {
    var (s, o) := Head(y.shared, who == MASTER);
    PutWork(y.(shared := s), who, Get(y, who).(at := if o.Sleep? then Asleep(false) else Out, chunk := []));
  }

  /** While the batch is not added to, running or handing back strictly lowers what is left and no other
      step raises it. */
  lemma {:induction false} StepWork(y: System, a: Action)
    requires Inv(y) && Enabled(y, a) && !a.Push?
    ensures Work(Next(y, a)) <= Work(y)
    ensures a.Run? || a.HandBack? ==> Work(Next(y, a)) < Work(y)
  {
    match a
    case Start(w) =>
      PutWork(y, w, Thread(Asleep(true), true, [], true));
      EnteredKeeps(y, w);
      assert Work(Entered(y, w)) == Work(y);
      HeadWork(Entered(y, w), w);
    case Wake(w) => HeadWork(y, w);
    case Run(w) =>
      var th := Get(Executed(y, w), w);
      PutWork(y, w, th);
      assert Work(Executed(y, w)) == Work(Put(y, w, th));
    case HandBack(w) =>
      HandedKeeps(y, w, Handed(y, w));
      HandedWork(y, w);
      HeadWork(Handed(y, w), w);
    case Begin =>
    case Await =>
      EnteredKeeps(y, MASTER);
      assert Work(Entered(y, MASTER)) == Work(y);
      HeadWork(Entered(y, MASTER), MASTER);
    case Stop =>
      SumSame(y.workers, Next(y, Stop).workers, Remaining);
  }

  lemma HandedWork(y: System, who: int)
    requires -1 <= who < |y.workers| && Get(y, who).at == Running([])
    ensures Work(Handed(y, who)) == Work(y) - 1
  {
    PutWork(y, who, Get(y, who).(at := Asleep(true), chunk := []));
  }

  function Productive(acts: seq<Action>): nat {
    if acts == [] then 0
    else (if acts[0].Run? || acts[0].HandBack? then 1 else 0) + Productive(acts[1..])
  }

  /** So a batch takes a bounded number of steps, whatever the schedule. */
  lemma {:induction false} WaitIsBounded(y: System, acts: seq<Action>)
    requires Inv(y) && Legal(y, acts) && forall i :: 0 <= i < |acts| ==> !acts[i].Push?
    ensures Productive(acts) <= Work(y)
    decreases |acts|
  {
    if acts != [] {
      StepKeeps(y, acts[0]);
      StepWork(y, acts[0]);
      WaitIsBounded(Next(y, acts[0]), acts[1..]);
    }
  }

  /** A waiting master can return on its next wake-up, or some thread has work it can do now. */
  lemma NeverStuck(y: System) returns (a: Action)
    requires Inv(y) && y.phase == Waiting
    ensures Enabled(y, a) && (a.Run? || a.HandBack? || a == Wake(MASTER))
    ensures a == Wake(MASTER) ==> y.master.at == Asleep(true)
  {
    if y.master.at == Asleep(true) {
      a := Wake(MASTER);
    } else if y.master.at.Running? {
      a := if y.master.at.left == [] then HandBack(MASTER) else Run(MASTER);
    } else {
      var w := SleepingMasterIsAwaited(y);
      a := if y.workers[w].at.left == [] then HandBack(w) else Run(w);
    }
  }

  // ---------------------------------------------------------------- two runs

  const GOOD := Check(1, true)
  const BAD := Check(0, false)

  /** A batch of one check, which the only worker takes. */
  function Fill(c: Check): seq<Action> { [Begin] + ([Push([c])] + ([Wake(0)] + [])) }

  /** The master waits while the worker runs its check, which then comes back. */
  const WORK := [Await] + ([Run(0)] + [])
  const DRAIN := [HandBack(0)] + ([Wake(MASTER)] + [])

  /** The only worker is asleep in the loop with flag `ok`, and nothing is outstanding. */
  predicate Rested(y: System, ok: bool) {
    && |y.workers| == 1 && y.workers[0].at.Asleep? && y.workers[0].ok == ok && y.phase == Idle
    && y.shared == Shared([], 1, 1, y.shared.allOk, 0, false, 128) && y.master.at.Out?
  }

  predicate Busy(y: System, ok: bool, c: Check, quit: bool) {
    && y.workers == [Thread(Running([c]), ok, [c], ok)] && y.added == [c]
    && y.shared == Shared([], 0, 1, true, 1, quit, 128) && y.phase == Filling && y.master.at.Out?
  }

  lemma Filled(y: System, ok: bool, c: Check)
    requires Rested(y, ok)
    ensures Legal(y, Fill(c)) && Busy(After(y, Fill(c)), ok, c, false)
  {
    var y1 := Next(y, Begin);
    var y2 := Next(y1, Push([c]));
    assert y2.shared == Shared([c], 1, 1, true, 1, false, 128);
    assert [c][..1] == [c] && [c][1..] == [];
    var y3 := Next(y2, Wake(0));
    assert Busy(y3, ok, c, false);
    Prepend(y2, Wake(0), []);
    Prepend(y1, Push([c]), [Wake(0)] + []);
    Prepend(y, Begin, [Push([c])] + ([Wake(0)] + []));
  }

  predicate Ran(y: System, ok: bool, c: Check) {
    && y.workers == [Thread(Running([]), ok && c.pass, [c], ok)] && y.added == [c]
    && y.shared == Shared([], 1, 1, true, 1, false, 128) && y.phase == Waiting && y.master.at == Asleep(false)
  }

  lemma Worked(y: System, ok: bool, c: Check)
    requires Busy(y, ok, c, false)
    ensures Legal(y, WORK) && Ran(After(y, WORK), ok, c)
  {
    var y4 := Next(y, Await);
    assert y4.shared == Shared([], 1, 1, true, 1, false, 128) && y4.master.at == Asleep(false);
    assert [c][1..] == [];
    assert Ran(Next(y4, Run(0)), ok, c);
    Prepend(y4, Run(0), []);
    Prepend(y, Await, [Run(0)] + []);
  }

  lemma Drained(y: System, ok: bool, c: Check)
    requires Ran(y, ok, c)
    ensures Legal(y, DRAIN)
    ensures
      var z := After(y, DRAIN);
      Rested(z, ok && c.pass) && z.added == [c] && z.verdict == (ok && c.pass)
  {
    var y6 := Next(y, HandBack(0));
    assert y6.shared == Shared([], 2, 1, ok && c.pass, 0, false, 128);
    Prepend(y6, Wake(MASTER), []);
    Prepend(y, HandBack(0), [Wake(MASTER)] + []);
  }

  /** Three legal stretches in a row: the state at the end of a batch. */
  ghost predicate BatchRuns(y: System, c: Check, z: System) {
    && Legal(y, Fill(c)) && Legal(After(y, Fill(c)), WORK) && Legal(After(After(y, Fill(c)), WORK), DRAIN)
    && z == After(After(After(y, Fill(c)), WORK), DRAIN)
  }

  lemma {:induction false} OneBatch(y: System, ok: bool, c: Check) returns (z: System)
    requires Rested(y, ok)
    ensures BatchRuns(y, c, z) && Rested(z, ok && c.pass) && z.added == [c] && z.verdict == (ok && c.pass)
  {
    Filled(y, ok, c);
    Worked(After(y, Fill(c)), ok, c);
    Drained(After(After(y, Fill(c)), WORK), ok, c);
    z := After(After(After(y, Fill(c)), WORK), DRAIN);
  }

  /** A failure outlives its batch: the same worker then fails a batch whose only check passes. */
  lemma {:induction false} FailureSticks() returns (b: System, z: System)
    ensures
      var y := Init(128, 1);
      && Enabled(y, Start(0))
      && BatchRuns(Next(y, Start(0)), BAD, b) && BatchRuns(b, GOOD, z)
      && z.phase == Idle && z.added == [GOOD] && AllPass(z.added) && !z.verdict
  {
    b := OneBatch(Next(Init(128, 1), Start(0)), true, BAD);
    z := OneBatch(b, false, GOOD);
  }

  lemma LeftBusy(y: System)
    requires Busy(y, true, GOOD, true)
    ensures
      var z := Next(y, Await);
      && z.phase == Idle && z.shared.nTotal >= 0
      && var b := Next(z, Begin);
      && b.shared.nTotal >= 0 && Enabled(b, Run(0))
      && var c := Next(b, Run(0));
      && c.shared.nTotal >= 0 && Enabled(c, HandBack(0)) && Next(c, HandBack(0)).shared.nTodo == -1
  {
    var z := Next(y, Await);
    assert z.shared == y.shared && z.workers == y.workers;
    var c := Next(Next(z, Begin), Run(0));
    assert [GOOD][1..] == [];
    assert c.workers[0] == Thread(Running([]), true, [GOOD], true) && c.shared.nTodo == 0;
  }

  /** After `Quit` a new batch can find a chunk in flight, and the count then drops below zero. */
  lemma BatchAfterQuitUnderflows()
    ensures
      var y := Init(128, 1);
      && Enabled(y, Start(0))
      && var a := Next(y, Start(0));
      && Legal(a, Fill(GOOD)) && After(a, Fill(GOOD)).shared.nTotal >= 0
      && var s := Next(After(a, Fill(GOOD)), Stop);
      && Enabled(s, Await) && s.shared.nTotal >= 0
      && var z := Next(s, Await);
      && z.phase == Idle && z.shared.nTotal >= 0
      && var b := Next(z, Begin);
      && b.shared.nTotal >= 0 && Enabled(b, Run(0))
      && var c := Next(b, Run(0));
      && c.shared.nTotal >= 0 && Enabled(c, HandBack(0)) && Next(c, HandBack(0)).shared.nTodo == -1
  {
    var a := Next(Init(128, 1), Start(0));
    Filled(a, true, GOOD);
    var s := Next(After(a, Fill(GOOD)), Stop);
    assert Busy(s, true, GOOD, true);
    LeftBusy(s);
  }
}
