/**
The parallel check queue: one mutex, two condition variables, a master and any number of workers.

What happens under the mutex is one function on the shared fields (`Enter`, `Head`, `Finish`,
`StartBatch`, `Add`, `Quit`), carried out by a method of the class.  A system state adds the
threads and a history of the batch; every interleaving of lock sections, check executions,
wake-ups (spurious ones included) and `Quit` is a sequence of `Step`s.
*/
module CheckQueue {

  /** A check and what it will answer when it is run. */
  datatype Check = Check(id: nat, pass: bool)

  datatype Shared = Shared(
    queue: seq<Check>, nIdle: int, nTotal: int, allOk: bool, nTodo: int, quit: bool, batchSize: nat)

  /** How a thread leaves the mutex: to sleep, out of the loop, or with a chunk to run. */
  datatype Outcome = Sleep | Leave(verdict: bool) | Take(chunk: seq<Check>)

  function Min(a: int, b: int): int { if a < b then a else b }

  function Max(a: int, b: int): int { if a < b then b else a }

  /** How many checks a thread takes at once. */
  function ChunkSize(s: Shared): (n: nat)
    requires s.queue != [] && s.nTotal >= 0
    ensures 1 <= n <= |s.queue|
  {
    Max(1, Min(|s.queue| / (s.nTotal + 1), s.batchSize))
  }

  function Enter(s: Shared, master: bool): Shared {
    s.(nTotal := if master then s.nTotal else s.nTotal + 1, nIdle := s.nIdle + 1)
  }

  /** The head of the loop, up to the point where the mutex is released. */
  function Head(s: Shared, master: bool): (Shared, Outcome)
    requires s.nTotal >= 0
  {
    if s.queue == [] then
      if s.quit then
        (s.(nIdle := s.nIdle - 1, nTotal := if master then s.nTotal else s.nTotal - 1), Leave(false))
      else if master && s.nTodo == 0 then (s.(nIdle := s.nIdle - 1), Leave(s.allOk))
      else (s, Sleep)
    else
      var n := ChunkSize(s);
      (s.(queue := s.queue[n..], nIdle := s.nIdle - 1), Take(s.queue[..n]))
  }

  /** Back under the mutex after a chunk of `n` checks. */
  function Finish(s: Shared, n: nat, ok: bool): Shared {
    s.(nIdle := s.nIdle + 1, nTodo := s.nTodo - n, allOk := s.allOk && ok)
  }

  /** A thread sleeps, leaves or takes a chunk from the front.  The chunk is the largest share of the queue that
      leaves as much for every worker and the master, up to the batch size, and never empty. */
  lemma HeadDoes(s: Shared, master: bool)
    requires s.nTotal >= 0
    ensures
      var (t, o) := Head(s, master);
      var done := s.queue == [] && (s.quit || (master && s.nTodo == 0));
      && (o.Sleep? <==> s.queue == [] && !done) && (o.Sleep? ==> t == s)
      && (o.Leave? <==> done)
      && (o.Leave? ==> o.verdict == (!s.quit && s.allOk)
                       && t == s.(nIdle := s.nIdle - 1, nTotal := s.nTotal - if master then 0 else 1))
      && (o.Take? ==> o.chunk + t.queue == s.queue && t == s.(nIdle := s.nIdle - 1, queue := t.queue)
                      && FairShare(|o.chunk|, |s.queue|, s.nTotal + 1, s.batchSize))
  {
    if s.queue != [] {
      ShareOf(ChunkSize(s), |s.queue|, s.nTotal + 1, s.batchSize);
    }
  }

  /** One check, or else no more than the batch size and than an equal share; and one more would be too many. */
  predicate FairShare(n: nat, queued: nat, threads: nat, batch: nat) {
    && n >= 1 && (n > 1 ==> n <= batch && n * threads <= queued)
    && (n < batch ==> (n + 1) * threads > queued)
  }

  lemma ShareOf(n: nat, queued: nat, threads: nat, batch: nat)
    requires threads >= 1 && n == Max(1, Min(queued / threads, batch))
    ensures FairShare(n, queued, threads, batch)
  {
    var q := queued / threads;
    assert queued == threads * q + queued % threads;
    assert (q + 1) * threads == threads * q + threads;
    if q < n + 1 {
      TimesMono(q + 1, n + 1, threads);
    }
    if n <= q {
      TimesMono(n, q, threads);
    }
  }

  lemma TimesMono(a: nat, b: nat, c: nat)
    requires a <= b
    ensures a * c <= b * c
  {
  }

  class Queue {
    var queue: seq<Check>
    var nIdle: int
    var nTotal: int
    var allOk: bool
    var nTodo: int
    var quit: bool
    const batchSize: nat

    function S(): Shared
      reads this
    {
      Shared(queue, nIdle, nTotal, allOk, nTodo, quit, batchSize)
    }

    constructor (batch: nat)
      ensures S() == Shared([], 0, 0, true, 0, false, batch)
    {
      queue, nIdle, nTotal, allOk, nTodo, quit, batchSize := [], 0, 0, true, 0, false, batch;
    }

    method EnterLoop(master: bool)
      modifies this
      ensures S() == Enter(old(S()), master)
    {
      if !master {
        nTotal := nTotal + 1;
      }
      nIdle := nIdle + 1;
    }

    method LoopHead(master: bool) returns (o: Outcome)
      requires nTotal >= 0
      modifies this
      ensures (S(), o) == Head(old(S()), master)
    {
      if queue == [] {
        if quit {
          nIdle := nIdle - 1;
          if !master {
            nTotal := nTotal - 1;
          }
          return Leave(false);
        }
        if master && nTodo == 0 {
          var ret := allOk;
          nIdle := nIdle - 1;
          return Leave(ret);
        }
        return Sleep;
      }
      ghost var all := queue;
      var now := ChunkSize(S());
      var checks := [];
      var i := 0;
      while i < now
        invariant 0 <= i <= now && checks == all[..i] && queue == all[i..]
        invariant S() == old(S()).(queue := queue)
      {
        checks := checks + [queue[0]];
        queue := queue[1..];
        i := i + 1;
      }
      nIdle := nIdle - 1;
      return Take(checks);
    }

    method FinishChunk(n: nat, ok: bool) returns (notifyMaster: bool)
      modifies this
      ensures S() == Finish(old(S()), n, ok)
      ensures notifyMaster <==> nTodo == 0
    {
      nIdle := nIdle + 1;
      nTodo := nTodo - n;
      if !ok {
        allOk := false;
      }
      notifyMaster := nTodo == 0;
    }

    method StartBatch()
      modifies this
      ensures S() == old(S()).(allOk := true, nTodo := 0)
    {
      allOk := true;
      nTodo := 0;
    }

    method Add(checks: seq<Check>)
      modifies this
      ensures S() == old(S()).(queue := old(queue) + checks, nTodo := old(nTodo) + |checks|)
    {
      if checks == [] {
        return;
      }
      var i := 0;
      while i < |checks|
        invariant 0 <= i <= |checks| && S() == old(S()).(queue := old(queue) + checks[..i])
      {
        queue := queue + [checks[i]];
        i := i + 1;
      }
      assert checks[..i] == checks;
      nTodo := nTodo + |checks|;
    }

    method Quit()
      modifies this
      ensures S() == old(S()).(quit := true)
    {
      quit := true;
    }
  }

  /** What a thread does with a chunk: it stops asking once a check has failed. */
  method RunChunk(chunk: seq<Check>, ok0: bool) returns (ok: bool)
    ensures ok <==> ok0 && forall i :: 0 <= i < |chunk| ==> chunk[i].pass
  {
    ok := ok0;
    var i := 0;
    while i < |chunk|
      invariant 0 <= i <= |chunk| && (ok <==> ok0 && forall j :: 0 <= j < i ==> chunk[j].pass)
    {
      if ok {
        ok := chunk[i].pass;
      }
      i := i + 1;
    }
  }
}
