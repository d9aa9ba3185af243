/** The parallel check queue (src/checkqueue.h): its critical sections as methods over the shared
  * fields, and the functions on values that specify them. Each critical section runs under the
  * mutex, so it is one atomic step of the protocol in CheckQueueProtocol.dfy.
  */
module CheckQueue {
  import opened Numbers

  /** The fields the mutex protects. */
  datatype Core<T> = Core(queue: seq<T>, idle: int, total: int, allOk: bool, todo: int, quit: bool, batchSize: nat)

  /** What a thread does when it leaves a critical section. */
  datatype Action<T> = Leave(result: bool) | Block | Process(batch: seq<T>, ok: bool)

  /** How many checks a thread takes: at least one, at most the batch size or a fair share. */
  function BatchOf<T>(c: Core<T>): (n: nat)
    requires c.queue != [] && c.total + c.idle + 1 > 0
    ensures 1 <= n <= |c.queue|
  {
    ShareBounded(|c.queue|, c.total + c.idle + 1);
    Max(1, Min(c.batchSize, |c.queue| / (c.total + c.idle + 1)))
  }

  /** A batch is the largest number, up to the batch size, that leaves as many for each of the threads and
    * for those that are idle once more; but at least one. */
  lemma BatchIsFairShare<T>(c: Core<T>, n: nat)
    requires c.queue != [] && c.total + c.idle + 1 > 0
    ensures BatchOf(c) <= c.batchSize || BatchOf(c) == 1
    ensures BatchOf(c) * (c.total + c.idle + 1) <= |c.queue| || BatchOf(c) == 1
    ensures n <= c.batchSize && n * (c.total + c.idle + 1) <= |c.queue| ==> n <= BatchOf(c)
  {
    var d := c.total + c.idle + 1;
    FairShare(|c.queue|, d, |c.queue| / d, c.batchSize, BatchOf(c), n);
  }

  lemma FairShare(count: nat, d: int, share: int, limit: nat, batch: nat, n: nat)
    requires d > 0 && share * d <= count < share * d + d && batch == Max(1, Min(limit, share))
    ensures batch <= limit || batch == 1
    ensures batch * d <= count || batch == 1
    ensures n <= limit && n * d <= count ==> n <= batch
  {
    if batch <= share { ScaleUp(batch, share, d); }
    if n > share { ScaleUp(share + 1, n, d); }
  }

  lemma ScaleUp(a: int, b: int, d: int)
    requires a <= b && d > 0
    ensures a * d <= b * d
  {
  }

  lemma ShareBounded(n: nat, d: int)
    requires d > 0
    ensures 0 <= n / d <= n
  {
    var q := n / d;
    assert q * d <= n;
    if q > n { MulGrows(q, d); }
  }

  lemma MulGrows(q: int, d: int)
    requires q > 0 && d > 0
    ensures q * d >= q
  {
  }

  /** The last `n` elements of a queue, last first, as popping takes them. */
  function Popped<T>(queue: seq<T>, n: nat): (batch: seq<T>)
    requires n <= |queue|
    ensures |batch| == n
  {
    seq(n, i requires 0 <= i < n => queue[|queue| - 1 - i])
  }

  lemma {:induction false} PoppedContents<T>(queue: seq<T>, n: nat)
    requires n <= |queue|
    ensures multiset(queue) == multiset(queue[..|queue| - n]) + multiset(Popped(queue, n))
  {
    if n == 0 {
      assert queue[..|queue|] == queue;
    } else {
      PoppedContents(queue, n - 1);
      var k := |queue| - n;
      assert queue[..k + 1] == queue[..k] + [queue[k]];
      assert Popped(queue, n) == Popped(queue, n - 1) + [queue[k]];
    }
  }

  function Entered<T>(c: Core<T>): Core<T> { c.(total := c.total + 1) }

  function Retired<T>(c: Core<T>, n: nat, ok: bool): Core<T> { c.(allOk := c.allOk && ok, todo := c.todo - n) }

  function Woken<T>(c: Core<T>): Core<T> { c.(idle := c.idle - 1) }

  function Added<T>(c: Core<T>, checks: seq<T>): Core<T> { c.(queue := c.queue + checks, todo := c.todo + |checks|) }

  /** The head of the loop: leave, block, or take a batch. */
  function Top<T>(c: Core<T>, master: bool): (Core<T>, Action<T>)
    requires c.total + c.idle + 1 > 0
  {
    if c.queue == [] then
      if (master || c.quit) && c.todo == 0 then
        (c.(total := c.total - 1, allOk := if master then true else c.allOk), Leave(c.allOk))
      else
        (c.(idle := c.idle + 1), Block)
    else
      var n := BatchOf(c);
      (c.(queue := c.queue[..|c.queue| - n]), Process(Popped(c.queue, n), c.allOk))
  }

  class SharedQueue<T> {
    var queue: seq<T>
    var nIdle: int
    var nTotal: int
    var fAllOk: bool
    var nTodo: int
    var fQuit: bool
    var nBatchSize: nat

    ghost function View(): Core<T>
      reads this
    {
      Core(queue, nIdle, nTotal, fAllOk, nTodo, fQuit, nBatchSize)
    }

    constructor (batchSize: nat)
      ensures View() == Core([], 0, 0, true, 0, false, batchSize)
    {
      queue, nIdle, nTotal, fAllOk, nTodo, fQuit, nBatchSize := [], 0, 0, true, 0, false, batchSize;
    }

    /** From the test of the queue to the end of the critical section. */
    method Loop(master: bool) returns (a: Action<T>)
      requires nTotal + nIdle + 1 > 0
      modifies this
      ensures (View(), a) == Top(old(View()), master)
    {
      if queue == [] {
        if (master || fQuit) && nTodo == 0 {
          nTotal := nTotal - 1;
          var ret := fAllOk;
          if master { fAllOk := true; }
          return Leave(ret);
        }
        nIdle := nIdle + 1;
        return Block;
      }
      ghost var queue0 := queue;
      ShareBounded(|queue|, nTotal + nIdle + 1);
      var now := Max(1, Min(nBatchSize, |queue| / (nTotal + nIdle + 1)));
      var batch := [];
      for i := 0 to now
        invariant View() == old(View()).(queue := queue0[..|queue0| - i])
        invariant now <= |queue0| && batch == Popped(queue0, i)
      {
        batch := batch + [queue[|queue| - 1]];
        queue := queue[..|queue| - 1];
        assert queue0[..|queue0| - i][..|queue0| - i - 1] == queue0[..|queue0| - i - 1];
      }
      return Process(batch, fAllOk);
    }

    /** A thread comes in for the first time. */
    method Enter(master: bool) returns (a: Action<T>)
      requires nTotal + nIdle + 2 > 0
      modifies this
      ensures (View(), a) == Top(Entered(old(View())), master)
    {
      nTotal := nTotal + 1;
      a := Loop(master);
    }

    /** A thread reports the batch it has processed; says whether the master is notified. */
    method Report(master: bool, now: nat, ok: bool) returns (a: Action<T>, notify: bool)
      requires nTotal + nIdle + 1 > 0
      modifies this
      ensures (View(), a) == Top(Retired(old(View()), now, ok), master)
      ensures notify <==> old(nTodo) == now && !master
    {
      fAllOk := fAllOk && ok;
      nTodo := nTodo - now;
      notify := nTodo == 0 && !master;
      a := Loop(master);
    }

    /** A blocked thread has the mutex back. */
    method Wake(master: bool) returns (a: Action<T>)
      requires nTotal + nIdle > 0
      modifies this
      ensures (View(), a) == Top(Woken(old(View())), master)
    {
      nIdle := nIdle - 1;
      a := Loop(master);
    }

    method Add(checks: seq<T>)
      modifies this
      ensures View() == Added(old(View()), checks)
    {
      for i := 0 to |checks|
        invariant View() == old(View()).(queue := old(queue) + checks[..i])
      {
        queue := queue + [checks[i]];
        assert checks[..i + 1] == checks[..i] + [checks[i]];
      }
      assert checks[..|checks|] == checks;
      nTodo := nTodo + |checks|;
    }
  }

  /** Outside the mutex: the checks of a batch, skipping the rest after a failure. */
  method Execute<T>(check: T -> bool, batch: seq<T>, ok: bool) returns (ok': bool)
    ensures ok' <==> ok && forall i :: 0 <= i < |batch| ==> check(batch[i])
  {
    ok' := ok;
    for i := 0 to |batch|
      invariant ok' <==> ok && forall j :: 0 <= j < i ==> check(batch[j])
    {
      if ok' { ok' := check(batch[i]); }
    }
  }
}
