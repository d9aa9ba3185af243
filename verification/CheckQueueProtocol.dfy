/** Any number of threads running the check queue: safety over every interleaving
  * (src/checkqueue.h). Thread 0 is the master; the others are workers.
  */
module CheckQueueProtocol {
  import opened CheckQueue

  datatype Thread<T> =
    | Outside
    | Blocked(notified: bool)
    | Working(batch: seq<T>, done: nat, ok: bool)

  /** The shared fields, the threads, and two history variables: the checks added since the master
    * last returned, and those of them whose batches have been reported. */
  datatype State<T> = State(core: Core<T>, threads: seq<Thread<T>>, added: multiset<T>, reported: multiset<T>)

  datatype Event<T> =
    | EvEnter(t: nat)
    | EvExecute(t: nat)
    | EvReport(t: nat)
    | EvWake(t: nat)
    | EvAdd(checks: seq<T>, notified: set<nat>)

  // ---------------------------------------------------------------- steps

  /** Thread `t` leaves a critical section that began with shared fields `c`. */
  function AfterTop<T(==)>(s: State<T>, c: Core<T>, t: nat): State<T>
    requires t < |s.threads| && c.total + c.idle + 1 > 0
  {
    var (c', a) := Top(c, t == 0);
    match a
    case Leave(_) =>
      var s' := s.(core := c', threads := s.threads[t := Outside]);
      if t == 0 then s'.(added := multiset{}, reported := multiset{}) else s'
    case Block => s.(core := c', threads := s.threads[t := Blocked(false)])
    case Process(batch, ok) => s.(core := c', threads := s.threads[t := Working(batch, 0, ok)])
  }

  function NotifyMaster<T>(threads: seq<Thread<T>>): seq<Thread<T>>
    requires |threads| > 0
  {
    if threads[0].Blocked? then threads[0 := Blocked(true)] else threads
  }

  function NotifySet<T>(threads: seq<Thread<T>>, who: set<nat>): seq<Thread<T>> {
    seq(|threads|, i requires 0 <= i < |threads| =>
      if i in who && threads[i].Blocked? then Blocked(true) else threads[i])
  }

  ghost predicate Enabled<T>(s: State<T>, e: Event<T>) {
    match e
    case EvEnter(t) => t < |s.threads| && s.threads[t].Outside? && s.core.total + s.core.idle + 2 > 0
    case EvExecute(t) => t < |s.threads| && s.threads[t].Working? && s.threads[t].done < |s.threads[t].batch|
    case EvReport(t) =>
      t < |s.threads| && s.threads[t].Working? && s.threads[t].done == |s.threads[t].batch|
      && s.core.total + s.core.idle + 1 > 0
    case EvWake(t) => t < |s.threads| && s.threads[t].Blocked? && s.core.total + s.core.idle > 0
    case EvAdd(_, who) => |s.threads| > 0 && s.threads[0].Outside? && 0 !in who
  }

  /** One atomic step. A blocked thread may wake at any time, notified or not. */
  ghost function Step<T>(check: T -> bool, s: State<T>, e: Event<T>): State<T>
    requires Enabled(s, e)
  {
    match e
    case EvEnter(t) => AfterTop(s, Entered(s.core), t)
    case EvExecute(t) =>
      var w := s.threads[t];
      s.(threads := s.threads[t := w.(done := w.done + 1, ok := w.ok && check(w.batch[w.done]))])
    case EvReport(t) =>
      var w := s.threads[t];
      var c := Retired(s.core, |w.batch|, w.ok);
      var s' := s.(threads := if c.todo == 0 && t != 0 then NotifyMaster(s.threads) else s.threads,
                   reported := s.reported + multiset(w.batch));
      AfterTop(s', c, t)
    case EvWake(t) => AfterTop(s, Woken(s.core), t)
    case EvAdd(checks, who) =>
      s.(core := Added(s.core, checks), threads := NotifySet(s.threads, who),
         added := s.added + multiset(checks))
  }

  /** The value the master's Wait returns in this step, if it returns. */
  ghost predicate Returns<T>(s: State<T>, e: Event<T>, result: bool)
    requires Enabled(s, e)
  {
    match e
    case EvEnter(0) => Top(Entered(s.core), true).1 == Leave(result)
    case EvReport(0) => Top(Retired(s.core, |s.threads[0].batch|, s.threads[0].ok), true).1 == Leave(result)
    case EvWake(0) => Top(Woken(s.core), true).1 == Leave(result)
    case _ => false
  }

  ghost predicate Initial<T>(s: State<T>) {
    && |s.threads| > 0 && (forall t :: 0 <= t < |s.threads| ==> s.threads[t].Outside?)
    && s.core == Core([], 0, 0, true, 0, s.core.quit, s.core.batchSize)
    && s.added == multiset{} && s.reported == multiset{}
  }

  // ---------------------------------------------------------------- counting threads

  function InFlight<T>(threads: seq<Thread<T>>): nat {
    if threads == [] then 0
    else InFlight(threads[1..]) + (if threads[0].Working? then |threads[0].batch| else 0)
  }

  ghost function Held<T>(threads: seq<Thread<T>>): multiset<T> {
    if threads == [] then multiset{}
    else Held(threads[1..]) + (if threads[0].Working? then multiset(threads[0].batch) else multiset{})
  }

  function Blockeds<T>(threads: seq<Thread<T>>): nat {
    if threads == [] then 0 else Blockeds(threads[1..]) + (if threads[0].Blocked? then 1 else 0)
  }

  function Workings<T>(threads: seq<Thread<T>>): nat {
    if threads == [] then 0 else Workings(threads[1..]) + (if threads[0].Working? then 1 else 0)
  }

  /** What one thread contributes to each count. */
  function Load<T>(w: Thread<T>): nat { if w.Working? then |w.batch| else 0 }
  ghost function Hold<T>(w: Thread<T>): multiset<T> { if w.Working? then multiset(w.batch) else multiset{} }
  function IsBlocked<T>(w: Thread<T>): nat { if w.Blocked? then 1 else 0 }
  function IsWorking<T>(w: Thread<T>): nat { if w.Working? then 1 else 0 }

  lemma {:induction false} Counts<T>(threads: seq<Thread<T>>, t: nat, w: Thread<T>)
    requires t < |threads|
    ensures InFlight(threads[t := w]) == InFlight(threads) - Load(threads[t]) + Load(w)
    ensures Blockeds(threads[t := w]) == Blockeds(threads) - IsBlocked(threads[t]) + IsBlocked(w)
    ensures Workings(threads[t := w]) == Workings(threads) - IsWorking(threads[t]) + IsWorking(w)
  {
    if t == 0 {
      assert threads[t := w][1..] == threads[1..];
    } else {
      assert threads[t := w][1..] == threads[1..][t - 1 := w];
      Counts(threads[1..], t - 1, w);
    }
  }

  lemma {:induction false} HeldUpdate<T>(threads: seq<Thread<T>>, t: nat, w: Thread<T>)
    requires t < |threads|
    ensures Held(threads[t := w]) + Hold(threads[t]) == Held(threads) + Hold(w)
  {
    if t == 0 {
      assert threads[t := w][1..] == threads[1..];
    } else {
      assert threads[t := w][1..] == threads[1..][t - 1 := w];
      HeldUpdate(threads[1..], t - 1, w);
      AddBoth(Held(threads[1..][t - 1 := w]), Hold(threads[t]), Held(threads[1..]), Hold(w), Hold(threads[0]));
    }
  }

  lemma AddBoth<T>(a: multiset<T>, b: multiset<T>, c: multiset<T>, d: multiset<T>, f: multiset<T>)
    requires a + b == c + d
    ensures a + f + b == c + f + d
  {
    assert a + f + b == (a + b) + f;
    assert c + f + d == (c + d) + f;
  }

  /** The three ways a thread's holding changes: it takes, it gives back, or neither. */
  lemma HeldChange<T>(threads: seq<Thread<T>>, t: nat, w: Thread<T>)
    requires t < |threads|
    ensures !threads[t].Working? ==> Held(threads[t := w]) == Held(threads) + Hold(w)
    ensures !w.Working? ==> Held(threads) == Held(threads[t := w]) + Hold(threads[t])
    ensures Hold(threads[t]) == Hold(w) ==> Held(threads[t := w]) == Held(threads)
  {
    HeldUpdate(threads, t, w);
    var h, h' := Held(threads), Held(threads[t := w]);
    if Hold(threads[t]) == Hold(w) { Cancel(h', h, Hold(w)); }
  }

  lemma Cancel<T>(x: multiset<T>, y: multiset<T>, z: multiset<T>)
    requires x + z == y + z
    ensures x == y
  {
    assert x == (x + z) - z;
    assert y == (y + z) - z;
  }

  lemma {:induction false} SomeoneWorks<T>(threads: seq<Thread<T>>) returns (t: nat)
    requires InFlight(threads) > 0
    ensures t < |threads| && threads[t].Working?
  {
    if threads[0].Working? {
      t := 0;
    } else {
      var u := SomeoneWorks(threads[1..]);
      t := u + 1;
    }
  }

  /** With nothing in flight, nobody holds anything. */
  lemma {:induction false} NobodyWorks<T>(threads: seq<Thread<T>>)
    requires InFlight(threads) == 0
    requires forall t :: 0 <= t < |threads| && threads[t].Working? ==> |threads[t].batch| > 0
    ensures forall t :: 0 <= t < |threads| ==> !threads[t].Working?
    ensures Held(threads) == multiset{} && Workings(threads) == 0
  {
    if threads != [] { NobodyWorks(threads[1..]); }
  }

  lemma {:induction false} NotifyKeepsCounts<T>(threads: seq<Thread<T>>, who: set<nat>)
    ensures InFlight(NotifySet(threads, who)) == InFlight(threads)
    ensures Blockeds(NotifySet(threads, who)) == Blockeds(threads)
    ensures Workings(NotifySet(threads, who)) == Workings(threads)
    ensures Held(NotifySet(threads, who)) == Held(threads)
  {
    if threads != [] {
      var rest := set i | i in who && i > 0 :: (i - 1) as nat;
      assert NotifySet(threads, who)[1..] == NotifySet(threads[1..], rest);
      NotifyKeepsCounts(threads[1..], rest);
    }
  }

  // ---------------------------------------------------------------- the invariant

  ghost predicate Bad<T(!new)>(check: T -> bool, m: multiset<T>) { exists c :: c in m && !check(c) }
  ghost predicate Good<T(!new)>(check: T -> bool, m: multiset<T>) { forall c :: c in m ==> check(c) }

  /** A worker's flag speaks for the checks it has executed, or for some failure of this round. */
  ghost predicate Honest<T(!new)>(check: T -> bool, w: Thread<T>, added: multiset<T>) {
    w.Working? ==>
      && |w.batch| > 0 && w.done <= |w.batch|
      && (w.ok ==> forall i :: 0 <= i < w.done ==> check(w.batch[i]))
      && (!w.ok ==> Bad(check, added))
  }

  /** The invariant while `inside` threads are inside a critical section that is not over yet:
    * they count as registered, but hold nothing and are not blocked. */
  ghost predicate Partial<T(!new)>(check: T -> bool, s: State<T>, c: Core<T>, inside: nat) {
    && |s.threads| > 0
    && Tallied(s.threads, c, inside)
    && Conserved(s.threads, c.queue, s.added, s.reported)
    && AllHonest(check, s.threads, s.added)
    && (if c.allOk then Good(check, s.reported) else Bad(check, s.added))
    && (s.threads[0].Blocked? ==> c.queue == [])
    && (s.threads[0] == Blocked(false) ==> c.todo > 0)
  }

  ghost predicate Tallied<T>(threads: seq<Thread<T>>, c: Core<T>, inside: nat) {
    && c.todo == |c.queue| + InFlight(threads)
    && c.idle == Blockeds(threads)
    && c.total == Blockeds(threads) + Workings(threads) + inside
  }

  /** No check is lost or doubled: each one added is queued, held by one thread, or reported. */
  ghost predicate Conserved<T>(threads: seq<Thread<T>>, queue: seq<T>, added: multiset<T>, reported: multiset<T>) {
    added == multiset(queue) + Held(threads) + reported
  }

  ghost predicate AllHonest<T(!new)>(check: T -> bool, threads: seq<Thread<T>>, added: multiset<T>) {
    forall t :: 0 <= t < |threads| ==> Honest(check, threads[t], added)
  }

  ghost predicate Inv<T(!new)>(check: T -> bool, s: State<T>) { Partial(check, s, s.core, 0) }

  lemma InitialHolds<T(!new)>(check: T -> bool, s: State<T>)
    requires Initial(s)
    ensures Inv(check, s)
  {
    NoThreads(s.threads);
  }

  lemma {:induction false} NoThreads<T>(threads: seq<Thread<T>>)
    requires forall t :: 0 <= t < |threads| ==> threads[t].Outside?
    ensures InFlight(threads) == Blockeds(threads) == Workings(threads) == 0 && Held(threads) == multiset{}
  {
    if threads != [] { NoThreads(threads[1..]); }
  }

  /** Finishing a critical section restores the invariant; when the master leaves, it takes exactly
    * the conjunction of all results with it. */
  lemma TopKeeps<T(!new)>(check: T -> bool, s: State<T>, c: Core<T>, t: nat)
    requires t < |s.threads| && s.threads[t].Outside? && Partial(check, s, c, 1)
    ensures c.total + c.idle + 1 > 0 && Inv(check, AfterTop(s, c, t))
    ensures t == 0 && Top(c, true).1.Leave? ==> (Top(c, true).1.result <==> Good(check, s.added))
  {
    match Top(c, t == 0).1 {
      case Leave(_) => LeavingKeeps(check, s, c, t);
      case Block => BlockingKeeps(check, s, c, t);
      case Process(_, _) => TakingKeeps(check, s, c, t);
    }
  }

  lemma LeavingKeeps<T(!new)>(check: T -> bool, s: State<T>, c: Core<T>, t: nat)
    requires t < |s.threads| && s.threads[t].Outside? && Partial(check, s, c, 1)
    requires c.queue == [] && (t == 0 || c.quit) && c.todo == 0
    ensures Inv(check, AfterTop(s, c, t))
    ensures c.allOk <==> Good(check, s.added)
  {
    NobodyWorks(s.threads);
    assert s.threads[t := Outside] == s.threads;
    assert s.added == s.reported;
  }

  lemma BlockingKeeps<T(!new)>(check: T -> bool, s: State<T>, c: Core<T>, t: nat)
    requires t < |s.threads| && s.threads[t].Outside? && Partial(check, s, c, 1)
    requires c.queue == [] && !((t == 0 || c.quit) && c.todo == 0)
    ensures Inv(check, AfterTop(s, c, t))
  {
    Counts(s.threads, t, Blocked(false));
    HeldChange(s.threads, t, Blocked(false));
  }

  lemma TakingKeeps<T(!new)>(check: T -> bool, s: State<T>, c: Core<T>, t: nat)
    requires t < |s.threads| && s.threads[t].Outside? && Partial(check, s, c, 1)
    requires c.queue != []
    ensures Inv(check, AfterTop(s, c, t))
  {
    var n := BatchOf(c);
    var w := Working(Popped(c.queue, n), 0, c.allOk);
    var c' := c.(queue := c.queue[..|c.queue| - n]);
    TakingShape(s, c, t, w, c');
    TakenKeeps(check, s, c, t, n, w, c');
  }

  lemma TakenKeeps<T(!new)>(check: T -> bool, s: State<T>, c: Core<T>, t: nat, n: nat, w: Thread<T>, c': Core<T>)
    requires t < |s.threads| && s.threads[t].Outside? && Partial(check, s, c, 1) && 1 <= n <= |c.queue|
    requires w == Working(Popped(c.queue, n), 0, c.allOk) && c' == c.(queue := c.queue[..|c.queue| - n])
    ensures Inv(check, s.(core := c', threads := s.threads[t := w]))
  {
    var threads := s.threads[t := w];
    assert !threads[0].Blocked?;
    TakingTallies(s.threads, c, t, w, c');
    TakingConserves(s.threads, c.queue, s.added, s.reported, t, n, w);
    StayHonest(check, s.threads, t, w, s.added);
  }

  lemma TakingShape<T>(s: State<T>, c: Core<T>, t: nat, w: Thread<T>, c': Core<T>)
    requires t < |s.threads| && c.queue != [] && c.total + c.idle + 1 > 0
    requires w == Working(Popped(c.queue, BatchOf(c)), 0, c.allOk)
    requires c' == c.(queue := c.queue[..|c.queue| - BatchOf(c)])
    ensures AfterTop(s, c, t) == s.(core := c', threads := s.threads[t := w])
  {
  }

  lemma TakingTallies<T>(threads: seq<Thread<T>>, c: Core<T>, t: nat, w: Thread<T>, c': Core<T>)
    requires t < |threads| && threads[t].Outside? && Tallied(threads, c, 1) && w.Working? && |w.batch| <= |c.queue|
    requires c' == c.(queue := c.queue[..|c.queue| - |w.batch|])
    ensures Tallied(threads[t := w], c', 0)
  {
    Counts(threads, t, w);
  }

  lemma StayHonest<T(!new)>(check: T -> bool, threads: seq<Thread<T>>, t: nat, w: Thread<T>, added: multiset<T>)
    requires AllHonest(check, threads, added) && t < |threads| && Honest(check, w, added)
    ensures AllHonest(check, threads[t := w], added)
  {
  }

  lemma TakingConserves<T>(threads: seq<Thread<T>>, queue: seq<T>, added: multiset<T>, reported: multiset<T>,
                           t: nat, n: nat, w: Thread<T>)
    requires Conserved(threads, queue, added, reported) && t < |threads| && threads[t].Outside?
    requires n <= |queue| && w.Working? && w.batch == Popped(queue, n)
    ensures Conserved(threads[t := w], queue[..|queue| - n], added, reported)
  {
    HeldChange(threads, t, w);
    PoppedContents(queue, n);
  }

  /** A thread that steps into the critical section no longer counts as blocked or working. */
  lemma StepInside<T(!new)>(s: State<T>, c: Core<T>, t: nat)
    requires t < |s.threads| && c.total + c.idle + 1 > 0
    ensures AfterTop(s, c, t) == AfterTop(s.(threads := s.threads[t := Outside]), c, t)
  {
    var w := AfterTop(s, c, t).threads[t];
    assert s.threads[t := Outside][t := w] == s.threads[t := w];
  }

  // ---------------------------------------------------------------- every step keeps it

  lemma EnterKeeps<T(!new)>(check: T -> bool, s: State<T>, t: nat)
    requires Inv(check, s) && Enabled(s, EvEnter(t))
    ensures Partial(check, s, Entered(s.core), 1)
  {
  }

  lemma WakeKeeps<T(!new)>(check: T -> bool, s: State<T>, t: nat)
    requires Inv(check, s) && Enabled(s, EvWake(t))
    ensures Partial(check, s.(threads := s.threads[t := Outside]), Woken(s.core), 1)
  {
    Counts(s.threads, t, Outside);
    HeldChange(s.threads, t, Outside);
  }

  /** The state a report leaves behind before the loop head runs. */
  ghost function Reporting<T>(s: State<T>, t: nat): State<T>
    requires t < |s.threads| && s.threads[t].Working?
  {
    var w := s.threads[t];
    var threads := if s.core.todo == |w.batch| && t != 0 then NotifyMaster(s.threads) else s.threads;
    s.(threads := threads[t := Outside], reported := s.reported + multiset(w.batch))
  }

  lemma ReportKeeps<T(!new)>(check: T -> bool, s: State<T>, t: nat)
    requires Inv(check, s) && Enabled(s, EvReport(t))
    ensures Partial(check, Reporting(s, t), Retired(s.core, |s.threads[t].batch|, s.threads[t].ok), 1)
  {
    var w := s.threads[t];
    NotifyingKeeps(s.threads);
    var threads := if s.core.todo == |w.batch| && t != 0 then NotifyMaster(s.threads) else s.threads;
    assert threads[t] == w;
    ReportTallies(threads, s.core, t);
    ReportConserves(threads, s.core.queue, s.added, s.reported, t);
    ReportResults(check, s, t);
    StayHonest(check, threads, t, Outside, s.added);
  }

  lemma ReportTallies<T>(threads: seq<Thread<T>>, c: Core<T>, t: nat)
    requires t < |threads| && threads[t].Working? && Tallied(threads, c, 0)
    ensures Tallied(threads[t := Outside], Retired(c, |threads[t].batch|, threads[t].ok), 1)
  {
    Counts(threads, t, Outside);
  }

  lemma NotifyingKeeps<T>(threads: seq<Thread<T>>)
    requires |threads| > 0
    ensures
      var after := NotifyMaster(threads);
      && InFlight(after) == InFlight(threads) && Held(after) == Held(threads)
      && Blockeds(after) == Blockeds(threads) && Workings(after) == Workings(threads)
  {
    if threads[0].Blocked? {
      Counts(threads, 0, Blocked(true));
      HeldChange(threads, 0, Blocked(true));
    }
  }

  lemma ReportConserves<T>(threads: seq<Thread<T>>, queue: seq<T>, added: multiset<T>, reported: multiset<T>, t: nat)
    requires Conserved(threads, queue, added, reported) && t < |threads| && threads[t].Working?
    ensures Conserved(threads[t := Outside], queue, added, reported + multiset(threads[t].batch))
  {
    HeldChange(threads, t, Outside);
  }

  lemma ReportResults<T(!new)>(check: T -> bool, s: State<T>, t: nat)
    requires Inv(check, s) && Enabled(s, EvReport(t))
    ensures
      var w := s.threads[t];
      if s.core.allOk && w.ok then Good(check, s.reported + multiset(w.batch)) else Bad(check, s.added)
  {
    var w := s.threads[t];
    if s.core.allOk && w.ok {
      forall c | c in s.reported + multiset(w.batch) ensures check(c) {
        if c in multiset(w.batch) {
          var i :| 0 <= i < |w.batch| && w.batch[i] == c;
        }
      }
    }
  }

  lemma ExecuteKeeps<T(!new)>(check: T -> bool, s: State<T>, t: nat)
    requires Inv(check, s) && Enabled(s, EvExecute(t))
    ensures Inv(check, Step(check, s, EvExecute(t)))
  {
    var w := s.threads[t];
    var w' := w.(done := w.done + 1, ok := w.ok && check(w.batch[w.done]));
    Counts(s.threads, t, w');
    HeldChange(s.threads, t, w');
    ExecuteHonest(check, s, t, w');
    StayHonest(check, s.threads, t, w', s.added);
  }

  lemma ExecuteHonest<T(!new)>(check: T -> bool, s: State<T>, t: nat, w': Thread<T>)
    requires t < |s.threads| && s.threads[t].Working? && s.threads[t].done < |s.threads[t].batch|
    requires Conserved(s.threads, s.core.queue, s.added, s.reported) && Honest(check, s.threads[t], s.added)
    requires var w := s.threads[t]; w' == w.(done := w.done + 1, ok := w.ok && check(w.batch[w.done]))
    ensures Honest(check, w', s.added)
  {
    var w := s.threads[t];
    if !w'.ok && w.ok {
      HeldChange(s.threads, t, Outside);
      assert w.batch[w.done] in multiset(w.batch);
      assert w.batch[w.done] in s.added;
    }
  }

  lemma AddKeeps<T(!new)>(check: T -> bool, s: State<T>, checks: seq<T>, who: set<nat>)
    requires Inv(check, s) && Enabled(s, EvAdd(checks, who))
    ensures Inv(check, Step(check, s, EvAdd(checks, who)))
  {
    NotifyKeepsCounts(s.threads, who);
    var s' := Step(check, s, EvAdd(checks, who));
    forall c | c in s.added ensures c in s'.added {}
    forall t | 0 <= t < |s'.threads| ensures Honest(check, s'.threads[t], s'.added) {
      assert Honest(check, s.threads[t], s.added);
    }
  }

  /** Every step keeps the invariant, and whenever the master's Wait returns, it returns exactly
    * the conjunction of the results of the checks added since it last did. */
  lemma StepKeeps<T(!new)>(check: T -> bool, s: State<T>, e: Event<T>)
    requires Inv(check, s) && Enabled(s, e)
    ensures Inv(check, Step(check, s, e))
    ensures forall result :: Returns(s, e, result) ==> (result <==> Good(check, s.added))
  {
    match e {
      case EvEnter(t) =>
        EnterKeeps(check, s, t);
        TopKeeps(check, s, Entered(s.core), t);
      case EvExecute(t) => ExecuteKeeps(check, s, t);
      case EvReport(t) =>
        ReportKeeps(check, s, t);
        var c := Retired(s.core, |s.threads[t].batch|, s.threads[t].ok);
        TopKeeps(check, Reporting(s, t), c, t);
        ReportStep(check, s, t);
      case EvWake(t) =>
        WakeKeeps(check, s, t);
        TopKeeps(check, s.(threads := s.threads[t := Outside]), Woken(s.core), t);
        StepInside(s, Woken(s.core), t);
      case EvAdd(checks, who) => AddKeeps(check, s, checks, who);
    }
  }

  lemma ReportStep<T(!new)>(check: T -> bool, s: State<T>, t: nat)
    requires Enabled(s, EvReport(t))
    ensures
      var c := Retired(s.core, |s.threads[t].batch|, s.threads[t].ok);
      Step(check, s, EvReport(t)) == AfterTop(Reporting(s, t), c, t)
  {
    var w := s.threads[t];
    var c := Retired(s.core, |w.batch|, w.ok);
    var s1 := s.(threads := if c.todo == 0 && t != 0 then NotifyMaster(s.threads) else s.threads,
                 reported := s.reported + multiset(w.batch));
    StepInside(s1, c, t);
  }

  // ---------------------------------------------------------------- whole runs

  /** A run: a start state and the events that happen, each enabled when it happens. */
  ghost predicate IsRun<T>(check: T -> bool, states: seq<State<T>>, events: seq<Event<T>>) {
    && |states| == |events| + 1 && Initial(states[0])
    && forall i :: 0 <= i < |events| ==>
      Enabled(states[i], events[i]) && states[i + 1] == Step(check, states[i], events[i])
  }

  lemma {:induction false} AlwaysInv<T(!new)>(check: T -> bool, states: seq<State<T>>, events: seq<Event<T>>, i: nat)
    requires IsRun(check, states, events) && i < |states|
    ensures Inv(check, states[i])
  {
    if i == 0 {
      InitialHolds(check, states[0]);
    } else {
      AlwaysInv(check, states, events, i - 1);
      StepKeeps(check, states[i - 1], events[i - 1]);
    }
  }

  /** The headline: in every interleaving, Wait returns the conjunction of all results. */
  lemma WaitIsConjunction<T(!new)>(check: T -> bool, states: seq<State<T>>, events: seq<Event<T>>, i: nat, result: bool)
    requires IsRun(check, states, events) && i < |events|
    requires Returns(states[i], events[i], result)
    ensures result <==> forall c :: c in states[i].added ==> check(c)
    ensures states[i + 1].added == multiset{}
  {
    AlwaysInv(check, states, events, i);
    StepKeeps(check, states[i], events[i]);
  }

  /** The counters, in every reachable state with the mutex free. */
  lemma CountersAreExact<T(!new)>(check: T -> bool, states: seq<State<T>>, events: seq<Event<T>>, i: nat)
    requires IsRun(check, states, events) && i < |states|
    ensures
      var s := states[i];
      && s.core.todo == |s.core.queue| + InFlight(s.threads)
      && s.core.total - s.core.idle == Workings(s.threads)
      && s.core.idle == Blockeds(s.threads)
  {
    AlwaysInv(check, states, events, i);
  }

  /** Between a Wait and the next Add, the controller's three assertions hold. */
  lemma ControllerAssertions<T(!new)>(check: T -> bool, states: seq<State<T>>, events: seq<Event<T>>, i: nat)
    requires IsRun(check, states, events) && i < |states| && states[i].added == multiset{}
    ensures
      var c := states[i].core;
      c.total == c.idle && c.todo == 0 && c.allOk
  {
    AlwaysInv(check, states, events, i);
    var s := states[i];
    assert |multiset(s.core.queue)| == |s.core.queue|;
    assert |s.added| == |multiset(s.core.queue)| + |Held(s.threads)| + |s.reported|;
    HeldSize(s.threads);
    NobodyWorks(s.threads);
  }

  lemma {:induction false} HeldSize<T>(threads: seq<Thread<T>>)
    ensures |Held(threads)| == InFlight(threads)
  {
    if threads != [] { HeldSize(threads[1..]); }
  }

  /** No lost wake-up: a master that is blocked and has not been notified waits for some worker
    * that holds a batch, and there is nothing left to take. */
  lemma BlockedMasterHasWorker<T(!new)>(check: T -> bool, states: seq<State<T>>, events: seq<Event<T>>, i: nat)
    returns (t: nat)
    requires IsRun(check, states, events) && i < |states| && states[i].threads != []
    requires states[i].threads[0] == Blocked(false)
    ensures 0 < t < |states[i].threads| && states[i].threads[t].Working?
    ensures states[i].core.queue == []
  {
    AlwaysInv(check, states, events, i);
    t := SomeoneWorks(states[i].threads);
  }

  /** The guards of the critical sections never fail: a thread that is blocked, outside or done with
    * its batch can always take the step the source takes. */
  lemma NeverStuck<T(!new)>(check: T -> bool, states: seq<State<T>>, events: seq<Event<T>>, i: nat, t: nat)
    requires IsRun(check, states, events) && i < |states| && t < |states[i].threads|
    ensures
      var s := states[i];
      match s.threads[t]
      case Outside => Enabled(s, EvEnter(t))
      case Blocked(_) => Enabled(s, EvWake(t))
      case Working(batch, done, _) => if done < |batch| then Enabled(s, EvExecute(t)) else Enabled(s, EvReport(t))
  {
    AlwaysInv(check, states, events, i);
    Counts(states[i].threads, t, Outside);
  }

  // ---------------------------------------------------------------- progress

  /** What a thread has left to do with its batch: a step for each check that is not executed, and two
    * for reporting, since a report may wake the master. */
  function Task<T>(w: Thread<T>): nat {
    if w.Working? && w.done <= |w.batch| then 2 + |w.batch| - w.done else if w.Working? then 2 else 0
  }

  function Toil<T>(threads: seq<Thread<T>>): nat {
    if threads == [] then 0 else Toil(threads[1..]) + Task(threads[0])
  }

  /** A master that has been notified has its wake-up left. */
  function Bell<T>(threads: seq<Thread<T>>): nat { if threads != [] && threads[0] == Blocked(true) then 1 else 0 }

  /** Bounds the steps to go: four for each queued check, and what the threads have left. */
  function Measure<T>(s: State<T>): nat { 4 * |s.core.queue| + Toil(s.threads) + Bell(s.threads) }

  /** The steps that the threads take on their own: no wake-up without a notification, no new work. */
  ghost predicate Useful<T>(s: State<T>, e: Event<T>) {
    || e.EvExecute? || e.EvReport?
    || (e == EvWake(0) && s.threads != [] && s.threads[0] == Blocked(true))
  }

  ghost predicate MasterWaits<T>(s: State<T>) { s.threads != [] && !s.threads[0].Outside? }

  lemma {:induction false} ToilUpdate<T>(threads: seq<Thread<T>>, t: nat, w: Thread<T>)
    requires t < |threads|
    ensures Toil(threads[t := w]) == Toil(threads) - Task(threads[t]) + Task(w)
  {
    if t == 0 {
      assert threads[t := w][1..] == threads[1..];
    } else {
      assert threads[t := w][1..] == threads[1..][t - 1 := w];
      ToilUpdate(threads[1..], t - 1, w);
    }
  }

  /** The end of a critical section takes away what the thread had left, and more if it finds work. */
  lemma TopLowers<T>(s: State<T>, c: Core<T>, t: nat)
    requires t < |s.threads| && c.total + c.idle + 1 > 0
    ensures
      var s' := AfterTop(s, c, t);
      && 4 * |s'.core.queue| + Toil(s'.threads) <= 4 * |c.queue| + Toil(s.threads) - Task(s.threads[t])
      && Bell(s'.threads) <= if t == 0 then 0 else Bell(s.threads)
  {
    ToilUpdate(s.threads, t, AfterTop(s, c, t).threads[t]);
  }

  /** Every useful step lowers the measure. */
  lemma UsefulLowers<T(!new)>(check: T -> bool, s: State<T>, e: Event<T>)
    requires Inv(check, s) && Enabled(s, e) && Useful(s, e)
    ensures Measure(Step(check, s, e)) < Measure(s)
  {
    match e {
      case EvExecute(t) =>
        var w := s.threads[t];
        ToilUpdate(s.threads, t, w.(done := w.done + 1, ok := w.ok && check(w.batch[w.done])));
      case EvReport(t) => ReportLowers(check, s, t);
      case EvWake(t) => TopLowers(s, Woken(s.core), t);
    }
  }

  lemma ReportLowers<T(!new)>(check: T -> bool, s: State<T>, t: nat)
    requires Enabled(s, EvReport(t))
    ensures Measure(Step(check, s, EvReport(t))) < Measure(s)
  {
    var w := s.threads[t];
    var c := Retired(s.core, |w.batch|, w.ok);
    var threads := if c.todo == 0 && t != 0 then NotifyMaster(s.threads) else s.threads;
    ToilUpdate(s.threads, 0, Blocked(true));
    assert Toil(threads) == Toil(s.threads) && threads[t] == w;
    TopLowers(s.(threads := threads, reported := s.reported + multiset(w.batch)), c, t);
  }

  /** While the master waits, no step raises the measure. */
  lemma NeverRises<T(!new)>(check: T -> bool, s: State<T>, e: Event<T>)
    requires Inv(check, s) && Enabled(s, e) && MasterWaits(s)
    ensures Measure(Step(check, s, e)) <= Measure(s)
  {
    match e {
      case EvEnter(t) => TopLowers(s, Entered(s.core), t);
      case EvExecute(_) => UsefulLowers(check, s, e);
      case EvReport(_) => UsefulLowers(check, s, e);
      case EvWake(t) => TopLowers(s, Woken(s.core), t);
    }
  }

  /** While the master waits, a useful step is always enabled. */
  lemma UsefulEnabled<T(!new)>(check: T -> bool, s: State<T>) returns (e: Event<T>)
    requires Inv(check, s) && MasterWaits(s)
    ensures Enabled(s, e) && Useful(s, e)
  {
    if s.threads[0] == Blocked(true) {
      Counts(s.threads, 0, Outside);
      e := EvWake(0);
    } else {
      var t := 0;
      if s.threads[0].Blocked? { t := SomeoneWorks(s.threads); }
      assert Honest(check, s.threads[t], s.added);
      e := if s.threads[t].done < |s.threads[t].batch| then EvExecute(t) else EvReport(t);
    }
  }

  /** How many events of a stretch of a run are useful. */
  ghost function UsefulCount<T>(states: seq<State<T>>, events: seq<Event<T>>, i: nat, j: nat): nat
    requires i <= j <= |events| && |states| == |events| + 1
    decreases j
  {
    if i == j then 0
    else UsefulCount(states, events, i, j - 1) + if Useful(states[j - 1], events[j - 1]) then 1 else 0
  }

  /** Event k does not raise the measure, and lowers it if it is useful. */
  ghost predicate NoRise<T>(states: seq<State<T>>, events: seq<Event<T>>, k: nat)
    requires k < |events| && |states| == |events| + 1
  {
    Measure(states[k + 1]) + (if Useful(states[k], events[k]) then 1 else 0) <= Measure(states[k])
  }

  lemma NextNoRise<T(!new)>(check: T -> bool, states: seq<State<T>>, events: seq<Event<T>>, k: nat)
    requires IsRun(check, states, events) && k < |events| && MasterWaits(states[k])
    ensures NoRise(states, events, k)
  {
    AlwaysInv(check, states, events, k);
    NeverRises(check, states[k], events[k]);
    if Useful(states[k], events[k]) { UsefulLowers(check, states[k], events[k]); }
  }

  lemma {:induction false} Telescoped<T>(states: seq<State<T>>, events: seq<Event<T>>, i: nat, j: nat)
    requires i <= j <= |events| && |states| == |events| + 1
    requires forall k :: i <= k < j ==> NoRise(states, events, k)
    ensures Measure(states[j]) + UsefulCount(states, events, i, j) <= Measure(states[i])
    decreases j
  {
    if i < j {
      Telescoped(states, events, i, j - 1);
      assert NoRise(states, events, j - 1);
    }
  }

  /** A Wait ends after boundedly many useful steps: from one time to another while the master waits
    * there are no more of them than the measure was at first. */
  lemma WaitIsBounded<T(!new)>(check: T -> bool, states: seq<State<T>>, events: seq<Event<T>>, i: nat, j: nat)
    requires IsRun(check, states, events) && i <= j <= |events|
    requires forall k :: i <= k < j ==> MasterWaits(states[k])
    ensures Measure(states[j]) + UsefulCount(states, events, i, j) <= Measure(states[i])
  {
    forall k | i <= k < j ensures NoRise(states, events, k) { NextNoRise(check, states, events, k); }
    Telescoped(states, events, i, j);
  }

  /** And as long as the master waits, one more is enabled and lowers the measure. */
  lemma WaitGoesOn<T(!new)>(check: T -> bool, states: seq<State<T>>, events: seq<Event<T>>, i: nat)
    returns (e: Event<T>)
    requires IsRun(check, states, events) && i < |states| && MasterWaits(states[i])
    ensures Enabled(states[i], e) && Useful(states[i], e)
    ensures Measure(Step(check, states[i], e)) < Measure(states[i])
  {
    AlwaysInv(check, states, events, i);
    e := UsefulEnabled(check, states[i]);
    UsefulLowers(check, states[i], e);
  }
}
