/** The stochastic address manager: every operation, for every random draw and clock reading,
  * keeps the five redundant indexes consistent (src/addrman.cpp).
  */
module AddrManager {
  import opened Numbers
  import opened AddrTables
  import opened AddrSteps

  /** A random draw: any value below `max`. */
  method GetRandInt(max: nat) returns (r: nat)
    requires max > 0
    ensures r < max
  {
    r :| 0 <= r < max;
  }

  method Any<T>(s: set<T>) returns (x: T)
    requires s != {}
    ensures x in s
  {
    x :| x in s;
  }

  /** The elements of a set in the order the source iterates over them. */
  method Ascending(s: set<int>) returns (q: seq<int>)
    ensures forall i, j :: 0 <= i < j < |q| ==> q[i] < q[j]
    ensures forall x :: x in q <==> x in s
    ensures |q| == |s|
  {
    q := [];
    var rest := s;
    while rest != {}
      invariant rest <= s && |q| + |rest| == |s|
      invariant forall i, j :: 0 <= i < j < |q| ==> q[i] < q[j]
      invariant forall x :: x in s <==> x in q || x in rest
      invariant forall i, x :: 0 <= i < |q| && x in rest ==> q[i] < x
      decreases |rest|
    {
      var least := Any(rest);
      var todo := rest - {least};
      while todo != {}
        invariant todo <= rest && least in rest && least !in todo
        invariant forall x :: x in rest && x !in todo ==> least <= x
        decreases |todo|
      {
        var x := Any(todo);
        todo := todo - {x};
        if x < least { least := x; }
      }
      q := q + [least];
      rest := rest - {least};
    }
  }

  /** The next element in ascending order is not among those before it. */
  lemma NextIsNew(q: seq<int>, k: nat)
    requires k < |q| && forall i, j :: 0 <= i < j < |q| ==> q[i] < q[j]
    ensures q[k] in q && q[k] !in q[..k] && q[..k + 1] == q[..k] + [q[k]]
  {
  }

  ghost predicate IsEmpty(t: Tables) {
    && t.idCount == 0 && t.info == map[] && t.addrIds == map[] && t.random == []
    && t.triedCount == 0 && |t.tried| == TRIED_BUCKET_COUNT && (forall b :: 0 <= b < |t.tried| ==> t.tried[b] == [])
    && t.newCount == 0 && |t.untried| == NEW_BUCKET_COUNT && forall b :: 0 <= b < |t.untried| ==> t.untried[b] == {}
  }

  lemma {:induction false} NoneTried(tried: seq<seq<int>>, n: int)
    requires forall b :: 0 <= b < |tried| ==> tried[b] == []
    ensures CountTried(tried, n) == 0
  {
    if tried != [] { NoneTried(tried[..|tried| - 1], n); }
  }

  lemma {:induction false} NoneNew(untried: seq<set<int>>, n: int)
    requires forall b :: 0 <= b < |untried| ==> untried[b] == {}
    ensures CountNew(untried, n) == 0
  {
    if untried != [] { NoneNew(untried[..|untried| - 1], n); }
  }

  lemma EmptyIsConsistent(o: Oracle, key: seq<nat>, t: Tables)
    requires IsEmpty(t)
    ensures Invariant(o, key, t)
  {
    forall n ensures CountTried(t.tried, n) == TriedShare(t.info, n) { NoneTried(t.tried, n); }
    forall n ensures CountNew(t.untried, n) == NewShare(t.info, n) { NoneNew(t.untried, n); }
    assert TriedIds(t.info) == {} && NewIds(t.info) == {};
  }

  /** The ids that four draws pick out of a list. */
  ghost function Sample(ids: seq<int>, draws: seq<nat>): set<int>
    requires forall d :: 0 <= d < |draws| ==> draws[d] < |ids|
  {
    set d | 0 <= d < |draws| :: ids[draws[d]]
  }

  /** `v` is the drawn entry last heard of longest ago, the first of equals. */
  ghost predicate Oldest(info: map<int, Info>, ids: seq<int>, draws: seq<nat>, v: int)
    requires forall d :: 0 <= d < |draws| ==> draws[d] < |ids|
    requires forall k :: 0 <= k < |ids| ==> ids[k] in info
  {
    v in Sample(ids, draws) && forall d :: 0 <= d < |draws| ==> Precedes(info, v, ids[draws[d]])
  }

  ghost predicate Precedes(info: map<int, Info>, v: int, m: int) {
    && v in info && m in info
    && (info[v].time < info[m].time || (info[v].time == info[m].time && v <= m))
  }

  ghost predicate AnyBelow(draws: seq<nat>, i: nat) { exists d :: 0 <= d < |draws| && draws[d] < i }

  lemma BelowNext(draws: seq<nat>, i: nat)
    ensures AnyBelow(draws, i + 1) <==> AnyBelow(draws, i) || i in draws
  {
    if i in draws {
      var d :| 0 <= d < |draws| && draws[d] == i;
      assert draws[d] < i + 1;
    }
  }

  /** Draw i picks a position that is not before i. */
  predicate Drawable(draws: seq<nat>, n: nat) {
    |draws| <= n && forall i :: 0 <= i < |draws| ==> i <= draws[i] < n
  }

  /** A bucket after the draws: draw i has swapped position i with the position drawn. */
  function Shuffled(s: seq<int>, draws: seq<nat>): (r: seq<int>)
    requires Drawable(draws, |s|)
    ensures |r| == |s|
  {
    if draws == [] then s
    else
      var i := |draws| - 1;
      Swapped(Shuffled(s, draws[..i]), i, draws[i])
  }

  lemma {:induction false} ShuffledPermutes(s: seq<int>, draws: seq<nat>)
    requires Drawable(draws, |s|)
    ensures multiset(Shuffled(s, draws)) == multiset(s)
  {
    if draws != [] {
      var i := |draws| - 1;
      ShuffledPermutes(s, draws[..i]);
      SwapIsPermutation(Shuffled(s, draws[..i]), i, draws[i]);
    }
  }

  lemma {:induction false} ShuffledDistinct(s: seq<int>, draws: seq<nat>)
    requires Drawable(draws, |s|) && forall i, j :: 0 <= i < j < |s| ==> s[i] != s[j]
    ensures forall i, j :: 0 <= i < j < |s| ==> Shuffled(s, draws)[i] != Shuffled(s, draws)[j]
  {
    if draws != [] { ShuffledDistinct(s, draws[..|draws| - 1]); }
  }

  /** Position m holds the first of the entries, among the first n, that were reached longest ago. */
  predicate FirstOldest(info: map<int, Info>, s: seq<int>, n: nat, m: nat) {
    && m < n <= |s|
    && (forall j :: 0 <= j < n ==> s[j] in info)
    && (forall j :: 0 <= j < m ==> info[s[m]].lastSuccess < info[s[j]].lastSuccess)
    && forall j :: m <= j < n ==> info[s[m]].lastSuccess <= info[s[j]].lastSuccess
  }

  lemma ShuffledMembers(s: seq<int>, draws: seq<nat>)
    requires Drawable(draws, |s|)
    ensures forall j :: 0 <= j < |s| ==> Shuffled(s, draws)[j] in s
  {
    ShuffledPermutes(s, draws);
    forall j | 0 <= j < |s| ensures Shuffled(s, draws)[j] in s { assert Shuffled(s, draws)[j] in multiset(s); }
  }

  lemma ShuffledNext(s: seq<int>, draws: seq<nat>, p: nat)
    requires Drawable(draws, |s|) && |draws| <= p < |s|
    ensures Drawable(draws + [p], |s|)
    ensures Shuffled(s, draws + [p]) == Swapped(Shuffled(s, draws), |draws|, p)
    ensures forall j :: 0 <= j < |draws| ==> Shuffled(s, draws + [p])[j] == Shuffled(s, draws)[j]
  {
    assert (draws + [p])[..|draws|] == draws;
  }

  lemma OldestNext(info: map<int, Info>, s: seq<int>, i: nat, m: nat, p: nat)
    requires (i > 0 ==> FirstOldest(info, s, i, m)) && i <= p < |s| && s[p] in info
    ensures i == 0 || info[s[p]].lastSuccess < info[s[m]].lastSuccess ==> FirstOldest(info, Swapped(s, i, p), i + 1, i)
    ensures i > 0 && info[s[p]].lastSuccess >= info[s[m]].lastSuccess ==> FirstOldest(info, Swapped(s, i, p), i + 1, m)
  {
  }

  /** After some draws, draw `m` took the oldest entry, from position `oldestPos`. */
  ghost predicate Leading(info: map<int, Info>, s: seq<int>, draws: seq<nat>, m: nat, oldest: int, oldestPos: int) {
    && Drawable(draws, |s|)
    && (draws == [] ==> oldest == -1)
    && (draws != [] ==> m < |draws| && oldestPos == draws[m] && oldest == Shuffled(s, draws)[m])
    && (draws != [] && -1 !in s ==> FirstOldest(info, Shuffled(s, draws), |draws|, m))
  }

  lemma LeadingNext(info: map<int, Info>, s: seq<int>, draws: seq<nat>, m: nat, oldest: int, oldestPos: int, p: nat)
    requires Leading(info, s, draws, m, oldest, oldestPos) && |draws| <= p < |s|
    requires forall j :: 0 <= j < |s| ==> s[j] in info
    ensures
      var temp := Shuffled(s, draws)[p];
      && Shuffled(s, draws + [p]) == Swapped(Shuffled(s, draws), |draws|, p)
      && temp in info && (oldest != -1 ==> oldest in info)
      && if oldest == -1 || info[temp].lastSuccess < info[oldest].lastSuccess
         then Leading(info, s, draws + [p], |draws|, temp, p)
         else Leading(info, s, draws + [p], m, oldest, oldestPos)
  {
    ShuffledMembers(s, draws);
    ShuffledNext(s, draws, p);
    if -1 !in s { OldestNext(info, Shuffled(s, draws), |draws|, m, p); }
  }

  /** The position that the selection returns is where the oldest entry was before its swap. It is
    * still there exactly when its draw picked it in place. */
  lemma OldestStaysIff(s: seq<int>, draws: seq<nat>, m: nat)
    requires Drawable(draws, |s|) && m < |draws| && forall i, j :: 0 <= i < j < |s| ==> s[i] != s[j]
    ensures Shuffled(s, draws)[draws[m]] == Shuffled(s, draws)[m] <==> draws[m] == m
  {
    ShuffledDistinct(s, draws);
  }

  lemma {:induction false} FirstSwapOnly(s: seq<int>, draws: seq<nat>)
    requires |s| >= 2 && Drawable(draws, |s|) && draws != [] && draws[0] == 1
    requires forall j :: 1 <= j < |draws| ==> draws[j] == j
    ensures Shuffled(s, draws) == Swapped(s, 0, 1)
  {
    var i := |draws| - 1;
    if i > 0 {
      FirstSwapOnly(s, draws[..i]);
      assert Swapped(Swapped(s, 0, 1), i, i) == Swapped(s, 0, 1);
    } else {
      assert draws[..0] == [];
    }
  }

  /** When the oldest entry stands second and is drawn first, and the later draws pick in place, the
    * entry evicted is a younger one. */
  lemma OldestIsMissed(info: map<int, Info>, s: seq<int>, draws: seq<nat>)
    requires |draws| >= 2 && Drawable(draws, |s|) && FirstOldest(info, s, |draws|, 1)
    requires draws[0] == 1 && forall j :: 1 <= j < |draws| ==> draws[j] == j
    ensures FirstOldest(info, Shuffled(s, draws), |draws|, 0)
    ensures
      var evicted := Shuffled(s, draws)[draws[0]];
      evicted == s[0] && info[evicted].lastSuccess > info[s[1]].lastSuccess
  {
    FirstSwapOnly(s, draws);
    var t := Swapped(s, 0, 1);
    assert t[0] == s[1] && t[1] == s[0] && forall j :: 2 <= j < |s| ==> t[j] == s[j];
  }

  // ---------------------------------------------------------------- what a promotion does

  /** With room in its bucket `n` goes to the end of it. It leaves every new bucket, and nothing else
    * changes. */
  ghost predicate RoomTaken(t: Tables, t': Tables, n: int, k: nat)
    requires n in t.info && k < |t.tried|
  {
    && t'.idCount == t.idCount && t'.addrIds == t.addrIds && t'.random == t.random
    && t'.info == t.info[n := t.info[n].(refCount := 0, inTried := true)]
    && t'.triedCount == t.triedCount + 1 && t'.newCount == t.newCount - 1
    && t'.tried == t.tried[k := t.tried[k] + [n]]
    && |t'.untried| == |t.untried| && forall b :: 0 <= b < |t.untried| ==> t'.untried[b] == t.untried[b] - {n}
  }

  /** In a full bucket `n` takes the position that the draws select. Whoever is there goes back to the new
    * bucket of its own address and source if that has room once `n` has left, and otherwise to the one
    * that `n` came from. */
  ghost predicate PlaceTaken(o: Oracle, key: seq<nat>, t: Tables, t': Tables, n: int, k: nat, origin: nat,
                             draws: seq<nat>, m: nat)
    requires Sized(t) && n in t.info && k < |t.tried|
  {
    && t'.idCount == t.idCount && t'.addrIds == t.addrIds && t'.random == t.random
    && Drawable(draws, |t.tried[k]|) && |draws| == Min(TRIED_ENTRIES_INSPECT_ON_EVICT, |t.tried[k]|) && m < |draws|
    && var s := Shuffled(t.tried[k], draws);
       var v := s[draws[m]];
       && (-1 !in t.tried[k] ==> FirstOldest(t.info, s, |draws|, m))
       && v != n && v in t.info && t.info[v].inTried
       && t'.info == t.info[n := t.info[n].(refCount := 0, inTried := true)]
                           [v := t.info[v].(refCount := 1, inTried := false)]
       && t'.triedCount == t.triedCount && t'.newCount == t.newCount
       && t'.tried == t.tried[k := s[draws[m] := n]]
       && GoesBack(o, key, t, t', n, v, origin)
  }

  ghost predicate GoesBack(o: Oracle, key: seq<nat>, t: Tables, t': Tables, n: int, v: int, origin: nat)
    requires Sized(t) && v in t.info
  {
    var own := NewBucket(o, key, t.info[v].service, t.info[v].source);
    var u := if |t.untried[own] - {n}| < NEW_BUCKET_SIZE then own else origin;
    && |t'.untried| == |t.untried|
    && forall b :: 0 <= b < |t.untried| ==>
         t'.untried[b] == t.untried[b] - {n} + if b == u then {v} else {}
  }

  /** `n` was promoted to the tried bucket of its own address, out of new bucket `origin` and all others. */
  ghost predicate Promotion(o: Oracle, key: seq<nat>, t: Tables, t': Tables, n: int, origin: nat, draws: seq<nat>,
                            m: nat) {
    && Sized(t) && n in t.info && !t.info[n].inTried && origin < |t.untried| && n in t.untried[origin]
    && var k := TriedBucket(o, key, t.info[n].service);
       if |t.tried[k]| < TRIED_BUCKET_SIZE then RoomTaken(t, t', n, k)
       else PlaceTaken(o, key, t, t', n, k, origin, draws, m)
  }

  /** The entry being promoted has changed in its reference count only. */
  lemma SameOldest(info: map<int, Info>, n: int, s: seq<int>, count: nat, m: nat)
    requires n in info
    ensures FirstOldest(info[n := info[n].(refCount := 0)], s, count, m) <==> FirstOldest(info, s, count, m)
  {
  }

  lemma MovedTakesRoom(t: Tables, n: int, k: nat)
    requires n in t.info && k < |t.tried|
    ensures RoomTaken(t, MovedIntoRoom(t, n, k), n, k)
  {
  }

  /** The new bucket that an evicted entry goes to. */
  function BackTo(o: Oracle, key: seq<nat>, t: Tables, n: int, v: int, origin: nat): nat
    requires Sized(t) && v in t.info
  {
    var own := NewBucket(o, key, t.info[v].service, t.info[v].source);
    if |t.untried[own] - {n}| < NEW_BUCKET_SIZE then own else origin
  }

  /** What the selection of a position leaves: the draws, and which of them took the oldest entry. */
  ghost predicate Selected(t: Tables, n: int, k: nat, draws: seq<nat>, m: nat) {
    && n in t.info && k < |t.tried|
    && Drawable(draws, |t.tried[k]|) && |draws| == Min(TRIED_ENTRIES_INSPECT_ON_EVICT, |t.tried[k]|) && m < |draws|
    && (-1 !in t.tried[k] ==>
          FirstOldest(t.info[n := t.info[n].(refCount := 0)], Shuffled(t.tried[k], draws), |draws|, m))
    && Shuffled(t.tried[k], draws)[draws[m]] in t.info
  }

  ghost function AfterEviction(o: Oracle, key: seq<nat>, t: Tables, n: int, k: nat, origin: nat, draws: seq<nat>,
                               m: nat): Tables
    requires Sized(t) && Selected(t, n, k, draws, m) && origin < |t.untried|
  {
    var s := Shuffled(t.tried[k], draws);
    Exchanged(t.(tried := t.tried[k := s]), n, k, draws[m], BackTo(o, key, t, n, s[draws[m]], origin))
  }

  lemma SelectedIsTried(t: Tables, n: int, k: nat, draws: seq<nat>, m: nat)
    requires Core(t, {}) && n in t.info && !t.info[n].inTried && k < |t.tried|
    requires Drawable(draws, |t.tried[k]|) && m < |draws|
    ensures
      var v := Shuffled(t.tried[k], draws)[draws[m]];
      v in t.info && t.info[v].inTried && v != n
  {
    ShuffledMembers(t.tried[k], draws);
    var v := Shuffled(t.tried[k], draws)[draws[m]];
    var i :| 0 <= i < |t.tried[k]| && t.tried[k][i] == v;
    InTriedBucket(t, {}, k, i);
  }

  lemma ExchangeGoesBack(o: Oracle, key: seq<nat>, t: Tables, t1: Tables, n: int, k: nat, origin: nat, pos: nat)
    requires Sized(t) && t1 == t.(tried := t1.tried) && n in t.info && k < |t1.tried| && pos < |t1.tried[k]|
    requires origin < |t.untried| && t1.tried[k][pos] in t.info
    ensures
      var v := t1.tried[k][pos];
      GoesBack(o, key, t, Exchanged(t1, n, k, pos, BackTo(o, key, t, n, v, origin)), n, v, origin)
  {
    var v := t1.tried[k][pos];
    var u := BackTo(o, key, t, n, v, origin);
    var t' := Exchanged(t1, n, k, pos, u);
    forall b | 0 <= b < |t.untried| ensures t'.untried[b] == t.untried[b] - {n} + if b == u then {v} else {} {
      assert Without(t.untried, n)[b] == t.untried[b] - {n};
    }
  }

  lemma EvictionTakesPlace(o: Oracle, key: seq<nat>, t: Tables, n: int, k: nat, origin: nat, draws: seq<nat>, m: nat)
    requires Sized(t) && Selected(t, n, k, draws, m) && origin < |t.untried|
    requires
      var v := Shuffled(t.tried[k], draws)[draws[m]];
      t.info[v].inTried && v != n
    ensures PlaceTaken(o, key, t, AfterEviction(o, key, t, n, k, origin, draws, m), n, k, origin, draws, m)
  {
    var s := Shuffled(t.tried[k], draws);
    SameOldest(t.info, n, s, |draws|, m);
    ExchangeGoesBack(o, key, t, t.(tried := t.tried[k := s]), n, k, origin, draws[m]);
  }

  /** A whole eviction: what it does, and what it keeps. */
  lemma EvictionDone(o: Oracle, key: seq<nat>, t: Tables, n: int, origin: nat, k: nat, draws: seq<nat>, m: nat)
    requires Sized(t) && Core(t, {}) && Selected(t, n, k, draws, m) && !t.info[n].inTried
    requires origin < |t.untried| && n in t.untried[origin] && k == TriedBucket(o, key, t.info[n].service)
    ensures
      var t' := AfterEviction(o, key, t, n, k, origin, draws, m);
      && PlaceTaken(o, key, t, t', n, k, origin, draws, m)
      && Sized(t') && Core(t', {}) && Promoted(o, key, t, t', n) && (Sound(o, key, t) ==> Sound(o, key, t'))
  {
    var s := Shuffled(t.tried[k], draws);
    var t1 := t.(tried := t.tried[k := s]);
    ShuffledPermutes(t.tried[k], draws);
    ReorderKeeps(o, key, t, {}, k, s);
    SelectedIsTried(t, n, k, draws, m);
    EvictionTakesPlace(o, key, t, n, k, origin, draws, m);
    EvictionKeeps(o, key, t, t1, n, origin, k, draws[m], BackTo(o, key, t, n, s[draws[m]], origin));
  }

  lemma PickedNext(picked: seq<Info>, random: seq<int>, random': seq<int>, info0: map<int, Info>, info: map<int, Info>)
    requires Picked(picked, random, info0) && SameButPositions(info0, info)
    requires |picked| < |random'| == |random| && forall i :: 0 <= i < |picked| ==> random'[i] == random[i]
    requires random'[|picked|] in info
    ensures Picked(picked + [info[random'[|picked|]]], random', info0)
  {
    var m := random'[|picked|];
    assert m in info0 && info[m] == info0[m].(randomPos := info[m].randomPos);
  }

  /** The first entries of the random order, as they were drawn. */
  ghost predicate Picked(picked: seq<Info>, random: seq<int>, info: map<int, Info>) {
    && |picked| <= |random|
    && forall i :: 0 <= i < |picked| ==> random[i] in info && SameButPosition(picked[i], info[random[i]])
  }

  class AddrMan {
    const o: Oracle
    var key: seq<nat>
    var idCount: int
    var info: map<int, Info>
    var addrIds: map<NetAddr, int>
    var random: seq<int>
    var triedCount: int
    var tried: seq<seq<int>>
    var newCount: int
    var untried: seq<set<int>>

    ghost function View(): Tables
      reads this
    {
      Tables(idCount, info, addrIds, random, triedCount, tried, newCount, untried)
    }

    /** The debug check would return 0. */
    ghost predicate Checked()
      reads this
    {
      Sized(View()) && CheckPasses(View())
    }

    /** The inductive invariant, which is stronger. */
    ghost predicate Valid()
      reads this
    {
      Invariant(o, key, View())
    }

    constructor (o: Oracle, key: seq<nat>)
      ensures this.o == o && this.key == key
      ensures Valid() && IsEmpty(View())
    {
      this.o := o;
      this.key := key;
      idCount, info, addrIds, random := 0, map[], map[], [];
      triedCount, tried := 0, seq(TRIED_BUCKET_COUNT, _ => []);
      newCount, untried := 0, seq(NEW_BUCKET_COUNT, _ => {});
      new;
      EmptyIsConsistent(o, key, View());
    }

    /** The id filed under a network address, when it has an entry. */
    method Find(a: NetAddr) returns (found: bool, id: int)
      ensures found <==> Found(View(), a)
      ensures found ==> id == addrIds[a]
    {
      found, id := a in addrIds, 0;
      if found {
        id := addrIds[a];
        found := id in info;
      }
    }

    method SwapRandom(i: nat, j: nat)
      requires i < |random| && j < |random| && random[i] in info && random[j] in info
      modifies this`info, this`random
      ensures View() == SwappedPlaces(old(View()), i, j)
    {
      if i == j { return; }
      var id1, id2 := random[i], random[j];
      info := info[id1 := info[id1].(randomPos := j)];
      info := info[id2 := info[id2].(randomPos := i)];
      random := random[i := id2];
      random := random[j := id1];
    }

    /** Shuffles the front of a tried bucket and names a position to evict from: the one from which
      * draw `m` took the entry reached longest ago, though it has since been swapped to position `m`.
      * The sentinel of the search is -1, which no manager hands out as an id. */
    method SelectTried(k: nat) returns (pos: nat, ghost m: nat, ghost draws: seq<nat>)
      requires k < |tried| && |tried[k]| > 0 && forall i :: 0 <= i < |tried[k]| ==> tried[k][i] in info
      modifies this`tried
      ensures Drawable(draws, |old(tried)[k]|) && |draws| == Min(TRIED_ENTRIES_INSPECT_ON_EVICT, |old(tried)[k]|)
      ensures tried == old(tried)[k := Shuffled(old(tried)[k], draws)]
      ensures m < |draws| && pos == draws[m]
      ensures -1 !in old(tried)[k] ==> FirstOldest(info, tried[k], |draws|, m)
    {
      ghost var tried0, s := tried, tried[k];
      var oldest, oldestPos := -1, -1;
      var i := 0;
      m, draws := 0, [];
      while i < TRIED_ENTRIES_INSPECT_ON_EVICT && i < |tried[k]|
        invariant 0 <= i == |draws| <= TRIED_ENTRIES_INSPECT_ON_EVICT && Leading(info, s, draws, m, oldest, oldestPos)
        invariant tried == tried0[k := Shuffled(s, draws)]
      {
        var r := GetRandInt(|tried[k]| - i);
        var p := r + i;
        ShuffledMembers(s, draws);
        var temp := tried[k][p];
        SwapTried(k, i, p);
        LeadingNext(info, s, draws, m, oldest, oldestPos, p);
        if oldest == -1 || info[temp].lastSuccess < info[oldest].lastSuccess {
          oldest, oldestPos := temp, p;
          m := i;
        }
        draws := draws + [p];
        i := i + 1;
      }
      pos := oldestPos;
    }

    method SwapTried(k: nat, i: nat, p: nat)
      requires k < |tried| && i <= p < |tried[k]|
      modifies this`tried
      ensures tried == old(tried)[k := Swapped(old(tried)[k], i, p)]
    {
      var temp := tried[k][p];
      tried := tried[k := tried[k][p := tried[k][i]]];
      tried := tried[k := tried[k][i := temp]];
      assert tried[k] == Swapped(old(tried)[k], i, p);
    }

    /** Takes id `v` out of new bucket `b`, dropping its entry with the last reference. */
    method Unlink(b: nat, v: int)
      requires Safe(View()) && b < |untried| && v in info
      modifies this`info, this`addrIds, this`random, this`newCount, this`untried
      ensures View() == Unlinked(old(View()), b, v)
    {
      var refs := info[v].refCount - 1;
      if refs == 0 {
        SwapRandom(info[v].randomPos, |random| - 1);
        Remove(b, v);
      } else {
        info := info[v := info[v].(refCount := refs)];
        untried := untried[b := untried[b] - {v}];
      }
    }

    /** Drops an entry that is last in the random order. */
    method Remove(b: nat, v: int)
      requires b < |untried| && v in info && |random| > 0
      modifies this`info, this`addrIds, this`random, this`newCount, this`untried
      ensures View() == Deleted(old(View()), b, v)
    {
      random := random[..|random| - 1];
      addrIds := addrIds - {info[v].service.net};
      info := info - {v};
      newCount := newCount - 1;
      untried := untried[b := untried[b] - {v}];
    }

    /** Removes one id from a new bucket: the first terrible one if there is any, otherwise the one
      * last heard of longest ago among four draws. `clock` gives the time at which an entry is looked
      * at. The sentinel of the search is -1, which no manager hands out as an id. */
    method ShrinkNew(b: nat, clock: int -> int)
      returns (r: int, ghost v: int, ghost ids: seq<int>, ghost draws: seq<nat>)
      requires Safe(View()) && b < |untried| && untried[b] != {}
      modifies this`info, this`addrIds, this`random, this`newCount, this`untried
      ensures v in old(untried[b]) && View() == Unlinked(old(View()), b, v)
      ensures (forall i, j :: 0 <= i < j < |ids| ==> ids[i] < ids[j]) && forall m :: m in ids <==> m in old(untried[b])
      ensures forall k :: 0 <= k < |ids| ==> ids[k] in old(info)
      ensures r == 0 ==> IsTerrible(old(info)[v], clock(v))
      ensures r == 0 ==> forall k :: 0 <= k < |ids| && ids[k] < v ==> !IsTerrible(old(info)[ids[k]], clock(ids[k]))
      ensures r != 0 ==>
        && r == 1 && (forall k :: 0 <= k < |ids| ==> !IsTerrible(old(info)[ids[k]], clock(ids[k])))
        && |draws| == 4 && (forall d :: 0 <= d < |draws| ==> draws[d] < |ids|) && v in Sample(ids, draws)
        && (-1 !in old(untried[b]) ==> Oldest(old(info), ids, draws, v))
    {
      var order := Ascending(untried[b]);
      ids, draws := order, [];
      forall k | 0 <= k < |ids| ensures ids[k] in info && ids[k] in untried[b] { assert ids[k] in ids; }
      var k := 0;
      while k < |order|
        invariant 0 <= k <= |order| && View() == old(View())
        invariant forall j :: 0 <= j < k ==> !IsTerrible(info[order[j]], clock(order[j]))
      {
        if IsTerrible(info[order[k]], clock(order[k])) {
          v := order[k];
          Unlink(b, order[k]);
          return 0, v, ids, draws;
        }
        k := k + 1;
      }
      var n0 := GetRandInt(|order|);
      var n1 := GetRandInt(|order|);
      var n2 := GetRandInt(|order|);
      var n3 := GetRandInt(|order|);
      draws := [n0, n1, n2, n3];
      var oldest := PickOldest(order, n0, n1, n2, n3);
      v := oldest;
      Unlink(b, oldest);
      r := 1;
    }

    /** The loop over the bucket that compares the drawn entries. */
    method PickOldest(ids: seq<int>, n0: nat, n1: nat, n2: nat, n3: nat) returns (oldest: int)
      requires n0 < |ids| && n1 < |ids| && n2 < |ids| && n3 < |ids|
      requires (forall k :: 0 <= k < |ids| ==> ids[k] in info) && forall i, j :: 0 <= i < j < |ids| ==> ids[i] < ids[j]
      ensures oldest in Sample(ids, [n0, n1, n2, n3])
      ensures -1 !in ids ==> Oldest(info, ids, [n0, n1, n2, n3], oldest)
    {
      oldest := -1;
      ghost var draws := [n0, n1, n2, n3];
      ghost var at := 0;
      var i := 0;
      while i < |ids|
        invariant 0 <= i <= |ids|
        invariant oldest != -1 ==> oldest in info
        invariant AnyBelow(draws, i) ==> 0 <= at < i && at in draws && oldest == ids[at]
        invariant !AnyBelow(draws, i) ==> oldest == -1
        invariant -1 !in ids && AnyBelow(draws, i) ==> forall j :: 0 <= j < i && j in draws ==>
          Precedes(info, oldest, ids[j])
      {
        BelowNext(draws, i);
        assert i in draws <==> i == n0 || i == n1 || i == n2 || i == n3;
        if i == n0 || i == n1 || i == n2 || i == n3 {
          assert ids[i] in ids;
          if oldest == -1 || info[ids[i]].time < info[oldest].time { oldest, at := ids[i], i; }
        }
        i := i + 1;
      }
      assert draws[0] < i;
      ghost var d :| 0 <= d < |draws| && draws[d] == at;
      forall e | 0 <= e < |draws| ensures -1 !in ids ==> Precedes(info, oldest, ids[draws[e]]) {
        assert draws[e] in draws;
      }
    }

    /** The first half of MakeTried: takes `n` out of every new bucket. */
    method LeaveNew(n: int)
      requires n in info
      modifies this`info, this`untried
      ensures untried == Without(old(untried), n)
      ensures info == old(info)[n := old(info)[n].(refCount := old(info)[n].refCount - CountNew(old(untried), n))]
    {
      ghost var info0, untried0 := info, untried;
      var b := 0;
      while b < |untried|
        invariant 0 <= b <= |untried| == |untried0|
        invariant forall j :: 0 <= j < b ==> untried[j] == untried0[j] - {n}
        invariant forall j :: b <= j < |untried| ==> untried[j] == untried0[j]
        invariant info == info0[n := info0[n].(refCount := info0[n].refCount - CountNew(untried0[..b], n))]
      {
        assert untried0[..b + 1][..b] == untried0[..b];
        if n in untried[b] {
          untried := untried[b := untried[b] - {n}];
          info := info[n := info[n].(refCount := info[n].refCount - 1)];
        } else {
          assert untried0[b] - {n} == untried0[b];
        }
        b := b + 1;
      }
      assert untried0[..b] == untried0;
    }

    /** Moves a new entry to the tried table, evicting a tried entry when its bucket is full. */
    method MakeTried(n: int, origin: nat) returns (ghost draws: seq<nat>, ghost m: nat)
      requires Sized(View()) && Core(View(), {}) && origin < |untried| && n in untried[origin]
      modifies this`info, this`triedCount, this`tried, this`newCount, this`untried
      ensures Promotion(o, key, old(View()), View(), n, origin, draws, m)
      ensures Sized(View()) && Core(View(), {}) && Promoted(o, key, old(View()), View(), n)
      ensures Sound(o, key, old(View())) ==> Sound(o, key, View())
    {
      draws, m := [], 0;
      ghost var t0 := View();
      InNewBucket(t0, {}, origin, n);
      assert NewShare(t0.info, n) == CountNew(t0.untried, n);
      LeaveNew(n);
      newCount := newCount - 1;
      assert info[n].refCount == 0;
      var k := TriedBucket(o, key, info[n].service);
      if |tried[k]| < TRIED_BUCKET_SIZE {
        Join(n, k, t0);
        MoveIntoRoomKeeps(o, key, t0, n, k);
        PromotedIntoRoom(o, key, t0, n, k);
        MovedTakesRoom(t0, n, k);
      } else {
        draws, m := Evict(n, origin, k, t0);
        EvictionDone(o, key, t0, n, origin, k, draws, m);
      }
    }

    method Join(n: int, k: nat, ghost t0: Tables)
      requires n in t0.info && k < |t0.tried|
      requires View() == t0.(info := t0.info[n := t0.info[n].(refCount := 0)],
                             newCount := t0.newCount - 1, untried := Without(t0.untried, n))
      modifies this`info, this`triedCount, this`tried
      ensures View() == MovedIntoRoom(t0, n, k)
    {
      tried := tried[k := tried[k] + [n]];
      triedCount := triedCount + 1;
      info := info[n := info[n].(inTried := true)];
    }

    /** The second half of MakeTried: the bucket is full, so `n` takes over somebody's place. */
    method Evict(n: int, origin: nat, k: nat, ghost t0: Tables) returns (ghost draws: seq<nat>, ghost m: nat)
      requires Sized(t0) && Core(t0, {}) && n in t0.info && !t0.info[n].inTried
      requires origin < |t0.untried| && n in t0.untried[origin]
      requires k == TriedBucket(o, key, t0.info[n].service) && |t0.tried[k]| > 0
      requires View() == t0.(info := t0.info[n := t0.info[n].(refCount := 0)],
                             newCount := t0.newCount - 1, untried := Without(t0.untried, n))
      modifies this`info, this`tried, this`newCount, this`untried
      ensures Selected(t0, n, k, draws, m) && View() == AfterEviction(o, key, t0, n, k, origin, draws, m)
    {
      forall i | 0 <= i < |tried[k]| ensures tried[k][i] in info { InTriedBucket(t0, {}, k, i); }
      var pos;
      pos, m, draws := SelectTried(k);
      ghost var t1 := t0.(tried := tried);
      SelectedIsTried(t0, n, k, draws, m);
      Exchange(n, origin, k, pos, t1);
    }

    /** The evicted entry goes to a new bucket of its own if there is room, or else to the one `n` came
      * from. */
    method Exchange(n: int, origin: nat, k: nat, pos: nat, ghost t1: Tables)
      requires n in t1.info && k < |t1.tried| && pos < |t1.tried[k]|
      requires t1.tried[k][pos] in t1.info && t1.tried[k][pos] != n
      requires Sized(t1) && origin < |t1.untried|
      requires View() == t1.(info := t1.info[n := t1.info[n].(refCount := 0)],
                             newCount := t1.newCount - 1, untried := Without(t1.untried, n))
      modifies this`info, this`tried, this`newCount, this`untried
      ensures View() == Exchanged(t1, n, k, pos, BackTo(o, key, t1, n, t1.tried[k][pos], origin))
    {
      var v := tried[k][pos];
      var u := NewBucket(o, key, info[v].service, info[v].source);
      info := info[v := info[v].(refCount := 1, inTried := false)];
      if |untried[u]| < NEW_BUCKET_SIZE {
        untried := untried[u := untried[u] + {v}];
      } else {
        untried := untried[origin := untried[origin] + {v}];
      }
      newCount := newCount + 1;
      tried := tried[k := tried[k][pos := n]];
      info := info[n := info[n].(inTried := true)];
      UpdatesCommute(t1.info, n, v, t1.info[n].(refCount := 0),
                     t1.info[v].(refCount := 1, inTried := false), t1.info[n].(refCount := 0, inTried := true));
    }

    /** Marks an address as reachable, moving its entry to the tried table. From a state that passes
      * the debug check, the check passes again exactly when the time given was positive or the
      * address unknown. */
    method Good(addr: Service, time: int)
      requires Checked()
      modifies this
      ensures key == old(key) && Sized(View()) && Core(View(), {})
      ensures Checked() <==> (!old(Known(View(), addr)) || time > 0)
      ensures Sound(o, key, old(View())) ==> Sound(o, key, View())
      ensures !old(Known(View(), addr)) ==> View() == old(View())
      ensures old(Known(View(), addr)) ==> MarkedGood(old(View()), View(), addr, time)
      ensures old(Known(View(), addr)) ==>
        var n := addrIds[addr.net];
        && n in info && info[n].inTried && info[n].service == addr
        && info[n].lastSuccess == time && info[n].lastTry == time && info[n].attempts == 0
        && info[n].time == time % 0x1_0000_0000
      ensures old(Known(View(), addr) && info[addrIds[addr.net]].inTried) ==>
        View() == Touched(old(View()), addrIds[addr.net], time)
      ensures old(Known(View(), addr) && !info[addrIds[addr.net]].inTried) ==>
        exists origin, draws, m ::
          Promotion(o, key, Touched(old(View()), addrIds[addr.net], time), View(), addrIds[addr.net], origin, draws, m)
      ensures old(Valid() && Known(View(), addr)) ==> addrIds[addr.net] in tried[TriedBucket(o, key, addr)]
    {
      var found, n := Find(addr.net);
      if !found || info[n].service != addr { return; }
      ghost var t0 := View();
      info := info[n := info[n].(lastSuccess := time, lastTry := time, time := U32(time), attempts := 0)];
      ghost var t1 := View();
      assert t1 == Touched(t0, n, time);
      if info[n].inTried {
        GoodAlreadyTried(o, key, t0, addr, time);
        if Sound(o, key, t0) { TriedWhere(o, key, t1, n); }
        return;
      }
      StatisticsKeep(o, key, t0, n, Reached(t0.info[n], time));
      Promote(n);
      GoodPromoted(o, key, t0, View(), addr, time);
    }

    method Promote(n: int)
      requires Sized(View()) && Core(View(), {}) && n in info && !info[n].inTried
      modifies this`info, this`triedCount, this`tried, this`newCount, this`untried
      ensures exists origin, draws, m :: Promotion(o, key, old(View()), View(), n, origin, draws, m)
      ensures Sized(View()) && Core(View(), {}) && Promoted(o, key, old(View()), View(), n)
      ensures Sound(o, key, old(View())) ==> Sound(o, key, View())
    {
      var b := FindNewBucket(n);
      ghost var draws, m := MakeTried(n, b);
    }

    /** Some new bucket holding an entry that is not tried; the source's bail-out for "none" is dead. */
    method FindNewBucket(n: int) returns (b: nat)
      requires |untried| > 0 && Counted(View(), {}) && n in info && !info[n].inTried
      ensures b < |untried| && n in untried[b]
    {
      var start := GetRandInt(|untried|);
      b := 0;
      for j := 0 to |untried|
        invariant forall i :: 0 <= i < j ==> n !in untried[Visited(i, start, |untried|)]
      {
        var c := Visited(j, start, |untried|);
        if n in untried[c] { return c; }
      }
      NotNowhere(View(), n, start);
      assert false;
    }

    /** Records a connection attempt. */
    method Attempt(addr: Service, time: int)
      requires Checked()
      modifies this`info
      ensures Core(View(), {}) && (Checked() <==> (!old(Known(View(), addr)) || time >= 0))
      ensures Sound(o, key, old(View())) ==> Sound(o, key, View())
      ensures !old(Known(View(), addr)) ==> info == old(info)
      ensures old(Known(View(), addr)) ==>
        var n := addrIds[addr.net];
        n in old(info) && info == old(info)[n := old(info)[n].(lastTry := time, attempts := old(info)[n].attempts + 1)]
    {
      var found, n := Find(addr.net);
      if !found || info[n].service != addr { return; }
      var i := info[n].(lastTry := time, attempts := info[n].attempts + 1);
      Update(n, i);
      assert TimesOk(i) <==> time >= 0 by { assert TimesOk(old(info)[n]); }
    }

    /** Writes an entry whose standing is unchanged. */
    method Update(n: int, i: Info)
      requires Checked() && n in info
      requires i.service == info[n].service && i.refCount == info[n].refCount
      requires i.inTried == info[n].inTried && i.randomPos == info[n].randomPos
      modifies this`info
      ensures info == old(info)[n := i] && Core(View(), {}) && (Checked() <==> TimesOk(i))
      ensures Sound(o, key, old(View())) ==> Sound(o, key, View())
    {
      ghost var t0 := View();
      StatisticsKeep(o, key, t0, n, i);
      StatisticsTimes(info, n, i);
      info := info[n := i];
      assert View() == t0.(info := t0.info[n := i]);
    }

    /** Refreshes the time of an address we are connected to, at most every twenty minutes. */
    method Connected(addr: Service, time: int)
      requires Checked()
      modifies this`info
      ensures Checked()
      ensures Sound(o, key, old(View())) ==> Sound(o, key, View())
      ensures !old(Known(View(), addr)) ==> info == old(info)
      ensures old(Known(View(), addr)) ==>
        var n := addrIds[addr.net];
        && n in old(info)
        && info == if time - old(info)[n].time > 20 * 60
                   then old(info)[n := old(info)[n].(time := time % 0x1_0000_0000)] else old(info)
    {
      var found, n := Find(addr.net);
      if !found || info[n].service != addr { return; }
      if time - info[n].time > 20 * 60 {
        assert TimesOk(info[n]);
        Update(n, info[n].(time := U32(time)));
      }
    }

    /** Draws a random selection of known addresses, permuting the random order. */
    method GetAddr() returns (picked: seq<Info>)
      requires Checked()
      modifies this`info, this`random
      ensures Checked() && (Sound(o, key, old(View())) ==> Sound(o, key, View()))
      ensures SameButPositions(old(info), info) && multiset(random) == multiset(old(random))
      ensures |picked| == if 23 * |random| / 100 > 2500 then 2500 else 23 * |random| / 100
      ensures |picked| <= |random|
      ensures forall i :: 0 <= i < |picked| ==>
                random[i] in old(info) && SameButPosition(picked[i], old(info)[random[i]])
      ensures forall i, j :: 0 <= i < j < |picked| ==> picked[i].service.net != picked[j].service.net
    {
      var nodes := GETADDR_MAX_PCT * |random| / 100;
      if nodes > GETADDR_MAX { nodes := GETADDR_MAX; }
      picked := DrawAll(nodes);
      DistinctAddresses(View());
      forall i | 0 <= i < |picked| ensures SameButPosition(picked[i], info[random[i]]) {
        var m := random[i];
        assert info[m] == old(info)[m].(randomPos := info[m].randomPos);
      }
    }

    method DrawAll(nodes: nat) returns (picked: seq<Info>)
      requires Checked() && nodes <= |random|
      modifies this`info, this`random
      ensures Checked() && (Sound(o, key, old(View())) ==> Sound(o, key, View()))
      ensures SameButPositions(old(info), info) && multiset(random) == multiset(old(random))
      ensures |picked| == nodes <= |random| == |old(random)|
      ensures Picked(picked, random, old(info))
    {
      picked := [];
      ghost var info0 := info;
      for n := 0 to nodes
        invariant nodes <= |random| == |old(random)| && |picked| == n
        invariant Checked() && (Sound(o, key, old(View())) ==> Sound(o, key, View()))
        invariant SameButPositions(info0, info) && multiset(random) == multiset(old(random))
        invariant Picked(picked, random, info0)
      {
        ghost var before, orders := info, random;
        DrawNext(n);
        SameButPositionsTrans(info0, before, info);
        PickedNext(picked, orders, random, info0, info);
        picked := picked + [info[random[n]]];
      }
    }

    /** Swaps a random later position into place `n`. */
    method DrawNext(n: nat)
      requires Checked() && n < |random|
      modifies this`info, this`random
      ensures Checked() && SameButPositions(old(info), info)
      ensures Sound(o, key, old(View())) ==> Sound(o, key, View())
      ensures |random| == |old(random)| && forall i :: 0 <= i < n ==> random[i] == old(random)[i]
      ensures multiset(random) == multiset(old(random)) && random[n] in info
    {
      ghost var t0 := View();
      var r := GetRandInt(|random| - n);
      DrawKeeps(o, key, t0, n, r + n);
      SwapRandom(n, r + n);
    }

    /** Learns of an address from a peer. From a state that passes the debug check, the check passes
      * again exactly when the address leads to an entry, or the next id is unused and no entry has that
      * address. `now` is the clock at the first test, `clock` while a bucket is shrunk; `luck` is the random
      * number behind the stochastic test. */
    method Add(a: Address, source: NetAddr, penalty: int, now: int, clock: int -> int, luck: nat) returns (isNew: bool)
      requires Checked()
      modifies this
      ensures key == old(key) && Sized(View())
      ensures Checked() <==> AddPasses(o, old(View()), a)
      ensures isNew <==> o.routable(a.service) && !old(Found(View(), a.service.net))
      ensures !o.routable(a.service) ==> View() == old(View())
      ensures old(Found(View(), a.service.net)) && o.routable(a.service) ==>
                Announced(old(View()), View(), old(addrIds)[a.service.net], a, penalty, now)
      ensures old(Found(View(), a.service.net)) && o.routable(a.service) ==>
                exists v :: IsAnnouncement(o, key, old(View()), View(), old(addrIds)[a.service.net], a, source, penalty,
                                           now, luck, v)
      ensures isNew ==> IsAddition(o, key, old(View()), View(), a, source, penalty)
      ensures old(Valid()) ==> Valid() && Remembered(o, key, old(View()), View(), a, source, penalty)
    {
      if !o.routable(a.service) {
        NothingForgotten(View(), View(), idCount);
        return false;
      }
      var found, n := Find(a.service.net);
      if found {
        isNew := false;
        AddKnown(a, source, penalty, now, clock, luck, n);
      } else {
        isNew := true;
        AddUnknown(a, source, penalty, clock);
      }
    }

    method AddKnown(a: Address, source: NetAddr, penalty: int, now: int, clock: int -> int, luck: nat, n: int)
      requires Checked() && a.service.net in addrIds && addrIds[a.service.net] == n && n in info
      modifies this`info, this`addrIds, this`random, this`newCount, this`untried
      ensures Checked() && Announced(old(View()), View(), n, a, penalty, now)
      ensures exists v :: IsAnnouncement(o, key, old(View()), View(), n, a, source, penalty, now, luck, v)
      ensures old(Valid()) ==> Valid() && Remembered(o, key, old(View()), View(), a, source, penalty)
    {
      ghost var t0 := View();
      var go := Refresh(a, penalty, now, luck, n);
      ghost var t1 := View();
      CoreIsSafe(t1, {});
      ghost var b, v := NewBucket(o, key, t0.info[n].service, source), 0;
      if go { b, v := AddReference(n, source, clock); }
      AnnouncementKeeps(o, key, t0, t1, View(), n, a, source, penalty, now, go, b, v);
      assert IsAnnouncement(o, key, t0, View(), n, a, source, penalty, now, luck, v);
    }

    /** Gives a new entry one more bucket, unless it is in that bucket already. */
    method AddReference(n: int, source: NetAddr, clock: int -> int) returns (ghost b': nat, ghost v: int)
      requires Checked() && n in info && Safe(View())
      modifies this`info, this`addrIds, this`random, this`newCount, this`untried
      ensures b' == NewBucket(o, key, old(info)[n].service, source)
      ensures |old(untried[b'])| == NEW_BUCKET_SIZE ==> v in old(untried[b'])
      ensures View() == Referenced(old(View()), n, b', v)
    {
      var b := NewBucket(o, key, info[n].service, source);
      b', v := b, n;
      if n !in untried[b] { v := File(n, b, clock); }
    }

    method AddUnknown(a: Address, source: NetAddr, penalty: int, clock: int -> int)
      requires Checked() && !Found(View(), a.service.net)
      modifies this`idCount, this`info, this`addrIds, this`random, this`newCount, this`untried
      ensures Sized(View()) && IsAddition(o, key, old(View()), View(), a, source, penalty)
      ensures Checked() <==> old(idCount !in info && Unused(info, a.service.net))
      ensures old(Valid()) ==> Valid() && Remembered(o, key, old(View()), View(), a, source, penalty)
    {
      ghost var t0 := View();
      ghost var v := CreateAndFile(a, source, penalty, clock);
      AdditionChecks(o, key, t0, FirstInfo(t0, a, source, penalty), NewBucket(o, key, a.service, source), v);
      AdditionSized(t0, FirstInfo(t0, a, source, penalty), NewBucket(o, key, a.service, source), v);
      if Invariant(o, key, t0) { AdditionLearns(o, key, t0, a, source, penalty, v); }
    }

    method CreateAndFile(a: Address, source: NetAddr, penalty: int, clock: int -> int) returns (ghost v: int)
      requires Checked()
      modifies this`idCount, this`info, this`addrIds, this`random, this`newCount, this`untried
      ensures
        var t, b := old(View()), NewBucket(o, key, a.service, source);
        && (|t.untried[b]| == NEW_BUCKET_SIZE ==> v in t.untried[b])
        && View() == Addition(t, FirstInfo(t, a, source, penalty), b, v)
    {
      ghost var t0 := View();
      CreatedIsSafe(t0, FirstInfo(t0, a, source, penalty));
      var n := Create(a, source);
      info := info[n := info[n].(time := U32(Max(0, info[n].time - penalty)))];
      newCount := newCount + 1;
      assert View() == Created(t0, FirstInfo(t0, a, source, penalty));
      var b := NewBucket(o, key, info[n].service, source);
      v := n;
      if n !in untried[b] { v := File(n, b, clock); }
    }

    /** Makes an entry with no references yet. */
    method Create(a: Address, source: NetAddr) returns (n: int)
      modifies this`idCount, this`info, this`addrIds, this`random
      ensures n == old(idCount) && idCount == old(idCount) + 1
      ensures info == old(info)[n := Info(a.service, a.services, a.time, source, 0, 0, 0, 0, false, |old(random)|)]
      ensures addrIds == old(addrIds)[a.service.net := n]
      ensures random == old(random) + [n]
    {
      n := idCount;
      idCount := idCount + 1;
      info := info[n := NewInfo(a, source)];
      addrIds := addrIds[a.service.net := n];
      info := info[n := info[n].(randomPos := |random|)];
      random := random + [n];
    }

    /** Updates a known entry from an announcement; says whether to give it another bucket. */
    method Refresh(a: Address, penalty: int, now: int, luck: nat, n: int) returns (go: bool)
      requires Checked() && n in info
      modifies this`info
      ensures Checked() && info == old(info)[n := Refreshed(old(info)[n], a, penalty, now)]
      ensures 0 <= info[n].refCount <= NEW_BUCKETS_PER_ADDRESS
      ensures go <==> Earns(info[n], a, luck % Power2(info[n].refCount))
    {
      assert TimesOk(info[n]) && EntryOk(info[n]);
      var i := info[n];
      var interval := if now - a.time < 24 * 60 * 60 then 60 * 60 else 24 * 60 * 60;
      if a.time != 0 && (i.time == 0 || i.time < a.time - interval - penalty) {
        i := i.(time := U32(Max(0, a.time - penalty)));
      }
      i := i.(services := i.services + a.services);
      Update(n, i);
      if a.time == 0 || (i.time != 0 && a.time <= i.time) { return false; }
      if i.inTried { return false; }
      if i.refCount == NEW_BUCKETS_PER_ADDRESS { return false; }
      var factor := 1;
      for r := 0 to i.refCount
        invariant factor == Power2(r)
      {
        factor := factor * 2;
      }
      if factor > 1 && luck % factor != 0 { return false; }
      go := true;
    }

    /** Counts a reference of `n` and puts it into new bucket `b`, making room if necessary. */
    method File(n: int, b: nat, clock: int -> int) returns (ghost v: int)
      requires n in info && Safe(View()) && b < |untried|
      modifies this`info, this`addrIds, this`random, this`newCount, this`untried
      ensures Safe(Promised(old(View()), n)) && (|old(untried[b])| == NEW_BUCKET_SIZE ==> v in old(untried[b]))
      ensures View() == Filing(Promised(old(View()), n), n, b, v)
    {
      ghost var t0 := View();
      info := info[n := info[n].(refCount := info[n].refCount + 1)];
      assert View() == Promised(t0, n);
      v := 0;
      if |untried[b]| == NEW_BUCKET_SIZE {
        ghost var ids, draws;
        var r;
        r, v, ids, draws := ShrinkNew(b, clock);
      }
      untried := untried[b := untried[b] + {n}];
    }
  }
}
