/** The debug consistency check of the address manager, as the loops it is, shown to accept
  * exactly the consistent states (src/addrman.cpp, Check_).
  */
module AddrCheck {
  import opened Sets
  import opened AddrTables
  import opened AddrManager

  ghost function InSet(s: set<int>, n: int): nat { if n in s then 1 else 0 }
  ghost function InMap(m: map<int, int>, n: int): int { if n in m then m[n] else 0 }

  lemma {:induction false} CountTriedPrefix(tried: seq<seq<int>>, b: nat, n: int)
    requires b <= |tried|
    ensures CountTried(tried[..b], n) <= CountTried(tried, n)
  {
    if b == |tried| {
      assert tried[..b] == tried;
    } else {
      var shorter := tried[..|tried| - 1];
      assert shorter[..b] == tried[..b];
      CountTriedPrefix(shorter, b, n);
    }
  }

  lemma {:induction false} CountNewPrefix(untried: seq<set<int>>, b: nat, n: int)
    requires b <= |untried|
    ensures CountNew(untried[..b], n) <= CountNew(untried, n)
  {
    if b == |untried| {
      assert untried[..b] == untried;
    } else {
      var shorter := untried[..|untried| - 1];
      assert shorter[..b] == untried[..b];
      CountNewPrefix(shorter, b, n);
    }
  }

  /** Occurrences among the first `b` buckets and the first `i` places of the next one. */
  ghost function SeenTried(tried: seq<seq<int>>, b: nat, i: nat, n: int): nat
    requires b < |tried| && i <= |tried[b]|
  {
    CountTried(tried[..b], n) + multiset(tried[b][..i])[n]
  }

  lemma SeenTriedBound(tried: seq<seq<int>>, b: nat, i: nat, n: int)
    requires b < |tried| && i <= |tried[b]|
    ensures SeenTried(tried, b, i, n) <= CountTried(tried, n)
  {
    CountTriedPrefix(tried, b + 1, n);
    assert tried[..b + 1][..b] == tried[..b];
    assert tried[b] == tried[b][..i] + tried[b][i..];
  }

  ghost function SeenNew(untried: seq<set<int>>, b: nat, q: seq<int>, i: nat, n: int): nat
    requires b < |untried| && i <= |q|
  {
    CountNew(untried[..b], n) + (if n in q[..i] then 1 else 0)
  }

  lemma SeenNewBound(untried: seq<set<int>>, b: nat, q: seq<int>, i: nat, n: int)
    requires b < |untried| && i <= |q| && forall x :: x in q ==> x in untried[b]
    ensures SeenNew(untried, b, q, i, n) <= CountNew(untried, n)
  {
    CountNewPrefix(untried, b + 1, n);
    assert untried[..b + 1][..b] == untried[..b];
  }

  /** Crosses the tried ids off against the tried buckets. */
  method CrossOffTried(tried: seq<seq<int>>, ids: set<int>) returns (ok: bool, rest: set<int>)
    ensures ok && rest == {} <==> forall n :: CountTried(tried, n) == InSet(ids, n)
    ensures ok <==> forall n :: CountTried(tried, n) <= InSet(ids, n)
  {
    rest := ids;
    for b := 0 to |tried|
      invariant forall n :: CountTried(tried[..b], n) + InSet(rest, n) == InSet(ids, n)
    {
      for i := 0 to |tried[b]|
        invariant forall n :: SeenTried(tried, b, i, n) + InSet(rest, n) == InSet(ids, n)
      {
        var x := tried[b][i];
        assert tried[b][..i + 1] == tried[b][..i] + [x];
        if x !in rest {
          SeenTriedBound(tried, b, i + 1, x);
          assert CountTried(tried, x) > InSet(ids, x) by {
            assert SeenTried(tried, b, i, x) + InSet(rest, x) == InSet(ids, x);
          }
          return false, rest;
        }
        rest := rest - {x};
      }
      assert tried[..b + 1][..b] == tried[..b];
      assert tried[b][..|tried[b]|] == tried[b];
      assert forall n :: CountTried(tried[..b + 1], n) == SeenTried(tried, b, |tried[b]|, n);
    }
    assert tried[..|tried|] == tried;
    ok := true;
    if rest != {} {
      ghost var x := Member(rest);
      assert CountTried(tried, x) + InSet(rest, x) == InSet(ids, x);
    }
  }

  /** Counts the reference counts down against the new buckets. */
  method CountDownNew(untried: seq<set<int>>, counts: map<int, int>) returns (ok: bool, rest: map<int, int>)
    requires forall n :: n in counts ==> counts[n] > 0
    ensures ok && rest == map[] <==> forall n :: CountNew(untried, n) == InMap(counts, n)
    ensures ok <==> forall n :: CountNew(untried, n) <= InMap(counts, n)
  {
    rest := counts;
    for b := 0 to |untried|
      invariant forall n :: n in rest ==> rest[n] > 0
      invariant forall n :: CountNew(untried[..b], n) + InMap(rest, n) == InMap(counts, n)
    {
      var q := Ascending(untried[b]);
      for i := 0 to |q|
        invariant forall n :: n in rest ==> rest[n] > 0
        invariant forall n :: SeenNew(untried, b, q, i, n) + InMap(rest, n) == InMap(counts, n)
      {
        var x := q[i];
        assert q[..i + 1] == q[..i] + [x];
        assert x !in q[..i];
        if x !in rest {
          SeenNewBound(untried, b, q, i + 1, x);
          assert CountNew(untried, x) > InMap(counts, x) by {
            assert SeenNew(untried, b, q, i, x) + InMap(rest, x) == InMap(counts, x);
          }
          return false, rest;
        }
        ghost var before := rest;
        rest := rest[x := rest[x] - 1];
        if rest[x] == 0 { rest := rest - {x}; }
        forall n ensures SeenNew(untried, b, q, i + 1, n) + InMap(rest, n) == InMap(counts, n) {
          assert SeenNew(untried, b, q, i, n) + InMap(before, n) == InMap(counts, n);
        }
      }
      assert untried[..b + 1][..b] == untried[..b];
      assert q[..|q|] == q;
      assert forall n :: CountNew(untried[..b + 1], n) == SeenNew(untried, b, q, |q|, n);
    }
    assert untried[..|untried|] == untried;
    ok := true;
    if rest != map[] {
      ghost var x := Member(rest.Keys);
      assert CountNew(untried, x) + InMap(rest, x) == InMap(counts, x);
    }
  }

  /** Zero, or what a failing test of a single entry reports. */
  predicate EntryCode(r: int) { r == 0 || r == -14 || (-8 <= r < 0 && r != -7) }

  /** What the tests of an entry's own fields before the others leave: filed in one table, properly. */
  ghost predicate Filed(i: Info) { EntryOk(i) && (i.inTried ==> i.lastSuccess != 0) }

  /** The per-entry tests, in the order the source makes them: the first that fails is reported. */
  method CheckEntry(n: int, i: Info, id: int, random: seq<int>) returns (r: int)
    ensures r == 0 <==>
      && EntryOk(i) && TimesOk(i) && id == n
      && 0 <= i.randomPos < |random| && random[i.randomPos] == n
    ensures r == -1 <==> i.inTried && i.lastSuccess == 0
    ensures r == -2 <==> i.inTried && i.lastSuccess != 0 && i.refCount != 0
    ensures r == -3 <==> !i.inTried && !(0 <= i.refCount <= 4)
    ensures r == -4 <==> !i.inTried && i.refCount == 0
    ensures r == -5 <==> Filed(i) && id != n
    ensures r == -14 <==> Filed(i) && id == n && !(0 <= i.randomPos < |random| && random[i.randomPos] == n)
    ensures r == -6 || r == -8 ==> i.lastTry < 0 || i.lastSuccess < 0
    ensures r == -6 ==> i.lastTry < 0
    ensures r == -8 ==> i.lastTry >= 0
    ensures EntryCode(r)
  {
    if i.inTried {
      if i.lastSuccess == 0 { return -1; }
      if i.refCount != 0 { return -2; }
    } else {
      if i.refCount < 0 || i.refCount > NEW_BUCKETS_PER_ADDRESS { return -3; }
      if i.refCount == 0 { return -4; }
    }
    if id != n { return -5; }
    if i.randomPos < 0 || i.randomPos >= |random| || random[i.randomPos] != n { return -14; }
    if i.lastTry < 0 { return -6; }
    if i.lastSuccess < 0 { return -8; }
    return 0;
  }

  /** Whether an entry passes every per-entry test. */
  ghost predicate EntryPasses(t: Tables, n: int)
    requires n in t.info
  {
    var i := t.info[n];
    && EntryOk(i) && TimesOk(i) && LookupOrZero(t.addrIds, i.service.net) == n
    && 0 <= i.randomPos < |t.random| && t.random[i.randomPos] == n
  }

  lemma PassesSplit(t: Tables)
    ensures CheckPasses(t) <==>
      && |t.random| == t.triedCount + t.newCount
      && (forall n :: n in t.info ==> EntryPasses(t, n))
      && |TriedIds(t.info)| == t.triedCount && |NewIds(t.info)| == t.newCount
      && TriedCounts(t.info, t.tried) && NewCounts(t.info, t.untried, {})
  {
    if forall n :: n in t.info ==> EntryPasses(t, n) {
      forall n | n in t.info ensures TimesOk(t.info[n]) && EntryOk(t.info[n]) { assert EntryPasses(t, n); }
      forall n | n in t.info
        ensures 0 <= t.info[n].randomPos < |t.random| && t.random[t.info[n].randomPos] == n
        ensures LookupOrZero(t.addrIds, t.info[n].service.net) == n
      {
        assert EntryPasses(t, n);
      }
    }
  }

  /** Reading addresses has only added keys, each the address of an entry, with id 0. */
  ghost predicate Extended(info: map<int, Info>, before: map<NetAddr, int>, after: map<NetAddr, int>) {
    && (forall a :: a in before ==> a in after && after[a] == before[a])
    && forall a :: a in after && a !in before ==> after[a] == 0 && exists n :: n in info && info[n].service.net == a
  }

  /** The index with the address of entry 0 in it. */
  ghost function Completed(info: map<int, Info>, addrIds: map<NetAddr, int>): map<NetAddr, int> {
    if 0 in info && info[0].service.net !in addrIds then addrIds[info[0].service.net := 0] else addrIds
  }

  /** When every entry passes, only the address of entry 0 can have been missing. */
  lemma CompletedBy(t: Tables, after: map<NetAddr, int>)
    requires Extended(t.info, t.addrIds, after)
    requires forall n :: n in t.info ==> EntryPasses(t, n) && t.info[n].service.net in after
    ensures after == Completed(t.info, t.addrIds)
  {
    forall a | a in after && a !in t.addrIds ensures 0 in t.info && t.info[0].service.net == a {
      var n :| n in t.info && t.info[n].service.net == a;
      assert EntryPasses(t, n);
    }
    var c := Completed(t.info, t.addrIds);
    forall a ensures a in after <==> a in c { if a in c && a !in t.addrIds { assert EntryPasses(t, 0); } }
    Extensional(after.Keys, c.Keys);
  }

  lemma CompletedIsIndexed(t: Tables)
    requires CheckPasses(t)
    ensures Indexed(t.info, Completed(t.info, t.addrIds))
  {
  }

  /** Visits every entry, collecting the tried ids and the reference counts. Reading a missing
    * address key inserts it with id 0, as the source's map does. */
  method CheckEntries(am: AddrMan) returns (r: int, triedIds: set<int>, counts: map<int, int>)
    modifies am`addrIds
    ensures EntryCode(r) && (r == 0 <==> forall n :: n in am.info ==> EntryPasses(old(am.View()), n))
    ensures r == 0 ==> triedIds == TriedIds(am.info)
    ensures r == 0 ==> counts.Keys == NewIds(am.info) && forall n :: n in counts ==>
      counts[n] == am.info[n].refCount > 0
    ensures Extended(am.info, old(am.addrIds), am.addrIds)
    ensures r == 0 ==> am.addrIds == Completed(am.info, old(am.addrIds))
  {
    r, triedIds, counts := 0, {}, map[];
    ghost var t0 := am.View();
    var ids := Ascending(am.info.Keys);
    for k := 0 to |ids|
      invariant am.View() == t0.(addrIds := am.addrIds) && Extended(t0.info, t0.addrIds, am.addrIds)
      invariant Visited(t0, ids[..k], am.addrIds) && Collected(t0.info, ids[..k], triedIds, counts)
    {
      var n := ids[k];
      NextIsNew(ids, k);
      r := VisitEntry(am, n, t0, ids[..k]);
      if r != 0 { return; }
      CollectedNext(t0.info, ids[..k], triedIds, counts, n);
      if am.info[n].inTried {
        triedIds := triedIds + {n};
      } else {
        counts := counts[n := am.info[n].refCount];
      }
    }
    assert ids[..|ids|] == ids;
    AllVisited(t0, ids, triedIds, counts, am.addrIds);
  }

  method VisitEntry(am: AddrMan, n: int, ghost t0: Tables, ghost seen: seq<int>) returns (r: int)
    requires am.View() == t0.(addrIds := am.addrIds) && Extended(t0.info, t0.addrIds, am.addrIds)
    requires Visited(t0, seen, am.addrIds) && n in am.info
    modifies am`addrIds
    ensures am.View() == t0.(addrIds := am.addrIds) && Extended(t0.info, t0.addrIds, am.addrIds)
    ensures EntryCode(r) && (r == 0 <==> EntryPasses(t0, n))
    ensures r == 0 ==> Visited(t0, seen + [n], am.addrIds)
  {
    var i := am.info[n];
    ghost var before := am.addrIds;
    var id := Lookup(am, i.service.net);
    ReadsOn(t0, before, am.addrIds, seen, n);
    r := CheckEntry(n, i, id, am.random);
  }

  /** Reads the index as the source does, inserting a missing address with id 0. */
  method Lookup(am: AddrMan, a: NetAddr) returns (id: int)
    modifies am`addrIds
    ensures am.addrIds == if a in old(am.addrIds) then old(am.addrIds) else old(am.addrIds)[a := 0]
    ensures id == LookupOrZero(old(am.addrIds), a)
  {
    if a !in am.addrIds { am.addrIds := am.addrIds[a := 0]; }
    id := am.addrIds[a];
  }

  /** The entries visited pass, and their addresses are in the index. */
  ghost predicate Visited(t: Tables, seen: seq<int>, after: map<NetAddr, int>) {
    forall j :: 0 <= j < |seen| ==>
      seen[j] in t.info && EntryPasses(t, seen[j]) && t.info[seen[j]].service.net in after
  }

  ghost predicate Collected(info: map<int, Info>, seen: seq<int>, triedIds: set<int>, counts: map<int, int>) {
    && (forall n :: n in triedIds <==> n in seen && n in info && info[n].inTried)
    && (forall n :: n in counts <==> n in seen && n in info && !info[n].inTried)
    && (forall n :: n in counts ==> n in info && counts[n] == info[n].refCount > 0)
  }

  lemma CollectedNext(info: map<int, Info>, seen: seq<int>, triedIds: set<int>, counts: map<int, int>, n: int)
    requires Collected(info, seen, triedIds, counts) && n in info && n !in seen && EntryOk(info[n])
    ensures
      if info[n].inTried then Collected(info, seen + [n], triedIds + {n}, counts)
      else Collected(info, seen + [n], triedIds, counts[n := info[n].refCount])
  {
  }

  lemma ReadsOn(t: Tables, before: map<NetAddr, int>, after: map<NetAddr, int>, seen: seq<int>, n: int)
    requires Extended(t.info, t.addrIds, before) && Visited(t, seen, before) && n in t.info
    requires
      var a := t.info[n].service.net;
      after == if a in before then before else before[a := 0]
    ensures Extended(t.info, t.addrIds, after)
    ensures LookupOrZero(before, t.info[n].service.net) == LookupOrZero(t.addrIds, t.info[n].service.net)
    ensures EntryPasses(t, n) ==> Visited(t, seen + [n], after)
  {
  }

  lemma AllVisited(t: Tables, ids: seq<int>, triedIds: set<int>, counts: map<int, int>, after: map<NetAddr, int>)
    requires (forall n :: n in ids <==> n in t.info.Keys) && Extended(t.info, t.addrIds, after)
    requires Visited(t, ids, after) && Collected(t.info, ids, triedIds, counts)
    ensures forall n :: n in t.info ==> EntryPasses(t, n)
    ensures triedIds == TriedIds(t.info) && counts.Keys == NewIds(t.info) && after == Completed(t.info, t.addrIds)
  {
    forall n | n in t.info ensures EntryPasses(t, n) && t.info[n].service.net in after { assert n in ids; }
    CompletedBy(t, after);
    forall n ensures n in triedIds <==> n in TriedIds(t.info) { assert n in t.info <==> n in ids; }
    forall n ensures n in counts.Keys <==> n in NewIds(t.info) { assert n in t.info <==> n in ids; }
    Extensional(triedIds, TriedIds(t.info));
    Extensional(counts.Keys, NewIds(t.info));
  }

  /** The whole check: 0 exactly on the states the invariant describes. */
  method Check(am: AddrMan) returns (r: int)
    modifies am`addrIds
    ensures r == 0 <==> CheckPasses(old(am.View()))
    ensures r == -7 <==> |am.random| != am.triedCount + am.newCount
    ensures r == -9 <==> EntriesAgree(old(am.View())) && |TriedIds(am.info)| != am.triedCount
    ensures r == -10 <==>
      EntriesAgree(old(am.View())) && |TriedIds(am.info)| == am.triedCount && |NewIds(am.info)| != am.newCount
    ensures r == -11 <==> SizesAgree(old(am.View())) && !NoneTwice(am.View())
    ensures r == -12 <==> SizesAgree(old(am.View())) && NoneTwice(am.View()) && !NoneExtra(am.View())
    ensures r == -13 <==>
      SizesAgree(old(am.View())) && NoneTwice(am.View()) && NoneExtra(am.View()) && !TriedCounts(am.info, am.tried)
    ensures r == -15 <==>
      SizesAgree(old(am.View())) && TriedCounts(am.info, am.tried) && NoneExtra(am.View())
      && !NewCounts(am.info, am.untried, {})
    ensures Extended(am.info, old(am.addrIds), am.addrIds)
    ensures r == 0 ==> am.addrIds == Completed(am.info, old(am.addrIds)) && Indexed(am.info, am.addrIds)
  {
    ghost var t0 := am.View();
    if CheckPasses(t0) { CompletedIsIndexed(t0); }
    PassesSplit(t0);
    if |am.random| != am.triedCount + am.newCount { return -7; }
    var triedIds, counts;
    r, triedIds, counts := CheckEntries(am);
    if r != 0 { return; }
    if |triedIds| != am.triedCount { return -9; }
    if |counts.Keys| != am.newCount { return -10; }
    var ok, restTried := CrossOffTried(am.tried, triedIds);
    TriedAgrees(t0, triedIds);
    if !ok { return -11; }
    var ok', restNew := CountDownNew(am.untried, counts);
    NewAgrees(t0, counts);
    if !ok' { return -12; }
    if restTried != {} { return -13; }
    if restNew != map[] { return -15; }
    return 0;
  }

  /** The total and every single entry are in order. */
  ghost predicate EntriesAgree(t: Tables) {
    |t.random| == t.triedCount + t.newCount && forall n :: n in t.info ==> EntryPasses(t, n)
  }

  ghost predicate SizesAgree(t: Tables) {
    EntriesAgree(t) && |TriedIds(t.info)| == t.triedCount && |NewIds(t.info)| == t.newCount
  }

  /** No id is in the tried buckets more often than it should be. */
  ghost predicate NoneTwice(t: Tables) { forall n :: CountTried(t.tried, n) <= TriedShare(t.info, n) }

  /** No id is in more new buckets than it has references. */
  ghost predicate NoneExtra(t: Tables) { forall n :: CountNew(t.untried, n) <= NewShare(t.info, n) }

  lemma TriedAgrees(t: Tables, ids: set<int>)
    requires ids == TriedIds(t.info)
    ensures TriedCounts(t.info, t.tried) <==> forall n :: CountTried(t.tried, n) == InSet(ids, n)
    ensures NoneTwice(t) <==> forall n :: CountTried(t.tried, n) <= InSet(ids, n)
  {
    assert forall n :: InSet(ids, n) == TriedShare(t.info, n);
  }

  lemma NewAgrees(t: Tables, counts: map<int, int>)
    requires counts.Keys == NewIds(t.info) && forall n :: n in counts ==> counts[n] == t.info[n].refCount
    ensures NewCounts(t.info, t.untried, {}) <==> forall n :: CountNew(t.untried, n) == InMap(counts, n)
    ensures NoneExtra(t) <==> forall n :: CountNew(t.untried, n) <= InMap(counts, n)
  {
    forall n ensures InMap(counts, n) == NewShare(t.info, n) {
      assert n in counts.Keys <==> n in NewIds(t.info);
    }
  }
}
