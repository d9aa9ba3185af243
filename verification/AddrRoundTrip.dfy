/** Writing a consistent address manager and reading it back loses nothing but ids, orders and
  * the memory-only time of the last attempt (src/addrman.h, the serializer).
  */
module AddrRoundTrip {
  import opened Sets
  import opened AddrTables
  import opened AddrManager
  import opened AddrDisk
  import AddrCheck

  /** An entry as it comes back from disk, at place `pos`. */
  ghost function Restored(i: Info, pos: int, refs: int): Info {
    i.(lastTry := 0, randomPos := pos, refCount := refs)
  }

  /** `t'` is `t` with entry `order[k]` renamed to id `k`: same entries, same new-bucket membership
    * and reference counts, same tried-bucket membership. */
  ghost predicate SameUnderRenaming(t: Tables, t': Tables, order: seq<int>) {
    && Enumerates(order, t.info.Keys)
    && (forall k :: k in t'.info <==> 0 <= k < |order|)
    && (forall k :: 0 <= k < |order| ==>
          order[k] in t.info && t'.info[k] == Restored(t.info[order[k]], k, t.info[order[k]].refCount))
    && t'.newCount == t.newCount && t'.triedCount == t.triedCount
    && |t'.untried| == |t.untried| && |t'.tried| == |t.tried|
    && (forall b, k :: 0 <= b < |t.untried| && 0 <= k < |order| ==> (k in t'.untried[b] <==> order[k] in t.untried[b]))
    && (forall b, k :: 0 <= b < |t.tried| && 0 <= k < |order| ==> (k in t'.tried[b] <==> order[k] in t.tried[b]))
    && t'.addrIds.Keys == t.addrIds.Keys
  }

  // The hypotheses of everything below: `s` was written from the consistent tables `t`.
  ghost predicate Saved(o: Oracle, t: Tables, s: Stream, newOrder: seq<int>, triedOrder: seq<int>) {
    Invariant(o, s.key, t) && Saves(s.key, t, s, newOrder, triedOrder)
  }

  /** The first `k` entries are back. */
  ghost predicate Prefix(t: Tables, order: seq<int>, t': Tables, k: nat)
    requires k <= |order| && forall j :: 0 <= j < |order| ==> order[j] in t.info
  {
    && (forall n :: n in t'.info <==> 0 <= n < k)
    && (forall n :: 0 <= n < k ==> t'.info[n] == Restored(t.info[order[n]], n, 0))
    && |t'.random| == k && (forall j :: 0 <= j < k ==> t'.random[j] == j)
    && (forall n :: 0 <= n < k ==> t.info[order[n]].service.net in t'.addrIds
                                   && t'.addrIds[t.info[order[n]].service.net] == n)
    && (forall a :: a in t'.addrIds ==> 0 <= t'.addrIds[a] < k && t.info[order[t'.addrIds[a]]].service.net == a)
  }

  lemma OrderFacts(o: Oracle, t: Tables, s: Stream, newOrder: seq<int>, triedOrder: seq<int>)
    requires Saved(o, t, s, newOrder, triedOrder)
    ensures Enumerates(newOrder + triedOrder, t.info.Keys)
    ensures forall j :: 0 <= j < |newOrder + triedOrder| ==> (newOrder + triedOrder)[j] in t.info
    ensures forall j :: 0 <= j < |newOrder| ==> !t.info[newOrder[j]].inTried
    ensures forall j :: 0 <= j < |triedOrder| ==> t.info[triedOrder[j]].inTried
  {
    var order := newOrder + triedOrder;
    EnumeratedIn(newOrder, NewIds(t.info));
    EnumeratedIn(triedOrder, TriedIds(t.info));
    forall n ensures n in order <==> n in t.info.Keys {
      assert n in order <==> n in newOrder || n in triedOrder;
      assert n in t.info.Keys <==> n in NewIds(t.info) || n in TriedIds(t.info);
    }
    IdsSplit(t.info);
  }

  lemma EnumeratedIn(q: seq<int>, ids: set<int>)
    requires Enumerates(q, ids)
    ensures forall j :: 0 <= j < |q| ==> q[j] in ids
  {
    forall j | 0 <= j < |q| ensures q[j] in ids { assert q[j] in q; }
  }

  /** Different entries have different addresses, so the index never overwrites. */
  lemma AppendPrefix(o: Oracle, key: seq<nat>, t: Tables, order: seq<int>, t': Tables, k: nat, i: Info)
    requires Structured(o, key, t, {}) && Distinct(order) && k < |order|
    requires forall j :: 0 <= j < |order| ==> order[j] in t.info
    requires Prefix(t, order, t', k)
    requires i.(randomPos := k) == Restored(t.info[order[k]], k, 0)
    ensures Prefix(t, order, Appended(t', k, i), k + 1)
  {
    var net := t.info[order[k]].service.net;
    assert i.service.net == net;
    forall n | 0 <= n < k ensures t.info[order[n]].service.net != net {
      assert t.addrIds[t.info[order[n]].service.net] == order[n];
      assert t.addrIds[net] == order[k];
    }
  }

  lemma {:induction false} NewPhase(o: Oracle, t: Tables, s: Stream, newOrder: seq<int>, triedOrder: seq<int>, k: nat)
    requires Saved(o, t, s, newOrder, triedOrder) && k <= |newOrder|
    requires forall j :: 0 <= j < |newOrder + triedOrder| ==> (newOrder + triedOrder)[j] in t.info
    ensures Prefix(t, newOrder + triedOrder, AfterNew(s, k), k)
  {
    if k > 0 {
      NewPhase(o, t, s, newOrder, triedOrder, k - 1);
      NewStep(o, t, s, newOrder, triedOrder, AfterNew(s, k - 1), k - 1);
    }
  }

  /** Reading new entries touches nothing else. */
  lemma {:induction false} NewShape(s: Stream, k: nat)
    requires WellFormed(s) && k <= |s.newInfos|
    ensures AfterNew(s, k) ==
      Cleared(s).(info := AfterNew(s, k).info, addrIds := AfterNew(s, k).addrIds, random := AfterNew(s, k).random)
  {
    if k > 0 { NewShape(s, k - 1); }
  }

  lemma NewStep(o: Oracle, t: Tables, s: Stream, newOrder: seq<int>, triedOrder: seq<int>, t': Tables, k: nat)
    requires Saved(o, t, s, newOrder, triedOrder) && k < |newOrder|
    requires forall j :: 0 <= j < |newOrder + triedOrder| ==> (newOrder + triedOrder)[j] in t.info
    requires Prefix(t, newOrder + triedOrder, t', k)
    ensures Prefix(t, newOrder + triedOrder, Appended(t', k, FromDisk(s.newInfos[k])), k + 1)
  {
    var order := newOrder + triedOrder;
    OrderFacts(o, t, s, newOrder, triedOrder);
    assert order[k] == newOrder[k];
    AppendPrefix(o, s.key, t, order, t', k, FromDisk(s.newInfos[k]));
  }

  // ---------------------------------------------------------------- tried entries

  ghost predicate Increasing(q: seq<int>) { forall i, j :: 0 <= i < j < |q| ==> q[i] < q[j] }

  /** The tried buckets after `k` tried entries: entry `base + j` is in its own bucket and there only. */
  ghost predicate TriedBack(o: Oracle, key: seq<nat>, t: Tables, order: seq<int>, t': Tables, base: nat, k: nat)
    requires base + k <= |order| && forall j :: 0 <= j < |order| ==> order[j] in t.info
  {
    && |t'.tried| == TRIED_BUCKET_COUNT
    && (forall b :: 0 <= b < |t'.tried| ==> Increasing(t'.tried[b]))
    && InPlace(o, key, t, order, t'.tried, base, k)
    && Present(o, key, t, order, t'.tried, base, k)
    && forall n :: CountTried(t'.tried, n) == if base <= n < base + k then 1 else 0
  }

  ghost predicate Present(o: Oracle, key: seq<nat>, t: Tables, order: seq<int>, tried: seq<seq<int>>, base: nat, k: nat)
    requires base + k <= |order| && forall j :: 0 <= j < |order| ==> order[j] in t.info
    requires |tried| == TRIED_BUCKET_COUNT
  {
    forall x :: base <= x < base + k ==> x in tried[TriedBucket(o, key, t.info[order[x]].service)]
  }

  ghost predicate InPlace(o: Oracle, key: seq<nat>, t: Tables, order: seq<int>, tried: seq<seq<int>>, base: nat, k: nat)
    requires base + k <= |order| && forall j :: 0 <= j < |order| ==> order[j] in t.info
  {
    forall b, i :: 0 <= b < |tried| && 0 <= i < |tried[b]| ==>
      base <= tried[b][i] < base + k && TriedBucket(o, key, t.info[order[tried[b][i]]].service) == b
  }

  /** Distinct places that all name members of `target` other than `extra` are fewer than `target`. */
  lemma RoomFor(xs: seq<int>, order: seq<int>, target: seq<int>, extra: int)
    requires Increasing(xs) && Distinct(order) && extra in target
    requires forall i :: 0 <= i < |xs| ==> 0 <= xs[i] < |order| && order[xs[i]] in target && order[xs[i]] != extra
    ensures |xs| < |target|
  {
    ImageCard(xs, order);
    ImageWithin(xs, order, Elements(target) - {extra});
    SubsetCard(Image(xs, order), Elements(target) - {extra});
    ElementsCard(target);
  }

  ghost function Image(xs: seq<int>, order: seq<int>): set<int>
    requires forall i :: 0 <= i < |xs| ==> 0 <= xs[i] < |order|
  {
    if xs == [] then {} else Image(xs[..|xs| - 1], order) + {order[xs[|xs| - 1]]}
  }

  lemma {:induction false} ImageWithin(xs: seq<int>, order: seq<int>, s: set<int>)
    requires forall i :: 0 <= i < |xs| ==> 0 <= xs[i] < |order| && order[xs[i]] in s
    ensures Image(xs, order) <= s
  {
    if xs != [] { ImageWithin(xs[..|xs| - 1], order, s); }
  }

  lemma {:induction false} ImageMember(xs: seq<int>, order: seq<int>, m: int) returns (i: nat)
    requires forall i :: 0 <= i < |xs| ==> 0 <= xs[i] < |order|
    requires m in Image(xs, order)
    ensures i < |xs| && order[xs[i]] == m
  {
    var last := |xs| - 1;
    if order[xs[last]] == m {
      i := last;
    } else {
      i := ImageMember(xs[..last], order, m);
    }
  }

  lemma {:induction false} ImageCard(xs: seq<int>, order: seq<int>)
    requires Increasing(xs) && Distinct(order) && forall i :: 0 <= i < |xs| ==> 0 <= xs[i] < |order|
    ensures |Image(xs, order)| == |xs|
  {
    if xs != [] {
      var rest, last := xs[..|xs| - 1], xs[|xs| - 1];
      ImageCard(rest, order);
      if order[last] in Image(rest, order) {
        var i := ImageMember(rest, order, order[last]);
      }
    }
  }

  /** The bucket of the next tried entry still has room: nothing is lost. */
  lemma NextHasRoom(o: Oracle, key: seq<nat>, t: Tables, order: seq<int>, t': Tables, base: nat, k: nat)
    requires Structured(o, key, t, {}) && Distinct(order) && base + k < |order|
    requires forall j :: 0 <= j < |order| ==> order[j] in t.info
    requires forall j :: base <= j < |order| ==> t.info[order[j]].inTried
    requires TriedBack(o, key, t, order, t', base, k)
    ensures |t'.tried[TriedBucket(o, key, t.info[order[base + k]].service)]| < TRIED_BUCKET_SIZE
  {
    var n := order[base + k];
    var b := TriedBucket(o, key, t.info[n].service);
    TriedMember(o, key, t, b, n);
    var xs := t'.tried[b];
    forall i | 0 <= i < |xs| ensures 0 <= xs[i] < |order| && order[xs[i]] in t.tried[b] && order[xs[i]] != n {
      TriedMember(o, key, t, b, order[xs[i]]);
    }
    RoomFor(xs, order, t.tried[b], n);
  }

  lemma TriedBackNext(o: Oracle, key: seq<nat>, t: Tables, order: seq<int>, t': Tables, t'': Tables, base: nat, k: nat)
    requires base + k < |order| && forall j :: 0 <= j < |order| ==> order[j] in t.info
    requires TriedBack(o, key, t, order, t', base, k)
    requires
      var b := TriedBucket(o, key, t.info[order[base + k]].service);
      t''.tried == t'.tried[b := t'.tried[b] + [base + k]]
    ensures TriedBack(o, key, t, order, t'', base, k + 1)
  {
    var b := TriedBucket(o, key, t.info[order[base + k]].service);
    AppendInPlace(o, key, t, order, t'.tried, base, k);
    AppendPresent(o, key, t, order, t'.tried, t''.tried, base, k);
    AppendCounts(t'.tried, t''.tried, b, base, k);
  }

  lemma AppendPresent(o: Oracle, key: seq<nat>, t: Tables, order: seq<int>, tried: seq<seq<int>>,
                      tried': seq<seq<int>>, base: nat, k: nat)
    requires base + k < |order| && forall j :: 0 <= j < |order| ==> order[j] in t.info
    requires |tried| == TRIED_BUCKET_COUNT && Present(o, key, t, order, tried, base, k)
    requires
      var b := TriedBucket(o, key, t.info[order[base + k]].service);
      tried' == tried[b := tried[b] + [base + k]]
    ensures Present(o, key, t, order, tried', base, k + 1)
  {
    var b := TriedBucket(o, key, t.info[order[base + k]].service);
    AppendMembers(tried, b, base + k);
    forall x | base <= x < base + k + 1 ensures x in tried'[TriedBucket(o, key, t.info[order[x]].service)] {
      if x < base + k { assert x in tried[TriedBucket(o, key, t.info[order[x]].service)]; }
    }
  }

  lemma AppendInPlace(o: Oracle, key: seq<nat>, t: Tables, order: seq<int>, tried: seq<seq<int>>, base: nat, k: nat)
    requires base + k < |order| && forall j :: 0 <= j < |order| ==> order[j] in t.info
    requires |tried| == TRIED_BUCKET_COUNT && InPlace(o, key, t, order, tried, base, k)
    requires forall b :: 0 <= b < |tried| ==> Increasing(tried[b])
    ensures
      var b := TriedBucket(o, key, t.info[order[base + k]].service);
      var tried' := tried[b := tried[b] + [base + k]];
      && InPlace(o, key, t, order, tried', base, k + 1)
      && forall b :: 0 <= b < |tried'| ==> Increasing(tried'[b])
  {
    var b := TriedBucket(o, key, t.info[order[base + k]].service);
    var tried' := tried[b := tried[b] + [base + k]];
    forall c, i | 0 <= c < |tried'| && 0 <= i < |tried'[c]|
      ensures base <= tried'[c][i] < base + k + 1
      ensures TriedBucket(o, key, t.info[order[tried'[c][i]]].service) == c
    {
      if c == b && i == |tried[b]| {
      } else {
        assert tried'[c][i] == tried[c][i];
      }
    }
    forall i | 0 <= i < |tried[b]| ensures tried[b][i] < base + k {}
  }

  lemma AppendCounts(tried: seq<seq<int>>, tried': seq<seq<int>>, b: nat, base: nat, k: nat)
    requires b < |tried| && tried' == tried[b := tried[b] + [base + k]]
    requires forall n :: CountTried(tried, n) == if base <= n < base + k then 1 else 0
    ensures forall n :: CountTried(tried', n) == if base <= n < base + k + 1 then 1 else 0
  {
    forall n ensures CountTried(tried', n) == if base <= n < base + k + 1 then 1 else 0 {
      CountTriedUpdate(tried, b, tried[b] + [base + k], n);
      assert CountTried(tried, n) == if base <= n < base + k then 1 else 0;
    }
  }

  lemma AppendMembers(tried: seq<seq<int>>, b: nat, n: int)
    requires b < |tried|
    ensures n in tried[b := tried[b] + [n]][b]
    ensures forall c, x :: 0 <= c < |tried| && x in tried[c] ==> x in tried[b := tried[b] + [n]][c]
  {
    var tried' := tried[b := tried[b] + [n]];
    assert tried'[b][|tried[b]|] == n;
    forall c, x | 0 <= c < |tried| && x in tried[c] ensures x in tried'[c] {
      var i :| 0 <= i < |tried[c]| && tried[c][i] == x;
      assert tried'[c][i] == x;
    }
  }

  /** What holds after `k` tried entries. */
  ghost predicate TriedDone(o: Oracle, t: Tables, s: Stream, newOrder: seq<int>, triedOrder: seq<int>, r: (Tables,
                            nat), k: nat)
    requires k <= |triedOrder|
    requires forall j :: 0 <= j < |newOrder + triedOrder| ==> (newOrder + triedOrder)[j] in t.info
  {
    && r.1 == 0
    && Prefix(t, newOrder + triedOrder, r.0, |newOrder| + k)
    && TriedBack(o, s.key, t, newOrder + triedOrder, r.0, |newOrder|, k)
    && r.0 == Cleared(s).(idCount := |newOrder| + k, info := r.0.info, addrIds := r.0.addrIds,
      random := r.0.random, tried := r.0.tried)
  }

  lemma {:induction false} TriedPhase(o: Oracle, t: Tables, s: Stream, newOrder: seq<int>, triedOrder: seq<int>, k: nat)
    requires Saved(o, t, s, newOrder, triedOrder) && k <= |triedOrder|
    requires forall j :: 0 <= j < |newOrder + triedOrder| ==> (newOrder + triedOrder)[j] in t.info
    ensures TriedDone(o, t, s, newOrder, triedOrder, AllTriedRead(o, s.key, AllNewRead(s), s.triedInfos[..k]), k)
  {
    if k == 0 {
      TriedStart(o, t, s, newOrder, triedOrder);
      assert s.triedInfos[..0] == [];
    } else {
      TriedPhase(o, t, s, newOrder, triedOrder, k - 1);
      var r := AllTriedRead(o, s.key, AllNewRead(s), s.triedInfos[..k - 1]);
      assert r == (r.0, 0);
      TriedStep(o, t, s, newOrder, triedOrder, r.0, k - 1);
      assert s.triedInfos[..k][..k - 1] == s.triedInfos[..k - 1];
    }
  }

  lemma TriedStart(o: Oracle, t: Tables, s: Stream, newOrder: seq<int>, triedOrder: seq<int>)
    requires Saved(o, t, s, newOrder, triedOrder)
    requires forall j :: 0 <= j < |newOrder + triedOrder| ==> (newOrder + triedOrder)[j] in t.info
    ensures TriedDone(o, t, s, newOrder, triedOrder, (AllNewRead(s), 0), 0)
  {
    NewPhase(o, t, s, newOrder, triedOrder, |newOrder|);
    NewShape(s, |newOrder|);
    forall n ensures CountTried(AllNewRead(s).tried, n) == 0 { NoneTried(AllNewRead(s).tried, n); }
  }

  lemma TriedStep(o: Oracle, t: Tables, s: Stream, newOrder: seq<int>, triedOrder: seq<int>, t': Tables, k: nat)
    requires Saved(o, t, s, newOrder, triedOrder) && k < |triedOrder|
    requires forall j :: 0 <= j < |newOrder + triedOrder| ==> (newOrder + triedOrder)[j] in t.info
    requires TriedDone(o, t, s, newOrder, triedOrder, (t', 0), k)
    ensures TriedDone(o, t, s, newOrder, triedOrder, TriedRead(o, s.key, t', 0, s.triedInfos[k]), k + 1)
  {
    NextTried(o, t, s, newOrder, triedOrder, k);
    TriedEntryBack(o, s.key, t, newOrder + triedOrder, t', |newOrder|, k, s.triedInfos[k]);
  }

  lemma NextTried(o: Oracle, t: Tables, s: Stream, newOrder: seq<int>, triedOrder: seq<int>, k: nat)
    requires Saved(o, t, s, newOrder, triedOrder) && k < |triedOrder|
    ensures
      var order, base := newOrder + triedOrder, |newOrder|;
      && Distinct(order) && (forall j :: base <= j < |order| ==> order[j] in t.info && t.info[order[j]].inTried)
      && s.triedInfos[k] == ToDisk(t.info[order[base + k]])
  {
    OrderFacts(o, t, s, newOrder, triedOrder);
    SecondPart(t.info, newOrder, triedOrder);
  }

  lemma SecondPart(info: map<int, Info>, first: seq<int>, second: seq<int>)
    requires forall j :: 0 <= j < |second| ==> second[j] in info && info[second[j]].inTried
    ensures
      var order := first + second;
      && (forall j :: 0 <= j < |second| ==> order[|first| + j] == second[j])
      && forall j :: |first| <= j < |order| ==> order[j] in info && info[order[j]].inTried
  {
    var order := first + second;
    forall j | |first| <= j < |order| ensures order[j] in info && info[order[j]].inTried {
      assert order[j] == second[j - |first|];
    }
  }

  lemma TriedEntryBack(o: Oracle, key: seq<nat>, t: Tables, order: seq<int>, t': Tables, base: nat, k: nat, d: DiskInfo)
    requires Structured(o, key, t, {}) && Distinct(order) && base + k < |order| && t'.idCount == base + k
    requires forall j :: 0 <= j < |order| ==> order[j] in t.info
    requires forall j :: base <= j < |order| ==> t.info[order[j]].inTried
    requires Prefix(t, order, t', base + k) && TriedBack(o, key, t, order, t', base, k)
    requires d == ToDisk(t.info[order[base + k]])
    ensures
      var r := TriedRead(o, key, t', 0, d);
      && r.1 == 0 && Prefix(t, order, r.0, base + k + 1) && TriedBack(o, key, t, order, r.0, base, k + 1)
      && r.0 == t'.(idCount := base + k + 1, info := r.0.info, addrIds := r.0.addrIds, random := r.0.random,
                    tried := r.0.tried)
  {
    NextHasRoom(o, key, t, order, t', base, k);
    var i := FromDisk(d).(inTried := true);
    var b := TriedBucket(o, key, i.service);
    RoomMeansRead(o, key, t', d, i, b);
    Returning(t.info[order[base + k]], d, base + k);
    AppendPrefix(o, key, t, order, t', base + k, i);
    AppendedTried(o, key, t, order, t', base, k, i, b);
  }

  /** An entry that finds room is appended, and its id put at the end of its bucket. */
  lemma RoomMeansRead(o: Oracle, key: seq<nat>, t': Tables, d: DiskInfo, i: Info, b: nat)
    requires |t'.tried| == TRIED_BUCKET_COUNT && i == FromDisk(d).(inTried := true)
    requires b == TriedBucket(o, key, i.service) && |t'.tried[b]| < TRIED_BUCKET_SIZE
    ensures TriedRead(o, key, t', 0, d) == (WithTried(Appended(t', t'.idCount, i), b, t'.idCount), 0)
  {
  }

  /** `t'` with id `n` at the end of tried bucket `b`. */
  function WithTried(t': Tables, b: nat, n: int): Tables
    requires b < |t'.tried|
  {
    t'.(tried := t'.tried[b := t'.tried[b] + [n]], idCount := n + 1)
  }

  lemma Returning(entry: Info, d: DiskInfo, n: int)
    requires d == ToDisk(entry) && entry.inTried
    ensures FromDisk(d).(inTried := true).(randomPos := n) == Restored(entry, n, 0)
  {
  }

  lemma AppendedTried(o: Oracle, key: seq<nat>, t: Tables, order: seq<int>, t': Tables, base: nat, k: nat, i: Info,
                      b: nat)
    requires base + k < |order| && forall j :: 0 <= j < |order| ==> order[j] in t.info
    requires TriedBack(o, key, t, order, t', base, k) && b == TriedBucket(o, key, t.info[order[base + k]].service)
    requires Prefix(t, order, Appended(t', base + k, i), base + k + 1)
    ensures
      var r := WithTried(Appended(t', base + k, i), b, base + k);
      Prefix(t, order, r, base + k + 1) && TriedBack(o, key, t, order, r, base, k + 1)
  {
    var app := Appended(t', base + k, i);
    PrefixOnly(t, order, app, WithTried(app, b, base + k), base + k + 1);
    TriedBackNext(o, key, t, order, t', WithTried(app, b, base + k), base, k);
  }

  lemma PrefixOnly(t: Tables, order: seq<int>, t': Tables, t'': Tables, k: nat)
    requires k <= |order| && forall j :: 0 <= j < |order| ==> order[j] in t.info
    requires Prefix(t, order, t', k)
    requires t''.info == t'.info && t''.random == t'.random && t''.addrIds == t'.addrIds
    ensures Prefix(t, order, t'', k)
  {
  }

  // ---------------------------------------------------------------- new buckets

  /** After `b` new buckets and the first `i` indexes of the next. */
  ghost predicate BucketsBack(t: Tables, s: Stream, order: seq<int>, t0: Tables, t': Tables, b: nat, xs: seq<int>)
    requires b <= |t.untried| == |s.buckets| && forall j :: 0 <= j < |order| ==> order[j] in t.info
  {
    && t' == t0.(info := t'.info, untried := t'.untried)
    && (forall n :: n in t'.info <==> 0 <= n < |order|)
    && (forall n :: 0 <= n < |order| ==>
          t'.info[n] == Restored(t.info[order[n]], n, CountNew(t.untried[..b], order[n]) + (if n in xs then 1 else 0)))
    && |t'.untried| == |t.untried|
    && (forall c :: 0 <= c < b ==> t'.untried[c] == Elements(s.buckets[c]))
    && (forall c :: b < c < |t'.untried| ==> t'.untried[c] == {})
    && (b < |t'.untried| ==> t'.untried[b] == Elements(xs))
  }

  lemma {:induction false} BucketPhase(o: Oracle, t: Tables, s: Stream, newOrder: seq<int>, triedOrder: seq<int>,
                                       t0: Tables, t1: Tables, b: nat, xs: seq<int>)
    requires Saved(o, t, s, newOrder, triedOrder) && b < |s.buckets| && xs <= s.buckets[b]
    requires forall j :: 0 <= j < |newOrder + triedOrder| ==> (newOrder + triedOrder)[j] in t.info
    requires BucketsBack(t, s, newOrder + triedOrder, t0, t1, b, [])
    ensures BucketsBack(t, s, newOrder + triedOrder, t0, BucketRead(t1, b, xs), b, xs)
    decreases |xs|
  {
    var order := newOrder + triedOrder;
    if xs != [] {
      var rest, x := xs[..|xs| - 1], xs[|xs| - 1];
      assert xs == rest + [x];
      BucketPhase(o, t, s, newOrder, triedOrder, t0, t1, b, rest);
      var all := s.buckets[b];
      assert all[|xs| - 1] == x && x in all;
      assert x !in rest;
      assert Lists(all, newOrder, t.untried[b]);
      assert order[x] == newOrder[x];
      MoreToCome(t, b, order[x]);
      assert EntryOk(t.info[order[x]]);
      assert Elements(xs) == Elements(rest) + {x};
      BucketStep(t, s, order, t0, BucketRead(t1, b, rest), b, rest, x);
    }
  }

  lemma BucketStep(t: Tables, s: Stream, order: seq<int>, t0: Tables, t': Tables, b: nat, rest: seq<int>, x: int)
    requires b < |t.untried| == |s.buckets| && forall j :: 0 <= j < |order| ==> order[j] in t.info
    requires BucketsBack(t, s, order, t0, t', b, rest)
    requires 0 <= x < |order| && x !in rest && CountNew(t.untried[..b], order[x]) < NEW_BUCKETS_PER_ADDRESS
    ensures BucketsBack(t, s, order, t0, IndexRead(t', b, x), b, rest + [x])
  {
    var t'' := IndexRead(t', b, x);
    assert Elements(rest + [x]) == Elements(rest) + {x};
    assert t'.info[x].refCount == CountNew(t.untried[..b], order[x]);
    forall n | 0 <= n < |order|
      ensures t''.info[n] == Restored(t.info[order[n]], n,
                CountNew(t.untried[..b], order[n]) + (if n in rest + [x] then 1 else 0))
    {
      assert t'.info[n] ==
        Restored(t.info[order[n]], n, CountNew(t.untried[..b], order[n]) + (if n in rest then 1 else 0));
    }
  }

  /** A member of bucket `b` has not used up its references before that bucket. */
  lemma MoreToCome(t: Tables, b: nat, n: int)
    requires Counted(t, {}) && b < |t.untried| && n in t.untried[b]
    ensures n in t.info && CountNew(t.untried[..b], n) < NEW_BUCKETS_PER_ADDRESS
  {
    assert t.untried[..b + 1][..b] == t.untried[..b];
    AddrCheck.CountNewPrefix(t.untried, b + 1, n);
    assert NewShare(t.info, n) == CountNew(t.untried, n);
    assert EntryOk(t.info[n]);
  }

  /** Written indexes and bucket members are the same thing. */
  lemma ListedIffMember(o: Oracle, t: Tables, s: Stream, newOrder: seq<int>, triedOrder: seq<int>, b: nat, n: int)
    requires Saved(o, t, s, newOrder, triedOrder) && b < |s.buckets| && 0 <= n < |newOrder + triedOrder|
    ensures n in s.buckets[b] <==> (newOrder + triedOrder)[n] in t.untried[b]
  {
    OrderFacts(o, t, s, newOrder, triedOrder);
    assert Lists(s.buckets[b], newOrder, t.untried[b]);
    MemberListed(s.buckets[b], newOrder, triedOrder, t.untried[b], n);
  }

  lemma MemberListed(xs: seq<int>, first: seq<int>, second: seq<int>, bucket: set<int>, n: int)
    requires Lists(xs, first, bucket) && Distinct(first + second) && 0 <= n < |first + second|
    ensures n in xs <==> (first + second)[n] in bucket
  {
    var order := first + second;
    if order[n] in bucket {
      var x :| x in xs && 0 <= x < |first| && first[x] == order[n];
      assert order[x] == order[n];
    }
    if n in xs { assert order[n] == first[n]; }
  }

  lemma {:induction false} BucketsPhase(o: Oracle, t: Tables, s: Stream, newOrder: seq<int>, triedOrder: seq<int>,
                                        t0: Tables, b: nat)
    requires Saved(o, t, s, newOrder, triedOrder) && b <= |s.buckets| == |t0.untried|
    requires forall j :: 0 <= j < |newOrder + triedOrder| ==> (newOrder + triedOrder)[j] in t.info
    requires BucketsBack(t, s, newOrder + triedOrder, t0, t0, 0, [])
    ensures BucketsBack(t, s, newOrder + triedOrder, t0, BucketsRead(t0, s.buckets[..b]), b, [])
  {
    if b == 0 {
      assert s.buckets[..0] == [];
    } else {
      BucketsPhase(o, t, s, newOrder, triedOrder, t0, b - 1);
      var t1 := BucketsRead(t0, s.buckets[..b - 1]);
      BucketsReadNext(t0, s.buckets, b - 1);
      BucketPhase(o, t, s, newOrder, triedOrder, t0, t1, b - 1, s.buckets[b - 1]);
      NextBucket(o, t, s, newOrder, triedOrder, t0, BucketRead(t1, b - 1, s.buckets[b - 1]), b - 1);
    }
  }

  lemma BucketsReadNext(t0: Tables, buckets: seq<seq<int>>, b: nat)
    requires b < |buckets| <= |t0.untried|
    ensures BucketsRead(t0, buckets[..b + 1]) == BucketRead(BucketsRead(t0, buckets[..b]), b, buckets[b])
  {
    assert buckets[..b + 1][..b] == buckets[..b];
  }

  lemma NextBucket(o: Oracle, t: Tables, s: Stream, newOrder: seq<int>, triedOrder: seq<int>, t0: Tables, t': Tables,
                   b: nat)
    requires Saved(o, t, s, newOrder, triedOrder) && b < |s.buckets|
    requires forall j :: 0 <= j < |newOrder + triedOrder| ==> (newOrder + triedOrder)[j] in t.info
    requires BucketsBack(t, s, newOrder + triedOrder, t0, t', b, s.buckets[b])
    ensures BucketsBack(t, s, newOrder + triedOrder, t0, t', b + 1, [])
  {
    var order := newOrder + triedOrder;
    forall n | 0 <= n < |order|
      ensures t'.info[n] == Restored(t.info[order[n]], n, CountNew(t.untried[..b + 1], order[n]))
    {
      ListedIffMember(o, t, s, newOrder, triedOrder, b, n);
      assert t.untried[..b + 1][..b] == t.untried[..b];
    }
    assert Elements([]) == {};
  }

  // ---------------------------------------------------------------- the whole round trip

  /** Loading what was written: nothing lost, consistent again, and equal up to renaming. */
  lemma RoundTrip(o: Oracle, t: Tables, s: Stream, newOrder: seq<int>, triedOrder: seq<int>)
    requires Saved(o, t, s, newOrder, triedOrder)
    ensures Loaded(o, s).1 == 0
    ensures SameUnderRenaming(t, Loaded(o, s).0, newOrder + triedOrder)
    ensures Invariant(o, s.key, Loaded(o, s).0) && CheckPasses(Loaded(o, s).0)
  {
    var t0 := TriedFinish(o, t, s, newOrder, triedOrder);
    BucketsFinish(o, t, s, newOrder, triedOrder, t0);
    FinalRenaming(o, t, s, newOrder, triedOrder, t0, Loaded(o, s).0);
    FinalInvariant(o, t, s, newOrder, triedOrder, t0, Loaded(o, s).0);
  }

  lemma TriedFinish(o: Oracle, t: Tables, s: Stream, newOrder: seq<int>, triedOrder: seq<int>) returns (t0: Tables)
    requires Saved(o, t, s, newOrder, triedOrder)
    ensures forall j :: 0 <= j < |newOrder + triedOrder| ==> (newOrder + triedOrder)[j] in t.info
    ensures TriedDone(o, t, s, newOrder, triedOrder, (t0, 0), |triedOrder|)
    ensures |t0.untried| == |s.buckets| && Loaded(o, s) == (BucketsRead(t0, s.buckets), 0)
  {
    OrderFacts(o, t, s, newOrder, triedOrder);
    TriedPhase(o, t, s, newOrder, triedOrder, |triedOrder|);
    assert s.triedInfos[..|triedOrder|] == s.triedInfos;
    var r := AllTriedRead(o, s.key, AllNewRead(s), s.triedInfos);
    t0 := r.0;
    LoadedFromTried(o, s, t0);
  }

  lemma LoadedFromTried(o: Oracle, s: Stream, t0: Tables)
    requires WellFormed(s) && AllTriedRead(o, s.key, AllNewRead(s), s.triedInfos) == (t0, 0) &&
      |t0.untried| == |s.buckets|
    ensures Loaded(o, s) == (BucketsRead(t0, s.buckets), 0)
  {
    assert t0.(triedCount := t0.triedCount - 0) == t0;
  }

  lemma BucketsFinish(o: Oracle, t: Tables, s: Stream, newOrder: seq<int>, triedOrder: seq<int>, t0: Tables)
    requires Saved(o, t, s, newOrder, triedOrder)
    requires forall j :: 0 <= j < |newOrder + triedOrder| ==> (newOrder + triedOrder)[j] in t.info
    requires TriedDone(o, t, s, newOrder, triedOrder, (t0, 0), |triedOrder|)
    ensures AllBack(o, t, s, newOrder, triedOrder, t0, BucketsRead(t0, s.buckets))
  {
    var order := newOrder + triedOrder;
    assert Elements([]) == {};
    assert t.untried[..0] == [];
    assert BucketsBack(t, s, order, t0, t0, 0, []);
    BucketsPhase(o, t, s, newOrder, triedOrder, t0, |s.buckets|);
    assert s.buckets[..|s.buckets|] == s.buckets;
  }

  ghost predicate AllBack(o: Oracle, t: Tables, s: Stream, newOrder: seq<int>, triedOrder: seq<int>, t0: Tables,
                          t': Tables) {
    && Saved(o, t, s, newOrder, triedOrder)
    && (forall j :: 0 <= j < |newOrder + triedOrder| ==> (newOrder + triedOrder)[j] in t.info)
    && Prefix(t, newOrder + triedOrder, t0, |newOrder + triedOrder|)
    && TriedBack(o, s.key, t, newOrder + triedOrder, t0, |newOrder|, |triedOrder|)
    && t0 == Cleared(s).(idCount := |newOrder + triedOrder|, info := t0.info, addrIds := t0.addrIds,
      random := t0.random, tried := t0.tried)
    && BucketsBack(t, s, newOrder + triedOrder, t0, t', |s.buckets|, [])
  }

  lemma FinalEntries(o: Oracle, t: Tables, s: Stream, newOrder: seq<int>, triedOrder: seq<int>, t0: Tables, t': Tables)
    requires AllBack(o, t, s, newOrder, triedOrder, t0, t')
    ensures forall n :: 0 <= n < |newOrder + triedOrder| ==>
      t'.info[n] == Restored(t.info[(newOrder + triedOrder)[n]], n, t.info[(newOrder + triedOrder)[n]].refCount)
  {
    var order := newOrder + triedOrder;
    assert t.untried[..|t.untried|] == t.untried;
    forall n | 0 <= n < |order| ensures t'.info[n] == Restored(t.info[order[n]], n, t.info[order[n]].refCount) {
      assert NewShare(t.info, order[n]) == CountNew(t.untried, order[n]);
      assert EntryOk(t.info[order[n]]);
    }
  }

  lemma FinalRenaming(o: Oracle, t: Tables, s: Stream, newOrder: seq<int>, triedOrder: seq<int>, t0: Tables, t': Tables)
    requires AllBack(o, t, s, newOrder, triedOrder, t0, t')
    ensures SameUnderRenaming(t, t', newOrder + triedOrder)
  {
    var order := newOrder + triedOrder;
    OrderFacts(o, t, s, newOrder, triedOrder);
    FinalEntries(o, t, s, newOrder, triedOrder, t0, t');
    forall b, k | 0 <= b < |t.untried| && 0 <= k < |order| ensures k in t'.untried[b] <==> order[k] in t.untried[b] {
      ListedIffMember(o, t, s, newOrder, triedOrder, b, k);
      assert t'.untried[b] == Elements(s.buckets[b]);
    }
    forall b, k | 0 <= b < |t.tried| && 0 <= k < |order| ensures k in t'.tried[b] <==> order[k] in t.tried[b] {
      TriedIffMember(o, t, s, newOrder, triedOrder, t0, b, k);
    }
    SameAddresses(o, t, s, order, t0);
  }

  lemma TriedIffMember(o: Oracle, t: Tables, s: Stream, newOrder: seq<int>, triedOrder: seq<int>, t0: Tables, b: nat,
                       k: nat)
    requires Saved(o, t, s, newOrder, triedOrder) && b < |t.tried| && k < |newOrder + triedOrder|
    requires forall j :: 0 <= j < |newOrder + triedOrder| ==> (newOrder + triedOrder)[j] in t.info
    requires TriedBack(o, s.key, t, newOrder + triedOrder, t0, |newOrder|, |triedOrder|)
    ensures k in t0.tried[b] <==> (newOrder + triedOrder)[k] in t.tried[b]
  {
    var order := newOrder + triedOrder;
    OrderFacts(o, t, s, newOrder, triedOrder);
    TriedMember(o, s.key, t, b, order[k]);
    if k in t0.tried[b] {
      var i :| 0 <= i < |t0.tried[b]| && t0.tried[b][i] == k;
    }
  }

  lemma TriedMember(o: Oracle, key: seq<nat>, t: Tables, b: nat, n: int)
    requires Structured(o, key, t, {}) && b < |t.tried| && n in t.info
    ensures n in t.tried[b] <==> t.info[n].inTried && TriedBucket(o, key, t.info[n].service) == b
  {
    assert CountTried(t.tried, n) == TriedShare(t.info, n);
    if n in t.tried[b] {
      var i :| 0 <= i < |t.tried[b]| && t.tried[b][i] == n;
      CountTriedPositive(t.tried, b, i);
    }
    if t.info[n].inTried {
      var c, i := CountTriedWitness(t.tried, n);
    }
  }

  lemma SameAddresses(o: Oracle, t: Tables, s: Stream, order: seq<int>, t0: Tables)
    requires Structured(o, s.key, t, {}) && Enumerates(order, t.info.Keys)
    requires forall j :: 0 <= j < |order| ==> order[j] in t.info
    requires Prefix(t, order, t0, |order|)
    ensures t0.addrIds.Keys == t.addrIds.Keys
  {
    forall a ensures a in t0.addrIds.Keys <==> a in t.addrIds.Keys {
      if a in t.addrIds {
        var n := t.addrIds[a];
        assert n in t.info.Keys;
        assert n in order;
        var j :| 0 <= j < |order| && order[j] == n;
      }
      if a in t0.addrIds {
        assert order[t0.addrIds[a]] in t.info;
      }
    }
    Extensional(t0.addrIds.Keys, t.addrIds.Keys);
  }

  lemma FinalInvariant(o: Oracle, t: Tables, s: Stream, newOrder: seq<int>, triedOrder: seq<int>, t0: Tables,
                       t': Tables)
    requires AllBack(o, t, s, newOrder, triedOrder, t0, t')
    ensures Invariant(o, s.key, t') && CheckPasses(t')
  {
    FinalEntries(o, t, s, newOrder, triedOrder, t0, t');
    OrderFacts(o, t, s, newOrder, triedOrder);
    FinalCounts(o, t, s, newOrder, triedOrder, t0, t');
    FinalShape(o, t, s, newOrder, triedOrder, t0, t');
    InvariantImpliesCheck(o, s.key, t');
  }

  lemma FinalShape(o: Oracle, t: Tables, s: Stream, newOrder: seq<int>, triedOrder: seq<int>, t0: Tables, t': Tables)
    requires AllBack(o, t, s, newOrder, triedOrder, t0, t')
    ensures Indexed(t'.info, t'.addrIds) && IndexExact(t'.info, t'.addrIds)
    ensures IdsBelow(t'.info, t'.idCount) && t'.idCount >= 0
    ensures TriedFits(t'.tried) && NewFits(t'.untried)
    ensures Placed(o, s.key, t'.info, t'.tried)
    ensures Times(t'.info)
  {
    FinalEntries(o, t, s, newOrder, triedOrder, t0, t');
    FinalFits(o, t, s, newOrder, triedOrder, t0, t');
    FinalPlaced(o, t, s, newOrder, triedOrder, t0, t');
  }

  lemma FinalPlaced(o: Oracle, t: Tables, s: Stream, newOrder: seq<int>, triedOrder: seq<int>, t0: Tables, t': Tables)
    requires AllBack(o, t, s, newOrder, triedOrder, t0, t')
    ensures Placed(o, s.key, t'.info, t'.tried) && Times(t'.info)
  {
    var order := newOrder + triedOrder;
    FinalEntries(o, t, s, newOrder, triedOrder, t0, t');
    OrderFacts(o, t, s, newOrder, triedOrder);
    forall b, i | 0 <= b < |t'.tried| && 0 <= i < |t'.tried[b]|
      ensures t'.tried[b][i] in t'.info && TriedBucket(o, s.key, t'.info[t'.tried[b][i]].service) == b
    {
      var x := t'.tried[b][i];
      assert t'.info[x].service == t.info[order[x]].service;
    }
    forall n | n in t'.info ensures TimesOk(t'.info[n]) { assert TimesOk(t.info[order[n]]); }
  }

  lemma FinalFits(o: Oracle, t: Tables, s: Stream, newOrder: seq<int>, triedOrder: seq<int>, t0: Tables, t': Tables)
    requires AllBack(o, t, s, newOrder, triedOrder, t0, t')
    ensures TriedFits(t'.tried) && NewFits(t'.untried)
  {
    var order := newOrder + triedOrder;
    OrderFacts(o, t, s, newOrder, triedOrder);
    forall b | 0 <= b < |t'.untried| ensures |t'.untried[b]| <= NEW_BUCKET_SIZE {
      assert Lists(s.buckets[b], newOrder, t.untried[b]);
      ElementsCard(s.buckets[b]);
    }
    forall b | 0 <= b < |t'.tried| ensures |t'.tried[b]| <= TRIED_BUCKET_SIZE {
      BucketFits(o, s.key, t, order, t', |newOrder|, |triedOrder|, b);
    }
  }

  lemma BucketFits(o: Oracle, key: seq<nat>, t: Tables, order: seq<int>, t': Tables, base: nat, k: nat, b: nat)
    requires Structured(o, key, t, {}) && Distinct(order) && base + k == |order| && b < |t'.tried|
    requires forall j :: 0 <= j < |order| ==> order[j] in t.info
    requires forall j :: base <= j < |order| ==> t.info[order[j]].inTried
    requires TriedBack(o, key, t, order, t', base, k)
    ensures |t'.tried[b]| <= TRIED_BUCKET_SIZE
  {
    var xs := t'.tried[b];
    forall i | 0 <= i < |xs| ensures 0 <= xs[i] < |order| && order[xs[i]] in t.tried[b] {
      TriedMember(o, key, t, b, order[xs[i]]);
    }
    ImageCard(xs, order);
    ImageWithin(xs, order, Elements(t.tried[b]));
    SubsetCard(Image(xs, order), Elements(t.tried[b]));
    ElementsCard(t.tried[b]);
  }

  lemma FinalCounts(o: Oracle, t: Tables, s: Stream, newOrder: seq<int>, triedOrder: seq<int>, t0: Tables, t': Tables)
    requires AllBack(o, t, s, newOrder, triedOrder, t0, t')
    ensures Counted(t', {})
  {
    FinalEntries(o, t, s, newOrder, triedOrder, t0, t');
    FinalSizes(o, t, s, newOrder, triedOrder, t0, t');
    FinalEntriesOk(o, t, s, newOrder, triedOrder, t0, t');
    FinalTriedCounts(o, t, s, newOrder, triedOrder, t0, t');
    forall n ensures CountNew(t'.untried, n) == NewShare(t'.info, n) {
      FinalNewCount(o, t, s, newOrder, triedOrder, t0, t', n);
    }
    assert NewCounts(t'.info, t'.untried, {});
  }

  lemma FinalEntriesOk(o: Oracle, t: Tables, s: Stream, newOrder: seq<int>, triedOrder: seq<int>, t0: Tables,
                       t': Tables)
    requires AllBack(o, t, s, newOrder, triedOrder, t0, t')
    ensures Entries(t'.info)
  {
    var order := newOrder + triedOrder;
    FinalEntries(o, t, s, newOrder, triedOrder, t0, t');
    forall n | n in t'.info ensures EntryOk(t'.info[n]) { assert EntryOk(t.info[order[n]]); }
  }

  lemma FinalTriedCounts(o: Oracle, t: Tables, s: Stream, newOrder: seq<int>, triedOrder: seq<int>, t0: Tables,
                         t': Tables)
    requires AllBack(o, t, s, newOrder, triedOrder, t0, t')
    ensures TriedCounts(t'.info, t'.tried)
  {
    FinalEntries(o, t, s, newOrder, triedOrder, t0, t');
    FinalSplit(o, t, s, newOrder, triedOrder, t0, t');
    forall n ensures CountTried(t'.tried, n) == TriedShare(t'.info, n) {
      assert CountTried(t0.tried, n) == if |newOrder| <= n < |newOrder| + |triedOrder| then 1 else 0;
    }
  }

  lemma FinalSplit(o: Oracle, t: Tables, s: Stream, newOrder: seq<int>, triedOrder: seq<int>, t0: Tables, t': Tables)
    requires AllBack(o, t, s, newOrder, triedOrder, t0, t')
    ensures forall n :: 0 <= n < |newOrder + triedOrder| ==> (t'.info[n].inTried <==> n >= |newOrder|)
  {
    FinalEntries(o, t, s, newOrder, triedOrder, t0, t');
    OrderFacts(o, t, s, newOrder, triedOrder);
    SplitOrders(t.info, t'.info, newOrder, triedOrder);
  }

  lemma FinalSizes(o: Oracle, t: Tables, s: Stream, newOrder: seq<int>, triedOrder: seq<int>, t0: Tables, t': Tables)
    requires AllBack(o, t, s, newOrder, triedOrder, t0, t')
    ensures |NewIds(t'.info)| == |newOrder| && |TriedIds(t'.info)| == |triedOrder|
  {
    FinalSplit(o, t, s, newOrder, triedOrder, t0, t');
    SplitAt(t'.info, |newOrder|, |newOrder + triedOrder|);
  }

  lemma SplitOrders(info: map<int, Info>, info': map<int, Info>, first: seq<int>, second: seq<int>)
    requires forall j :: 0 <= j < |first| ==> first[j] in info && !info[first[j]].inTried
    requires forall j :: 0 <= j < |second| ==> second[j] in info && info[second[j]].inTried
    requires forall n :: 0 <= n < |first + second| ==>
      n in info' && (first + second)[n] in info && info'[n].inTried == info[(first + second)[n]].inTried
    ensures forall n :: 0 <= n < |first + second| ==> (info'[n].inTried <==> n >= |first|)
  {
    var order := first + second;
    forall n | 0 <= n < |order| ensures info'[n].inTried <==> n >= |first| {
      if n < |first| { assert order[n] == first[n]; } else { assert order[n] == second[n - |first|]; }
    }
  }

  lemma SplitAt(info: map<int, Info>, k: nat, m: nat)
    requires k <= m && forall n :: n in info <==> 0 <= n < m
    requires forall n :: 0 <= n < m ==> (info[n].inTried <==> n >= k)
    ensures |NewIds(info)| == k && |TriedIds(info)| == m - k
  {
    RangeFacts(k);
    RangeFacts(m);
    forall n ensures n in NewIds(info) <==> n in Range(k) { assert n in info <==> 0 <= n < m; }
    Extensional(NewIds(info), Range(k));
    forall n ensures n in info.Keys <==> n in Range(m) { assert n in info <==> 0 <= n < m; }
    Extensional(info.Keys, Range(m));
    IdsSplit(info);
  }

  lemma FinalNewCount(o: Oracle, t: Tables, s: Stream, newOrder: seq<int>, triedOrder: seq<int>, t0: Tables,
                      t': Tables, n: int)
    requires AllBack(o, t, s, newOrder, triedOrder, t0, t')
    ensures CountNew(t'.untried, n) == NewShare(t'.info, n)
  {
    if 0 <= n < |newOrder + triedOrder| {
      FinalListed(o, t, s, newOrder, triedOrder, t0, t', n);
    } else {
      forall b | 0 <= b < |t'.untried| ensures n !in t'.untried[b] {
        assert Lists(s.buckets[b], newOrder, t.untried[b]);
        assert t'.untried[b] == Elements(s.buckets[b]);
      }
      if CountNew(t'.untried, n) > 0 { var b := CountNewWitness(t'.untried, n); }
    }
  }

  lemma FinalListed(o: Oracle, t: Tables, s: Stream, newOrder: seq<int>, triedOrder: seq<int>, t0: Tables,
                    t': Tables, n: int)
    requires AllBack(o, t, s, newOrder, triedOrder, t0, t') && 0 <= n < |newOrder + triedOrder|
    ensures CountNew(t'.untried, n) == NewShare(t'.info, n)
  {
    var order := newOrder + triedOrder;
    FinalEntries(o, t, s, newOrder, triedOrder, t0, t');
    forall b | 0 <= b < |t.untried| ensures n in t'.untried[b] <==> order[n] in t.untried[b] {
      ListedIffMember(o, t, s, newOrder, triedOrder, b, n);
      assert t'.untried[b] == Elements(s.buckets[b]);
    }
    SameOccurrences(t'.untried, n, t.untried, order[n]);
    assert NewShare(t.info, order[n]) == CountNew(t.untried, order[n]);
  }

  lemma {:induction false} SameOccurrences(a: seq<set<int>>, n: int, b: seq<set<int>>, m: int)
    requires |a| == |b| && forall i :: 0 <= i < |a| ==> (n in a[i] <==> m in b[i])
    ensures CountNew(a, n) == CountNew(b, m)
  {
    if a != [] { SameOccurrences(a[..|a| - 1], n, b[..|b| - 1], m); }
  }

  /** Writing one manager and reading the stream into another. */
  method SaveAndLoad(am: AddrMan, back: AddrMan) returns (lost: nat, ghost order: seq<int>)
    requires am.Valid() && am != back && back.o == am.o
    modifies back
    ensures lost == 0 && back.Valid() && back.key == am.key
    ensures SameUnderRenaming(am.View(), back.View(), order)
    ensures am.View() == old(am.View())
  {
    var s := Write(am);
    ghost var newOrder, triedOrder :| Saves(am.key, am.View(), s, newOrder, triedOrder);
    RoundTrip(am.o, am.View(), s, newOrder, triedOrder);
    lost := Read(back, s);
    order := newOrder + triedOrder;
  }
}
