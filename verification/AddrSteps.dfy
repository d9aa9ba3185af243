/** What each elementary change of the address tables keeps, stated on values. Each step keeps what the
  * debug check looks at (`Core`) on the strength of that alone, and keeps the rest (`Sound`) as well. */
module AddrSteps {
  import opened Sets
  import opened Numbers
  import opened AddrTables

  /** Two entry tables that differ in random positions only. */
  ghost predicate SameButPositions(info: map<int, Info>, info': map<int, Info>) {
    && info'.Keys == info.Keys
    && forall n :: n in info ==> info'[n] == info[n].(randomPos := info'[n].randomPos)
  }

  ghost predicate SameButPosition(i: Info, j: Info) { i == j.(randomPos := i.randomPos) }

  lemma SameButPositionsTrans(a: map<int, Info>, b: map<int, Info>, c: map<int, Info>)
    requires SameButPositions(a, b) && SameButPositions(b, c)
    ensures SameButPositions(a, c)
  {
    forall n | n in a ensures c[n] == a[n].(randomPos := c[n].randomPos) {
      assert b[n] == a[n].(randomPos := b[n].randomPos);
    }
  }

  lemma SameTimes(info: map<int, Info>, info': map<int, Info>)
    requires SameButPositions(info, info')
    ensures Times(info) <==> Times(info')
  {
    forall n | n in info ensures TimesOk(info[n]) <==> TimesOk(info'[n]) {}
  }

  // ---------------------------------------------------------------- statistics and positions

  /** Two entry tables that agree on addresses, tables and reference counts. */
  ghost predicate SameStanding(info: map<int, Info>, info': map<int, Info>) {
    && info'.Keys == info.Keys
    && forall n :: n in info ==>
         && info'[n].service == info[n].service
         && info'[n].refCount == info[n].refCount && info'[n].inTried == info[n].inTried
  }

  lemma SameShares(info: map<int, Info>, info': map<int, Info>)
    requires SameStanding(info, info')
    ensures TriedIds(info') == TriedIds(info) && NewIds(info') == NewIds(info)
    ensures forall n :: TriedShare(info', n) == TriedShare(info, n)
    ensures forall n :: NewShare(info', n) == NewShare(info, n)
  {
    forall n ensures TriedShare(info', n) == TriedShare(info, n) && NewShare(info', n) == NewShare(info, n) {
      assert n in info <==> n in info';
    }
    forall n ensures n in TriedIds(info') <==> n in TriedIds(info) { assert n in info <==> n in info'; }
    forall n ensures n in NewIds(info') <==> n in NewIds(info) { assert n in info <==> n in info'; }
    Extensional(TriedIds(info'), TriedIds(info));
    Extensional(NewIds(info'), NewIds(info));
  }

  /** Changing statistics and positions, as long as the positions are right. */
  lemma StandingKeeps(o: Oracle, key: seq<nat>, t: Tables, t': Tables, owed: set<int>)
    requires Core(t, owed) && SameStanding(t.info, t'.info)
    requires t' == t.(info := t'.info, random := t'.random)
    requires |t'.random| == |t.random| && Positions(t'.info, t'.random)
    ensures Core(t', owed)
    ensures Sound(o, key, t) ==> Sound(o, key, t')
  {
    StandingCounted(t, t', owed);
    forall n | n in t'.info ensures LookupOrZero(t'.addrIds, t'.info[n].service.net) == n { assert n in t.info; }
    if Sound(o, key, t) { StandingSound(o, key, t, t'); }
  }

  lemma StandingCounted(t: Tables, t': Tables, owed: set<int>)
    requires Counted(t, owed) && SameStanding(t.info, t'.info)
    requires t' == t.(info := t'.info, random := t'.random)
    requires |t'.random| == |t.random| && Positions(t'.info, t'.random)
    ensures Counted(t', owed)
  {
    SameShares(t.info, t'.info);
    forall n | n in t'.info ensures EntryOk(t'.info[n]) { assert EntryOk(t.info[n]); }
    forall n ensures CountTried(t'.tried, n) == TriedShare(t'.info, n) {
      assert CountTried(t.tried, n) == TriedShare(t.info, n);
    }
    forall n ensures CountNew(t'.untried, n) + (if n in owed then 1 else 0) == NewShare(t'.info, n) {
      assert CountNew(t.untried, n) + (if n in owed then 1 else 0) == NewShare(t.info, n);
    }
  }

  lemma StandingSound(o: Oracle, key: seq<nat>, t: Tables, t': Tables)
    requires Sound(o, key, t) && SameStanding(t.info, t'.info)
    requires t' == t.(info := t'.info, random := t'.random)
    ensures Sound(o, key, t')
  {
    forall n | n in t'.info ensures t'.info[n].service.net in t'.addrIds && t'.addrIds[t'.info[n].service.net] == n {
      assert n in t.info;
    }
  }

  /** Changing the statistics of an entry. */
  lemma StatisticsKeep(o: Oracle, key: seq<nat>, t: Tables, v: int, i: Info)
    requires Core(t, {}) && v in t.info
    requires i.service == t.info[v].service && i.refCount == t.info[v].refCount
    requires i.inTried == t.info[v].inTried && i.randomPos == t.info[v].randomPos
    ensures Core(t.(info := t.info[v := i]), {})
    ensures Sound(o, key, t) ==> Sound(o, key, t.(info := t.info[v := i]))
  {
    StandingKeeps(o, key, t, t.(info := t.info[v := i]), {});
  }

  lemma StatisticsTimes(info: map<int, Info>, v: int, i: Info)
    requires Times(info) && v in info
    ensures Times(info[v := i]) <==> TimesOk(i)
  {
    assert info[v := i][v] == i;
  }

  function Swapped(random: seq<int>, i: nat, j: nat): seq<int>
    requires i < |random| && j < |random|
  {
    random[i := random[j]][j := random[i]]
  }

  function Repositioned(info: map<int, Info>, random: seq<int>, i: nat, j: nat): map<int, Info>
    requires i < |random| && j < |random| && random[i] in info && random[j] in info
  {
    var info1 := info[random[i] := info[random[i]].(randomPos := j)];
    info1[random[j] := info1[random[j]].(randomPos := i)]
  }

  /** The tables after swapping two places of the random order. */
  function SwappedPlaces(t: Tables, i: nat, j: nat): Tables
    requires i < |t.random| && j < |t.random| && t.random[i] in t.info && t.random[j] in t.info
  {
    if i == j then t else t.(info := Repositioned(t.info, t.random, i, j), random := Swapped(t.random, i, j))
  }

  lemma SwapIsPermutation(random: seq<int>, i: nat, j: nat)
    requires i <= j < |random|
    ensures multiset(Swapped(random, i, j)) == multiset(random)
    ensures Swapped(random, i, j)[..i] == random[..i]
  {
  }

  lemma SwapKeeps(o: Oracle, key: seq<nat>, t: Tables, owed: set<int>, i: nat, j: nat)
    requires Core(t, owed) && i < |t.random| && j < |t.random|
    ensures t.random[i] in t.info && t.random[j] in t.info
    ensures SameButPositions(t.info, SwappedPlaces(t, i, j).info)
    ensures Core(SwappedPlaces(t, i, j), owed)
    ensures Sound(o, key, t) ==> Sound(o, key, SwappedPlaces(t, i, j))
  {
    CountedIsListed(t, owed);
    if i != j {
      var t' := SwappedPlaces(t, i, j);
      SwapPositions(t.info, t.random, i, j);
      StandingKeeps(o, key, t, t', owed);
    }
  }

  lemma DrawKeeps(o: Oracle, key: seq<nat>, t: Tables, i: nat, j: nat)
    requires CheckPasses(t) && i <= j < |t.random|
    ensures t.random[i] in t.info && t.random[j] in t.info
    ensures
      var t' := SwappedPlaces(t, i, j);
      && CheckPasses(t') && SameButPositions(t.info, t'.info) && (Sound(o, key, t) ==> Sound(o, key, t'))
      && |t'.random| == |t.random| && (forall k :: 0 <= k < i ==> t'.random[k] == t.random[k])
      && multiset(t'.random) == multiset(t.random) && t'.random[i] in t'.info
  {
    SwapKeeps(o, key, t, {}, i, j);
    SwapIsPermutation(t.random, i, j);
    SameTimes(t.info, SwappedPlaces(t, i, j).info);
  }

  lemma SwapPositions(info: map<int, Info>, random: seq<int>, i: nat, j: nat)
    requires Positions(info, random) && Listed(info, random) && i < |random| && j < |random| && i != j
    ensures SameButPositions(info, Repositioned(info, random, i, j))
    ensures Positions(Repositioned(info, random, i, j), Swapped(random, i, j))
  {
  }

  // ---------------------------------------------------------------- buckets and entries

  /** An id in a new bucket is an entry outside the tried table. */
  lemma InNewBucket(t: Tables, owed: set<int>, b: nat, v: int)
    requires Counted(t, owed) && b < |t.untried| && v in t.untried[b]
    ensures v in t.info && !t.info[v].inTried && t.info[v].refCount >= 1
  {
    CountNewPositive(t.untried, b, v);
    assert NewShare(t.info, v) > 0;
  }

  /** An id in a tried bucket is a tried entry. */
  lemma InTriedBucket(t: Tables, owed: set<int>, b: nat, i: nat)
    requires Counted(t, owed) && b < |t.tried| && i < |t.tried[b]|
    ensures t.tried[b][i] in t.info && t.info[t.tried[b][i]].inTried
  {
    CountTriedPositive(t.tried, b, i);
    assert TriedShare(t.info, t.tried[b][i]) == CountTried(t.tried, t.tried[b][i]);
  }

  /** Two entries never have the same address. */
  lemma AddressesDiffer(info: map<int, Info>, addrIds: map<NetAddr, int>, m: int, n: int)
    requires Reads(info, addrIds) && m in info && n in info && m != n
    ensures info[m].service.net != info[n].service.net
  {
  }

  lemma Unfiled(untried: seq<set<int>>, n: int)
    requires CountNew(untried, n) == 0
    ensures forall b :: 0 <= b < |untried| ==> n !in untried[b]
  {
    forall b | 0 <= b < |untried| ensures n !in untried[b] {
      if n in untried[b] { CountNewPositive(untried, b, n); }
    }
  }

  /** What the operations on buckets need in order to run at all: random places and bucket members name
    * entries, and entries name random places. */
  ghost predicate Safe(t: Tables) {
    && (forall k :: 0 <= k < |t.random| ==> t.random[k] in t.info)
    && (forall n :: n in t.info ==> 0 <= t.info[n].randomPos < |t.random|)
    && forall b, n :: 0 <= b < |t.untried| && n in t.untried[b] ==> n in t.info
  }

  lemma CoreIsSafe(t: Tables, owed: set<int>)
    requires Counted(t, owed)
    ensures Safe(t)
  {
    CountedIsListed(t, owed);
    forall b, n | 0 <= b < |t.untried| && n in t.untried[b] ensures n in t.info { InNewBucket(t, owed, b, n); }
  }

  // ---------------------------------------------------------------- giving up a reference

  /** One of several references taken away. */
  function Dropped(t: Tables, b: nat, v: int): Tables
    requires b < |t.untried| && v in t.info
  {
    t.(info := t.info[v := t.info[v].(refCount := t.info[v].refCount - 1)],
       untried := t.untried[b := t.untried[b] - {v}])
  }

  /** The last reference taken away, with the entry, which is last in the random order. */
  function Deleted(t: Tables, b: nat, v: int): Tables
    requires b < |t.untried| && v in t.info && |t.random| > 0
  {
    t.(info := t.info - {v},
       addrIds := t.addrIds - {t.info[v].service.net},
       random := t.random[..|t.random| - 1],
       newCount := t.newCount - 1,
       untried := t.untried[b := t.untried[b] - {v}])
  }

  /** `v` taken out of new bucket `b`, and its entry with the last reference. */
  function Unlinked(t: Tables, b: nat, v: int): Tables
    requires Safe(t) && b < |t.untried| && v in t.info
  {
    if t.info[v].refCount == 1 then Deleted(SwappedPlaces(t, t.info[v].randomPos, |t.random| - 1), b, v)
    else Dropped(t, b, v)
  }

  lemma DropReferenceKeeps(o: Oracle, key: seq<nat>, t: Tables, owed: set<int>, b: nat, v: int)
    requires Core(t, owed) && b < |t.untried| && v in t.untried[b] && v !in owed
    requires v in t.info && t.info[v].refCount > 1
    ensures Core(Dropped(t, b, v), owed)
    ensures Sound(o, key, t) ==> Sound(o, key, Dropped(t, b, v))
  {
    InNewBucket(t, owed, b, v);
    var t' := Dropped(t, b, v);
    assert TriedIds(t'.info) == TriedIds(t.info) && NewIds(t'.info) == NewIds(t.info);
    LessNewCounts(t.info, t'.info, t.untried, owed, b, v);
    SameTriedCounts(t.info, t'.info, t.tried);
    if Sound(o, key, t) { SmallerFits(t.untried, b, v); }
  }

  lemma SmallerFits(untried: seq<set<int>>, b: nat, v: int)
    requires NewFits(untried) && b < |untried|
    ensures NewFits(untried[b := untried[b] - {v}])
  {
    SubsetCard(untried[b] - {v}, untried[b]);
  }

  lemma LessNewCounts(info: map<int, Info>, info': map<int, Info>, untried: seq<set<int>>, owed: set<int>, b: nat,
                      v: int)
    requires NewCounts(info, untried, owed) && b < |untried| && v in untried[b]
    requires forall n :: NewShare(info', n) == NewShare(info, n) - if n == v then 1 else 0
    ensures NewCounts(info', untried[b := untried[b] - {v}], owed)
  {
    var untried' := untried[b := untried[b] - {v}];
    forall n ensures CountNew(untried', n) + (if n in owed then 1 else 0) == NewShare(info', n) {
      CountNewUpdate(untried, b, untried[b] - {v}, n);
      assert NewShare(info, n) == CountNew(untried, n) + (if n in owed then 1 else 0);
    }
  }

  lemma SameTriedCounts(info: map<int, Info>, info': map<int, Info>, tried: seq<seq<int>>)
    requires TriedCounts(info, tried) && forall n :: TriedShare(info', n) == TriedShare(info, n)
    ensures TriedCounts(info', tried)
  {
    forall n ensures CountTried(tried, n) == TriedShare(info', n) {
      assert TriedShare(info, n) == CountTried(tried, n);
    }
  }

  lemma DeleteKeeps(o: Oracle, key: seq<nat>, t: Tables, owed: set<int>, b: nat, v: int)
    requires Core(t, owed) && b < |t.untried| && v in t.untried[b] && v !in owed
    requires v in t.info && t.info[v].refCount == 1 && t.info[v].randomPos == |t.random| - 1
    ensures Core(Deleted(t, b, v), owed)
    ensures Sound(o, key, t) ==> Sound(o, key, Deleted(t, b, v))
  {
    InNewBucket(t, owed, b, v);
    DeleteCounted(t, owed, b, v);
    DeleteReads(t, b, v);
    if Sound(o, key, t) { DeleteSound(o, key, t, owed, b, v); }
  }

  lemma DeleteCounted(t: Tables, owed: set<int>, b: nat, v: int)
    requires Counted(t, owed) && b < |t.untried| && v in t.untried[b] && v !in owed
    requires v in t.info && !t.info[v].inTried && t.info[v].refCount == 1 && t.info[v].randomPos == |t.random| - 1
    ensures Counted(Deleted(t, b, v), owed)
  {
    var t' := Deleted(t, b, v);
    assert TriedIds(t'.info) == TriedIds(t.info);
    assert NewIds(t'.info) == NewIds(t.info) - {v};
    LessNewCounts(t.info, t'.info, t.untried, owed, b, v);
    SameTriedCounts(t.info, t'.info, t.tried);
    forall n | n in t'.info
      ensures 0 <= t'.info[n].randomPos < |t'.random| && t'.random[t'.info[n].randomPos] == n
    {
      assert t.random[t.info[n].randomPos] == n;
    }
  }

  lemma DeleteReads(t: Tables, b: nat, v: int)
    requires Reads(t.info, t.addrIds) && b < |t.untried| && v in t.info && |t.random| > 0
    ensures Reads(Deleted(t, b, v).info, Deleted(t, b, v).addrIds)
  {
    var t' := Deleted(t, b, v);
    forall n | n in t'.info ensures LookupOrZero(t'.addrIds, t'.info[n].service.net) == n {
      AddressesDiffer(t.info, t.addrIds, n, v);
    }
  }

  lemma DeleteSound(o: Oracle, key: seq<nat>, t: Tables, owed: set<int>, b: nat, v: int)
    requires Core(t, owed) && Sound(o, key, t) && b < |t.untried| && v in t.info && !t.info[v].inTried && |t.random| > 0
    ensures Sound(o, key, Deleted(t, b, v))
  {
    var t' := Deleted(t, b, v);
    SmallerFits(t.untried, b, v);
    forall n | n in t'.info ensures t'.info[n].service.net in t'.addrIds && t'.addrIds[t'.info[n].service.net] == n {
      AddressesDiffer(t.info, t.addrIds, n, v);
    }
    forall d, i | 0 <= d < |t.tried| && 0 <= i < |t.tried[d]|
      ensures t.tried[d][i] in t'.info && TriedBucket(o, key, t'.info[t.tried[d][i]].service) == d
    {
      InTriedBucket(t, owed, d, i);
    }
  }

  /** `v` gave up one reference; with the last one its entry went, and no other entry. */
  ghost predicate Lost(t: Tables, t': Tables, v: int) {
    && t'.idCount == t.idCount && t'.triedCount == t.triedCount && t'.tried == t.tried
    && v in t.info && t.info[v].refCount >= 1
    && (t.info[v].refCount > 1 ==>
          && t'.info == t.info[v := t.info[v].(refCount := t.info[v].refCount - 1)]
          && t'.addrIds == t.addrIds && t'.random == t.random && t'.newCount == t.newCount)
    && (t.info[v].refCount == 1 ==>
          && SameButPositions(t.info - {v}, t'.info)
          && t'.addrIds == t.addrIds - {t.info[v].service.net} && t'.newCount == t.newCount - 1)
  }

  /** Taking an id out of a new bucket keeps everything, and loses no other entry. */
  lemma UnlinkKeeps(o: Oracle, key: seq<nat>, t: Tables, owed: set<int>, b: nat, v: int)
    requires Core(t, owed) && b < |t.untried| && v in t.untried[b] && v !in owed
    ensures Safe(t) && v in t.info && !t.info[v].inTried
    ensures Core(Unlinked(t, b, v), owed) && Lost(t, Unlinked(t, b, v), v)
    ensures Sound(o, key, t) ==> Sound(o, key, Unlinked(t, b, v))
  {
    CoreIsSafe(t, owed);
    InNewBucket(t, owed, b, v);
    if t.info[v].refCount == 1 {
      UnlinkLast(o, key, t, owed, b, v);
    } else {
      DropReferenceKeeps(o, key, t, owed, b, v);
    }
  }

  lemma UnlinkLast(o: Oracle, key: seq<nat>, t: Tables, owed: set<int>, b: nat, v: int)
    requires Core(t, owed) && b < |t.untried| && v in t.untried[b] && v !in owed && Safe(t)
    requires v in t.info && t.info[v].refCount == 1
    ensures Core(Unlinked(t, b, v), owed) && Lost(t, Unlinked(t, b, v), v)
    ensures Sound(o, key, t) ==> Sound(o, key, Unlinked(t, b, v))
  {
    var t1 := BroughtLast(t, owed, v);
    UnlinkedLast(t, t1, b, v);
    DeleteKeeps(o, key, t1, owed, b, v);
    LostLast(t, t1, b, v);
    if Sound(o, key, t) { StandingSound(o, key, t, t1); }
  }

  lemma UnlinkedLast(t: Tables, t1: Tables, b: nat, v: int)
    requires Safe(t) && b < |t.untried| && v in t.info && t.info[v].refCount == 1
    requires t1 == SwappedPlaces(t, t.info[v].randomPos, |t.random| - 1)
    ensures v in t1.info && |t1.random| > 0 && Unlinked(t, b, v) == Deleted(t1, b, v)
  {
  }

  /** An entry can be moved to the end of the random order. */
  lemma BroughtLast(t: Tables, owed: set<int>, v: int) returns (t1: Tables)
    requires Core(t, owed) && v in t.info && Safe(t)
    ensures t1 == SwappedPlaces(t, t.info[v].randomPos, |t.random| - 1)
    ensures t1 == t.(info := t1.info, random := t1.random) && SameButPositions(t.info, t1.info)
    ensures Core(t1, owed) && |t1.random| > 0 && t1.info[v].randomPos == |t1.random| - 1
  {
    var pos, last := t.info[v].randomPos, |t.random| - 1;
    CountedIsListed(t, owed);
    t1 := SwappedPlaces(t, pos, last);
    if pos != last {
      SwapPositions(t.info, t.random, pos, last);
      StandingCounted(t, t1, owed);
    }
  }

  lemma LostLast(t: Tables, t1: Tables, b: nat, v: int)
    requires t1 == t.(info := t1.info, random := t1.random) && SameButPositions(t.info, t1.info)
    requires b < |t.untried| && v in t.info && t.info[v].refCount == 1 && |t1.random| > 0
    ensures Lost(t, Deleted(t1, b, v), v)
  {
    assert (t.info - {v}).Keys == (t1.info - {v}).Keys;
  }

  lemma LossTimes(t: Tables, t': Tables, v: int)
    requires Lost(t, t', v) && Times(t.info)
    ensures Times(t'.info)
  {
    if t.info[v].refCount == 1 {
      forall n | n in t'.info ensures TimesOk(t'.info[n]) { assert n in t.info - {v} && TimesOk(t.info[n]); }
    }
  }

  // ---------------------------------------------------------------- creating and filing

  function Created(t: Tables, i: Info): Tables {
    t.(idCount := t.idCount + 1,
       info := t.info[t.idCount := i],
       addrIds := t.addrIds[i.service.net := t.idCount],
       random := t.random + [t.idCount],
       newCount := t.newCount + 1)
  }

  /** No entry has this address. */
  ghost predicate Unused(info: map<int, Info>, a: NetAddr) { forall m :: m in info ==> info[m].service.net != a }

  /** Appending an entry under an unused id, with one reference promised. */
  lemma CreateKeeps(o: Oracle, key: seq<nat>, t: Tables, i: Info)
    requires Core(t, {}) && t.idCount !in t.info && Unused(t.info, i.service.net)
    requires i.refCount == 1 && !i.inTried && i.randomPos == |t.random|
    ensures Core(Created(t, i), {t.idCount})
    ensures Sound(o, key, t) ==> Sound(o, key, Created(t, i))
    ensures CountNew(t.untried, t.idCount) == 0
  {
    assert NewShare(t.info, t.idCount) == 0;
    CreateCounted(t, i);
    CreateReads(t, i);
  }

  lemma CreateCounted(t: Tables, i: Info)
    requires Counted(t, {}) && t.idCount !in t.info
    requires i.refCount == 1 && !i.inTried && i.randomPos == |t.random|
    ensures Counted(Created(t, i), {t.idCount})
  {
    CreateIds(t.info, t.idCount, i);
    CreateShares(t, i);
    CreateEntries(t, i);
  }

  lemma CreateIds(info: map<int, Info>, v: int, i: Info)
    requires v !in info && !i.inTried
    ensures TriedIds(info[v := i]) == TriedIds(info) && NewIds(info[v := i]) == NewIds(info) + {v}
  {
  }

  lemma CreateShares(t: Tables, i: Info)
    requires TriedCounts(t.info, t.tried) && NewCounts(t.info, t.untried, {}) && t.idCount !in t.info
    requires i.refCount == 1 && !i.inTried
    ensures TriedCounts(Created(t, i).info, t.tried) && NewCounts(Created(t, i).info, t.untried, {t.idCount})
  {
    var v, info' := t.idCount, Created(t, i).info;
    SameTriedCounts(t.info, info', t.tried);
    forall n ensures CountNew(t.untried, n) + (if n in {v} then 1 else 0) == NewShare(info', n) {
      assert NewShare(t.info, n) == CountNew(t.untried, n);
    }
  }

  lemma CreateEntries(t: Tables, i: Info)
    requires Entries(t.info) && Positions(t.info, t.random)
    requires i.refCount == 1 && !i.inTried && i.randomPos == |t.random|
    ensures Entries(Created(t, i).info) && Positions(Created(t, i).info, Created(t, i).random)
  {
  }

  lemma CreateReads(t: Tables, i: Info)
    requires Reads(t.info, t.addrIds) && Unused(t.info, i.service.net)
    ensures Reads(Created(t, i).info, Created(t, i).addrIds)
  {
  }

  lemma CreatedTimes(t: Tables, i: Info)
    requires Times(t.info) && TimesOk(i)
    ensures Times(Created(t, i).info)
  {
  }

  /** An existing entry with one more reference, not delivered yet. */
  function Promised(t: Tables, v: int): Tables
    requires v in t.info
  {
    t.(info := t.info[v := t.info[v].(refCount := t.info[v].refCount + 1)])
  }

  /** Promising an existing new entry one more reference. */
  lemma PromiseKeeps(o: Oracle, key: seq<nat>, t: Tables, v: int)
    requires Core(t, {})
    requires v in t.info && !t.info[v].inTried && t.info[v].refCount < NEW_BUCKETS_PER_ADDRESS
    ensures Core(Promised(t, v), {v})
    ensures Sound(o, key, t) ==> Sound(o, key, Promised(t, v))
    ensures Times(t.info) ==> Times(Promised(t, v).info)
  {
    var info' := Promised(t, v).info;
    assert EntryOk(t.info[v]);
    assert TriedIds(info') == TriedIds(t.info);
    assert NewIds(info') == NewIds(t.info);
    SameTriedCounts(t.info, info', t.tried);
    forall n ensures CountNew(t.untried, n) + (if n in {v} then 1 else 0) == NewShare(info', n) {
      assert NewShare(t.info, n) == CountNew(t.untried, n);
    }
  }

  function Delivered(t: Tables, n: int, b: nat): Tables
    requires b < |t.untried|
  {
    t.(untried := t.untried[b := t.untried[b] + {n}])
  }

  /** Keeping the promise. */
  lemma DeliverKeeps(o: Oracle, key: seq<nat>, t: Tables, v: int, b: nat)
    requires Core(t, {v}) && b < |t.untried| && v !in t.untried[b]
    ensures Core(Delivered(t, v, b), {})
    ensures Sound(o, key, t) && |t.untried[b]| < NEW_BUCKET_SIZE ==> Sound(o, key, Delivered(t, v, b))
  {
    var t' := Delivered(t, v, b);
    forall n ensures CountNew(t'.untried, n) == NewShare(t.info, n) {
      CountNewUpdate(t.untried, b, t.untried[b] + {v}, n);
      assert NewShare(t.info, n) == CountNew(t.untried, n) + (if n in {v} then 1 else 0);
    }
  }

  /** The tables after `n` was put into new bucket `b`, `v` making room when that is full. */
  function Filing(t: Tables, n: int, b: nat, v: int): Tables
    requires Safe(t) && b < |t.untried| && (|t.untried[b]| == NEW_BUCKET_SIZE ==> v in t.untried[b])
  {
    Delivered(if |t.untried[b]| == NEW_BUCKET_SIZE then Unlinked(t, b, v) else t, n, b)
  }

  lemma FilingKeeps(o: Oracle, key: seq<nat>, t: Tables, n: int, b: nat, v: int)
    requires Core(t, {n}) && n in t.info && b < |t.untried| && n !in t.untried[b]
    requires |t.untried[b]| == NEW_BUCKET_SIZE ==> v in t.untried[b]
    ensures Safe(t) && Core(Filing(t, n, b, v), {})
    ensures Times(t.info) ==> Times(Filing(t, n, b, v).info)
    ensures Sound(o, key, t) ==> Sound(o, key, Filing(t, n, b, v)) && Filed(t, Filing(t, n, b, v), n, b)
  {
    CoreIsSafe(t, {n});
    if |t.untried[b]| == NEW_BUCKET_SIZE {
      UnlinkKeeps(o, key, t, {n}, b, v);
      FilingFullKeeps(o, key, t, Unlinked(t, b, v), n, b, v);
    } else {
      DeliverKeeps(o, key, t, n, b);
      if Sound(o, key, t) { FiledWithRoom(o, key, t, n, b); }
    }
  }

  lemma FilingFullKeeps(o: Oracle, key: seq<nat>, t: Tables, t1: Tables, n: int, b: nat, v: int)
    requires Core(t, {n}) && Core(t1, {n}) && Safe(t) && n in t.info && b < |t.untried|
    requires n !in t.untried[b] && v in t.untried[b] && |t.untried[b]| == NEW_BUCKET_SIZE
    requires v in t.info && t1 == Unlinked(t, b, v) && Lost(t, t1, v)
    requires Sound(o, key, t) ==> Sound(o, key, t1)
    ensures Core(Delivered(t1, n, b), {})
    ensures Times(t.info) ==> Times(Delivered(t1, n, b).info)
    ensures Sound(o, key, t) ==> Sound(o, key, Delivered(t1, n, b)) && Filed(t, Delivered(t1, n, b), n, b)
  {
    assert t1.untried[b] == t.untried[b] - {v};
    DeliverKeeps(o, key, t1, n, b);
    if Times(t.info) { LossTimes(t, t1, v); }
    if Sound(o, key, t) { FiledAfterLoss(o, key, t, t1, n, v, b); }
  }

  // ---------------------------------------------------------------- moving to the tried table

  function Without(untried: seq<set<int>>, n: int): seq<set<int>> {
    seq(|untried|, b requires 0 <= b < |untried| => untried[b] - {n})
  }

  lemma {:induction false} WithoutCounts(untried: seq<set<int>>, n: int, m: int)
    ensures CountNew(Without(untried, n), m) == if m == n then 0 else CountNew(untried, m)
  {
    if untried != [] {
      var last := |untried| - 1;
      assert Without(untried, n)[..last] == Without(untried[..last], n);
      WithoutCounts(untried[..last], n, m);
    }
  }

  lemma WithoutFits(untried: seq<set<int>>, n: int)
    requires NewFits(untried)
    ensures NewFits(Without(untried, n))
    ensures forall b :: 0 <= b < |untried| && n in untried[b] ==> |Without(untried, n)[b]| < NEW_BUCKET_SIZE
  {
    forall b | 0 <= b < |untried| ensures |Without(untried, n)[b]| <= |untried[b]| {
      SubsetCard(Without(untried, n)[b], untried[b]);
    }
  }

  function MovedIntoRoom(t: Tables, n: int, k: nat): Tables
    requires n in t.info && k < |t.tried|
  {
    t.(info := Joined(t.info, n),
       triedCount := t.triedCount + 1,
       newCount := t.newCount - 1,
       tried := t.tried[k := t.tried[k] + [n]],
       untried := Without(t.untried, n))
  }

  lemma MoveIntoRoomKeeps(o: Oracle, key: seq<nat>, t: Tables, n: int, k: nat)
    requires Core(t, {}) && n in t.info && !t.info[n].inTried && k < |t.tried|
    ensures Core(MovedIntoRoom(t, n, k), {})
    ensures Sound(o, key, t) && k == TriedBucket(o, key, t.info[n].service) && |t.tried[k]| < TRIED_BUCKET_SIZE ==>
              Sound(o, key, MovedIntoRoom(t, n, k))
  {
    MoveCounted(t, n, k);
    if Sound(o, key, t) { WithoutFits(t.untried, n); }
  }

  lemma MoveCounted(t: Tables, n: int, k: nat)
    requires Counted(t, {}) && n in t.info && !t.info[n].inTried && k < |t.tried|
    ensures Counted(MovedIntoRoom(t, n, k), {})
  {
    var t' := MovedIntoRoom(t, n, k);
    assert TriedIds(t'.info) == TriedIds(t.info) + {n};
    assert NewIds(t'.info) == NewIds(t.info) - {n};
    LeftNewCounts(t.info, t.untried, n);
    JoinedTriedCounts(t.info, t.tried, n, k);
  }

  /** The entry of `n` after it joined the tried table. */
  function Joined(info: map<int, Info>, n: int): map<int, Info>
    requires n in info
  {
    info[n := info[n].(refCount := 0, inTried := true)]
  }

  lemma LeftNewCounts(info: map<int, Info>, untried: seq<set<int>>, n: int)
    requires NewCounts(info, untried, {}) && n in info
    ensures NewCounts(Joined(info, n), Without(untried, n), {})
  {
    forall m ensures CountNew(Without(untried, n), m) == NewShare(Joined(info, n), m) {
      WithoutCounts(untried, n, m);
      assert NewShare(info, m) == CountNew(untried, m);
    }
  }

  lemma JoinedTriedCounts(info: map<int, Info>, tried: seq<seq<int>>, n: int, k: nat)
    requires TriedCounts(info, tried) && n in info && !info[n].inTried && k < |tried|
    ensures TriedCounts(Joined(info, n), tried[k := tried[k] + [n]])
  {
    forall m ensures CountTried(tried[k := tried[k] + [n]], m) == TriedShare(Joined(info, n), m) {
      CountTriedUpdate(tried, k, tried[k] + [n], m);
      assert TriedShare(info, m) == CountTried(tried, m);
    }
  }

  /** `n` takes the place of `v` at `tried[k][pos]`, and `v` goes back to new bucket `u`. */
  function Exchanged(t: Tables, n: int, k: nat, pos: nat, u: nat): Tables
    requires n in t.info && k < |t.tried| && pos < |t.tried[k]| && t.tried[k][pos] in t.info
    requires u < |t.untried|
  {
    var v := t.tried[k][pos];
    t.(info := Evictee(Joined(t.info, n), v),
       tried := t.tried[k := t.tried[k][pos := n]],
       untried := Without(t.untried, n)[u := Without(t.untried, n)[u] + {v}])
  }

  function Evictee(info: map<int, Info>, v: int): map<int, Info>
    requires v in info
  {
    info[v := info[v].(refCount := 1, inTried := false)]
  }

  lemma UpdatesCommute(info: map<int, Info>, n: int, v: int, a: Info, b: Info, c: Info)
    requires n != v
    ensures info[n := a][v := b][n := c] == info[n := c][v := b]
  {
  }

  lemma ExchangeKeeps(o: Oracle, key: seq<nat>, t: Tables, n: int, k: nat, pos: nat, u: nat)
    requires Core(t, {}) && n in t.info && !t.info[n].inTried
    requires k < |t.tried| && pos < |t.tried[k]| && u < |t.untried|
    ensures t.tried[k][pos] in t.info && t.info[t.tried[k][pos]].inTried
    ensures Core(Exchanged(t, n, k, pos, u), {})
    ensures
      (Sound(o, key, t) && k == TriedBucket(o, key, t.info[n].service) && |Without(t.untried, n)[u]| < NEW_BUCKET_SIZE)
      ==> Sound(o, key, Exchanged(t, n, k, pos, u))
  {
    InTriedBucket(t, {}, k, pos);
    ExchangeCounts(t, n, k, pos, u);
    if Sound(o, key, t) && k == TriedBucket(o, key, t.info[n].service) && |Without(t.untried, n)[u]| < NEW_BUCKET_SIZE {
      WithoutFits(t.untried, n);
      var base := Without(t.untried, n)[u];
      assert |base + {t.tried[k][pos]}| <= |base| + 1;
      ExchangePlaced(o, key, t.info, t.tried, n, k, pos);
    }
  }

  lemma ExchangePlaced(o: Oracle, key: seq<nat>, info: map<int, Info>, tried: seq<seq<int>>, n: int, k: nat, pos: nat)
    requires Placed(o, key, info, tried) && n in info && k == TriedBucket(o, key, info[n].service)
    requires k < |tried| && pos < |tried[k]|
    ensures tried[k][pos] in info
    ensures Placed(o, key, Evictee(Joined(info, n), tried[k][pos]), tried[k := tried[k][pos := n]])
  {
    var tried' := tried[k := tried[k][pos := n]];
    var info' := Evictee(Joined(info, n), tried[k][pos]);
    forall d, i | 0 <= d < |tried'| && 0 <= i < |tried'[d]|
      ensures tried'[d][i] in info' && TriedBucket(o, key, info'[tried'[d][i]].service) == d
    {
      if d == k && i == pos {
      } else {
        assert tried'[d][i] == tried[d][i];
      }
    }
  }

  lemma ExchangeCounts(t: Tables, n: int, k: nat, pos: nat, u: nat)
    requires Counted(t, {}) && n in t.info && !t.info[n].inTried
    requires k < |t.tried| && pos < |t.tried[k]| && u < |t.untried|
    requires t.tried[k][pos] in t.info && t.info[t.tried[k][pos]].inTried
    ensures Counted(Exchanged(t, n, k, pos, u), {})
  {
    var v := t.tried[k][pos];
    var t' := Exchanged(t, n, k, pos, u);
    assert TriedIds(t'.info) == TriedIds(t.info) + {n} - {v};
    assert NewIds(t'.info) == NewIds(t.info) - {n} + {v};
    LeftNewCounts(t.info, t.untried, n);
    EvicteeNewCounts(Joined(t.info, n), Without(t.untried, n), v, u);
    ExchangedTriedCounts(t.info, t.tried, n, k, pos);
  }

  lemma EvicteeNewCounts(info: map<int, Info>, untried: seq<set<int>>, v: int, u: nat)
    requires NewCounts(info, untried, {}) && v in info && info[v].inTried && u < |untried|
    ensures NewCounts(Evictee(info, v), untried[u := untried[u] + {v}], {})
  {
    assert NewShare(info, v) == 0;
    Unfiled(untried, v);
    forall m ensures CountNew(untried[u := untried[u] + {v}], m) == NewShare(Evictee(info, v), m) {
      CountNewUpdate(untried, u, untried[u] + {v}, m);
      assert NewShare(info, m) == CountNew(untried, m);
    }
  }

  lemma ExchangedTriedCounts(info: map<int, Info>, tried: seq<seq<int>>, n: int, k: nat, pos: nat)
    requires TriedCounts(info, tried) && n in info && !info[n].inTried
    requires k < |tried| && pos < |tried[k]| && tried[k][pos] in info && info[tried[k][pos]].inTried
    ensures TriedCounts(Evictee(Joined(info, n), tried[k][pos]), tried[k := tried[k][pos := n]])
  {
    var v := tried[k][pos];
    forall m ensures CountTried(tried[k := tried[k][pos := n]], m) == TriedShare(Evictee(Joined(info, n), v), m) {
      CountTriedUpdate(tried, k, tried[k][pos := n], m);
      assert TriedShare(info, m) == CountTried(tried, m);
    }
  }

  /** Reordering one tried bucket. */
  lemma ReorderKeeps(o: Oracle, key: seq<nat>, t: Tables, owed: set<int>, k: nat, s: seq<int>)
    requires Core(t, owed) && k < |t.tried| && multiset(s) == multiset(t.tried[k])
    ensures Core(t.(tried := t.tried[k := s]), owed)
    ensures Sound(o, key, t) ==> Sound(o, key, t.(tried := t.tried[k := s]))
  {
    var tried' := t.tried[k := s];
    assert |s| == |multiset(s)| == |t.tried[k]|;
    forall m ensures CountTried(tried', m) == TriedShare(t.info, m) {
      CountTriedUpdate(t.tried, k, s, m);
      assert TriedShare(t.info, m) == CountTried(t.tried, m);
    }
    if Sound(o, key, t) { ReorderPlaced(o, key, t.info, t.tried, k, s); }
  }

  lemma ReorderPlaced(o: Oracle, key: seq<nat>, info: map<int, Info>, tried: seq<seq<int>>, k: nat, s: seq<int>)
    requires Placed(o, key, info, tried) && k < |tried| && multiset(s) == multiset(tried[k])
    ensures Placed(o, key, info, tried[k := s])
  {
    var tried' := tried[k := s];
    forall d, i | 0 <= d < |tried'| && 0 <= i < |tried'[d]|
      ensures tried'[d][i] in info && TriedBucket(o, key, info[tried'[d][i]].service) == d
    {
      if d == k {
        assert s[i] in multiset(s);
        assert s[i] in multiset(tried[k]);
        var j :| 0 <= j < |tried[k]| && tried[k][j] == s[i];
      } else {
        assert tried'[d] == tried[d];
      }
    }
  }

  // ---------------------------------------------------------------- what whole steps do

  /** `n` moved to the tried table; at most one tried entry went back to the new one. */
  ghost predicate Promoted(o: Oracle, key: seq<nat>, t: Tables, t': Tables, n: int) {
    && t'.idCount == t.idCount && t'.addrIds == t.addrIds && t'.random == t.random
    && n in t.info && !t.info[n].inTried
    && var k := TriedBucket(o, key, t.info[n].service);
       var info1 := t.info[n := t.info[n].(refCount := 0, inTried := true)];
       && k < |t'.tried| && n in t'.tried[k]
       && (|| (t'.triedCount == t.triedCount + 1 && t'.newCount == t.newCount - 1 && t'.info == info1)
           || (&& t'.triedCount == t.triedCount && t'.newCount == t.newCount
               && exists v :: v in t.info && t.info[v].inTried
                              && t'.info == info1[v := info1[v].(refCount := 1, inTried := false)]))
  }

  lemma PromotedIntoRoom(o: Oracle, key: seq<nat>, t: Tables, n: int, k: nat)
    requires n in t.info && !t.info[n].inTried
    requires k == TriedBucket(o, key, t.info[n].service) && k < |t.tried|
    ensures Promoted(o, key, t, MovedIntoRoom(t, n, k), n)
  {
    assert n in t.tried[k] + [n];
  }

  lemma PromotedByExchange(o: Oracle, key: seq<nat>, t: Tables, t1: Tables, n: int, k: nat, pos: nat, u: nat)
    requires t1 == t.(tried := t1.tried)
    requires n in t.info && !t.info[n].inTried
    requires k == TriedBucket(o, key, t.info[n].service) && k < |t1.tried| && pos < |t1.tried[k]|
    requires t1.tried[k][pos] in t.info && t.info[t1.tried[k][pos]].inTried && u < |t.untried|
    ensures Promoted(o, key, t, Exchanged(t1, n, k, pos, u), n)
  {
    assert t1.tried[k][pos := n][pos] == n;
  }

  /** The exchange in a reordered bucket, seen from before the reordering. */
  lemma EvictionKeeps(o: Oracle, key: seq<nat>, t: Tables, t1: Tables, n: int, origin: nat, k: nat, pos: nat, u: nat)
    requires Core(t1, {}) && (Sound(o, key, t) ==> Sound(o, key, t1)) && t1 == t.(tried := t1.tried)
    requires n in t.info && !t.info[n].inTried && origin < |t.untried| && n in t.untried[origin]
    requires k == TriedBucket(o, key, t.info[n].service) && k < |t1.tried| && pos < |t1.tried[k]|
    requires u < |t.untried| && (u == origin || |Without(t.untried, n)[u]| < NEW_BUCKET_SIZE)
    ensures t1.tried[k][pos] in t.info && t.info[t1.tried[k][pos]].inTried
    ensures Core(Exchanged(t1, n, k, pos, u), {}) && Promoted(o, key, t, Exchanged(t1, n, k, pos, u), n)
    ensures Sound(o, key, t) ==> Sound(o, key, Exchanged(t1, n, k, pos, u))
    ensures |Exchanged(t1, n, k, pos, u).tried| == |t1.tried| && |Exchanged(t1, n, k, pos, u).untried| == |t.untried|
  {
    ExchangeKeeps(o, key, t1, n, k, pos, u);
    PromotedByExchange(o, key, t, t1, n, k, pos, u);
    if Sound(o, key, t) { WithoutFits(t.untried, n); }
  }

  /** From `t` to `t'` at most one address is forgotten: not that of `n`, and not a tried one. */
  ghost predicate Forgets(t: Tables, t': Tables, n: int) {
    && |t.addrIds.Keys - t'.addrIds.Keys| <= 1
    && forall x :: x in t.addrIds && x !in t'.addrIds ==>
         t.addrIds[x] != n && t.addrIds[x] in t.info && !t.info[t.addrIds[x]].inTried
  }

  lemma NothingForgotten(t: Tables, t': Tables, n: int)
    requires t'.addrIds == t.addrIds
    ensures Forgets(t, t', n)
  {
    assert t.addrIds.Keys - t'.addrIds.Keys == {};
  }

  lemma ForgetsFromSame(t: Tables, t1: Tables, t': Tables, n: int)
    requires t1.addrIds == t.addrIds && t1.info.Keys == t.info.Keys
    requires forall m :: m in t.info ==> t1.info[m].inTried == t.info[m].inTried
    requires Forgets(t1, t', n)
    ensures Forgets(t, t', n)
  {
  }

  lemma ForgetsFromCreated(t: Tables, i: Info, t': Tables)
    requires i.service.net !in t.addrIds && t.idCount !in t.info
    requires Forgets(Created(t, i), t', t.idCount) && i.service.net in t'.addrIds
    ensures Forgets(t, t', t.idCount)
  {
    var t1 := Created(t, i);
    assert t.addrIds.Keys - t'.addrIds.Keys == t1.addrIds.Keys - t'.addrIds.Keys;
    forall x | x in t.addrIds && x !in t'.addrIds
      ensures t.addrIds[x] != t.idCount && t.addrIds[x] in t.info && !t.info[t.addrIds[x]].inTried
    {
      assert t1.addrIds[x] == t.addrIds[x];
    }
  }

  ghost function Evicted(t: Tables, t': Tables): set<int> {
    set m | m in t.info && m in t'.info && t.info[m].inTried && !t'.info[m].inTried
  }

  /** The statistics of an entry that was just reached. */
  function Reached(i: Info, time: int): Info {
    i.(lastSuccess := time, lastTry := time, time := time % 0x1_0000_0000, attempts := 0)
  }

  function Touched(t: Tables, n: int, time: int): Tables
    requires n in t.info
  {
    t.(info := t.info[n := Reached(t.info[n], time)])
  }

  /** The address is known under its exact service. */
  ghost predicate Known(t: Tables, addr: Service) {
    addr.net in t.addrIds && t.addrIds[addr.net] in t.info && t.info[t.addrIds[addr.net]].service == addr
  }

  /** The entry of `addr` is in the tried table with fresh statistics; at most one other entry
    * changed, by going back from the tried table to a single new bucket. */
  ghost predicate MarkedGood(t: Tables, t': Tables, addr: Service, time: int) {
    && t'.idCount == t.idCount && t'.addrIds == t.addrIds && t'.random == t.random
    && t'.info.Keys == t.info.Keys
    && addr.net in t.addrIds && t.addrIds[addr.net] in t.info
    && var n := t.addrIds[addr.net];
       && t'.info[n] == Reached(t.info[n], time).(refCount := 0, inTried := true)
       && CountTried(t'.tried, n) == 1
       && |Evicted(t, t')| <= 1
       && forall m :: m in t.info && m != n ==>
            || t'.info[m] == t.info[m]
            || (t.info[m].inTried && t'.info[m] == t.info[m].(refCount := 1, inTried := false))
  }

  lemma GoodAlreadyTried(o: Oracle, key: seq<nat>, t: Tables, addr: Service, time: int)
    requires CheckPasses(t) && Known(t, addr) && t.info[t.addrIds[addr.net]].inTried
    ensures
      var n := t.addrIds[addr.net];
      var t' := t.(info := t.info[n := Reached(t.info[n], time)]);
      && Core(t', {}) && MarkedGood(t, t', addr, time) && (Times(t'.info) <==> time > 0)
      && (Sound(o, key, t) ==> Sound(o, key, t'))
  {
    var n := t.addrIds[addr.net];
    var t' := t.(info := t.info[n := Reached(t.info[n], time)]);
    StatisticsKeep(o, key, t, n, Reached(t.info[n], time));
    StatisticsTimes(t.info, n, Reached(t.info[n], time));
    assert EntryOk(t.info[n]);
    assert TriedShare(t'.info, n) == CountTried(t'.tried, n);
    assert Evicted(t, t') == {};
  }

  lemma GoodPromoted(o: Oracle, key: seq<nat>, t: Tables, t': Tables, addr: Service, time: int)
    requires Times(t.info) && Core(t', {}) && Known(t, addr) && !t.info[t.addrIds[addr.net]].inTried
    requires
      var n := t.addrIds[addr.net];
      Promoted(o, key, t.(info := t.info[n := Reached(t.info[n], time)]), t', n)
    ensures MarkedGood(t, t', addr, time) && (Times(t'.info) <==> time > 0)
  {
    var n := t.addrIds[addr.net];
    var t1 := t.(info := t.info[n := Reached(t.info[n], time)]);
    var info1 := t1.info[n := t1.info[n].(refCount := 0, inTried := true)];
    if t'.info == info1 {
      assert Evicted(t, t') == {};
    } else {
      var v :| v in t1.info && t1.info[v].inTried
               && t'.info == info1[v := info1[v].(refCount := 1, inTried := false)];
      assert Evicted(t, t') == {v};
    }
    assert TriedShare(t'.info, n) == CountTried(t'.tried, n);
    GoodTimes(t, t', n, time);
  }

  lemma GoodTimes(t: Tables, t': Tables, n: int, time: int)
    requires Times(t.info) && n in t.info && t'.info.Keys == t.info.Keys
    requires t'.info[n] == Reached(t.info[n], time).(refCount := 0, inTried := true)
    requires forall m :: m in t.info && m != n ==>
      t'.info[m] == t.info[m] || t'.info[m] == t.info[m].(refCount := 1, inTried := false)
    ensures Times(t'.info) <==> time > 0
  {
    assert TimesOk(t'.info[n]) <==> time > 0;
    forall m | m in t.info && m != n ensures TimesOk(t'.info[m]) { assert TimesOk(t.info[m]); }
  }

  /** `n` is filed in new bucket `b`; everything else that happened was to make room. */
  ghost predicate Filed(t: Tables, t': Tables, n: int, b: nat) {
    && t'.idCount == t.idCount && t'.tried == t.tried && t'.triedCount == t.triedCount
    && n in t.info && n in t'.info && t'.info[n].(randomPos := -1) == t.info[n].(randomPos := -1)
    && t'.addrIds.Keys <= t.addrIds.Keys
    && t.info[n].service.net in t'.addrIds && t'.addrIds[t.info[n].service.net] == n
    && b < |t'.untried| && n in t'.untried[b]
    && Forgets(t, t', n)
  }

  lemma FiledWithRoom(o: Oracle, key: seq<nat>, t: Tables, n: int, b: nat)
    requires Structured(o, key, t, {n}) && n in t.info && b < |t.untried|
    ensures Filed(t, Delivered(t, n, b), n, b)
  {
    NothingForgotten(t, Delivered(t, n, b), n);
  }

  lemma FiledAfterLoss(o: Oracle, key: seq<nat>, t: Tables, t1: Tables, n: int, v: int, b: nat)
    requires Structured(o, key, t, {n}) && Structured(o, key, t1, {n}) && n in t.info && v != n
    requires Lost(t, t1, v) && !t.info[v].inTried && b < |t1.untried|
    ensures Filed(t, Delivered(t1, n, b), n, b)
  {
    LossSpares(o, key, t, t1, n, v);
    assert Forgets(t, t1, n);
  }

  /** A loss forgets at most the address of the entry that was lost. */
  lemma LossSpares(o: Oracle, key: seq<nat>, t: Tables, t': Tables, n: int, v: int)
    requires Structured(o, key, t, {n}) && Structured(o, key, t', {n}) && n in t.info && v != n
    requires Lost(t, t', v)
    ensures n in t'.info && t'.info[n] == t.info[n].(randomPos := t'.info[n].randomPos)
    ensures t'.addrIds.Keys <= t.addrIds.Keys && |t.addrIds.Keys - t'.addrIds.Keys| <= 1
    ensures forall x :: x in t.addrIds && x !in t'.addrIds ==> t.addrIds[x] == v
    ensures t.info[n].service.net in t'.addrIds && t'.addrIds[t.info[n].service.net] == n
  {
    var gone := t.addrIds.Keys - t'.addrIds.Keys;
    assert gone <= {t.info[v].service.net};
    SubsetCard(gone, {t.info[v].service.net});
  }

  /** A known address got another reference. */
  lemma FiledFromPromise(t: Tables, t': Tables, n: int, b: nat)
    requires n in t.info && Filed(Promised(t, n), t', n, b)
    ensures Forgets(t, t', n)
  {
    ForgetsFromSame(t, Promised(t, n), t', n);
  }

  /** An address that was not known before is now, in the bucket its source selects. */
  ghost predicate Learned(o: Oracle, key: seq<nat>, t: Tables, t': Tables, a: Address, source: NetAddr, penalty: int) {
    && t'.tried == t.tried && t'.triedCount == t.triedCount
    && a.service.net in t'.addrIds && t'.addrIds[a.service.net] == t.idCount
    && t'.addrIds.Keys <= t.addrIds.Keys + {a.service.net}
    && t.idCount in t'.info
    && t'.info[t.idCount].(randomPos := -1) ==
         Info(a.service, a.services, Max(0, a.time - penalty) % 0x1_0000_0000, source, 0, 0, 0, 1, false, -1)
    && NewBucket(o, key, a.service, source) < |t'.untried|
    && t.idCount in t'.untried[NewBucket(o, key, a.service, source)]
    && Forgets(t, t', t.idCount)
  }

  /** The entry a newly learned address starts with, before it has a reference. */
  function FirstInfo(t: Tables, a: Address, source: NetAddr, penalty: int): Info {
    NewInfo(a, source).(time := U32(Max(0, a.time - penalty)), randomPos := |t.random|)
  }

  /** A known entry after an announcement of its address. */
  function Refreshed(i: Info, a: Address, penalty: int, now: int): Info {
    var interval := if now - a.time < 24 * 60 * 60 then 60 * 60 else 24 * 60 * 60;
    var time := if a.time != 0 && (i.time == 0 || i.time < a.time - interval - penalty)
                then U32(Max(0, a.time - penalty)) else i.time;
    i.(time := time, services := i.services + a.services)
  }

  lemma AdditionLearns(o: Oracle, key: seq<nat>, t: Tables, a: Address, source: NetAddr, penalty: int, v: int)
    requires Invariant(o, key, t) && !Found(t, a.service.net)
    requires
      var b := NewBucket(o, key, a.service, source);
      |t.untried[b]| == NEW_BUCKET_SIZE ==> v in t.untried[b]
    ensures
      var t' := Addition(t, FirstInfo(t, a, source, penalty), NewBucket(o, key, a.service, source), v);
      Invariant(o, key, t') && Remembered(o, key, t, t', a, source, penalty)
  {
    var i, b := FirstInfo(t, a, source, penalty), NewBucket(o, key, a.service, source);
    assert t.idCount !in t.info && a.service.net !in t.addrIds;
    NobodyHas(t.info, t.addrIds, a.service.net);
    UnusedIdPasses(o, key, t, i, b, v);
    LearnedByFiling(o, key, t, i.(refCount := 1), Addition(t, i, b, v), a, source, penalty);
  }

  lemma NobodyHas(info: map<int, Info>, addrIds: map<NetAddr, int>, a: NetAddr)
    requires Indexed(info, addrIds) && a !in addrIds
    ensures Unused(info, a)
  {
  }

  lemma LearnedByFiling(o: Oracle, key: seq<nat>, t: Tables, i: Info, t': Tables, a: Address, source: NetAddr,
                        penalty: int)
    requires i == FirstInfo(t, a, source, penalty).(refCount := 1)
    requires a.service.net !in t.addrIds && t.idCount !in t.info
    requires Filed(Created(t, i), t', t.idCount, NewBucket(o, key, a.service, source))
    ensures Learned(o, key, t, t', a, source, penalty)
  {
    ForgetsFromCreated(t, i, t');
  }

  // ---------------------------------------------------------------- adding an unknown address

  /** The address leads to an entry. */
  ghost predicate Found(t: Tables, a: NetAddr) { a in t.addrIds && t.addrIds[a] in t.info }

  /** An entry without references, as creation leaves it. */
  ghost predicate Blank(t: Tables, i: Info) {
    i.refCount == 0 && !i.inTried && i.randomPos == |t.random| && TimesOk(i)
  }

  lemma CreatedIsSafe(t: Tables, i: Info)
    requires Core(t, {}) && i.randomPos == |t.random|
    ensures Safe(Created(t, i)) && Safe(Promised(Created(t, i), t.idCount))
  {
    CoreIsSafe(t, {});
  }

  /** The tables after an unknown address was added with blank entry `i` to new bucket `b`, `v` making
    * room when that is full. An id that is in the bucket already gets no reference. */
  ghost function Addition(t: Tables, i: Info, b: nat, v: int): Tables
    requires Core(t, {}) && Blank(t, i) && b < |t.untried|
    requires |t.untried[b]| == NEW_BUCKET_SIZE ==> v in t.untried[b]
  {
    CreatedIsSafe(t, i);
    var n := t.idCount;
    if n in t.untried[b] then Created(t, i) else Filing(Promised(Created(t, i), n), n, b, v)
  }

  /** `t'` is `t` with a new entry for `a`: made under the next id and filed in the bucket of its address
    * and source, from which one id `v` goes first if it is full. */
  ghost predicate IsAddition(o: Oracle, key: seq<nat>, t: Tables, t': Tables, a: Address, source: NetAddr,
                             penalty: int)
    requires Core(t, {}) && Sized(t)
  {
    var i, b := FirstInfo(t, a, source, penalty), NewBucket(o, key, a.service, source);
    exists v: int :: (|t.untried[b]| == NEW_BUCKET_SIZE ==> v in t.untried[b]) && t' == Addition(t, i, b, v)
  }

  lemma AdditionSized(t: Tables, i: Info, b: nat, v: int)
    requires Core(t, {}) && Blank(t, i) && b < |t.untried| && (|t.untried[b]| == NEW_BUCKET_SIZE ==> v in t.untried[b])
    ensures |Addition(t, i, b, v).tried| == |t.tried| && |Addition(t, i, b, v).untried| == |t.untried|
  {
    CreatedIsSafe(t, i);
  }

  /** From a state that passes the check, adding an unknown address passes again exactly when the next
    * id is unused and no entry has that address. */
  lemma AdditionChecks(o: Oracle, key: seq<nat>, t: Tables, i: Info, b: nat, v: int)
    requires CheckPasses(t) && !Found(t, i.service.net) && Blank(t, i) && b < |t.untried|
    requires |t.untried[b]| == NEW_BUCKET_SIZE ==> v in t.untried[b]
    ensures CheckPasses(Addition(t, i, b, v)) <==> t.idCount !in t.info && Unused(t.info, i.service.net)
  {
    if t.idCount in t.info {
      ClashFails(t, i, b, v);
    } else if !Unused(t.info, i.service.net) {
      MissingKeyFails(t, i, b, v);
    } else {
      UnusedIdPasses(o, key, t, i, b, v);
    }
  }

  lemma UnusedIdPasses(o: Oracle, key: seq<nat>, t: Tables, i: Info, b: nat, v: int)
    requires CheckPasses(t) && t.idCount !in t.info && Unused(t.info, i.service.net) && Blank(t, i) && b < |t.untried|
    requires |t.untried[b]| == NEW_BUCKET_SIZE ==> v in t.untried[b]
    ensures t.idCount !in t.untried[b]
    ensures Promised(Created(t, i), t.idCount) == Created(t, i.(refCount := 1))
    ensures CheckPasses(Addition(t, i, b, v))
    ensures Sound(o, key, t) ==>
      && Sound(o, key, Addition(t, i, b, v))
      && Filed(Created(t, i.(refCount := 1)), Addition(t, i, b, v), t.idCount, b)
  {
    var j, n := i.(refCount := 1), t.idCount;
    CreateKeeps(o, key, t, j);
    CreatedTimes(t, j);
    Unfiled(t.untried, n);
    PromisedCreation(t, i);
    FilingKeeps(o, key, Created(t, j), n, b, v);
  }

  lemma PromisedCreation(t: Tables, i: Info)
    requires i.refCount == 0
    ensures Promised(Created(t, i), t.idCount) == Created(t, i.(refCount := 1))
  {
    assert Created(t, i).info[t.idCount := i.(refCount := 1)] == Created(t, i.(refCount := 1)).info;
  }

  /** Sizes decide it: the clash leaves one more random place than there are entries. */
  lemma ClashFails(t: Tables, i: Info, b: nat, v: int)
    requires Core(t, {}) && t.idCount in t.info && Blank(t, i) && b < |t.untried|
    requires |t.untried[b]| == NEW_BUCKET_SIZE ==> v in t.untried[b]
    ensures !CheckPasses(Addition(t, i, b, v))
  {
    var t' := Addition(t, i, b, v);
    if t.idCount in t.untried[b] {
      assert t'.info[t.idCount].refCount == 0 && !EntryOk(t'.info[t.idCount]);
    } else {
      ClashSizes(t, i, b, v);
      if CheckPasses(t') { CountedIsListed(t', {}); }
    }
  }

  lemma ClashSizes(t: Tables, i: Info, b: nat, v: int)
    requires Core(t, {}) && t.idCount in t.info && Blank(t, i) && b < |t.untried| && t.idCount !in t.untried[b]
    requires |t.untried[b]| == NEW_BUCKET_SIZE ==> v in t.untried[b]
    ensures |Addition(t, i, b, v).random| > |Addition(t, i, b, v).info|
  {
    CountedIsListed(t, {});
    CreatedIsSafe(t, i);
    var t1 := Promised(Created(t, i), t.idCount);
    assert t1.info.Keys == t.info.Keys;
    SameKeys(t1.info, t.info);
    if |t1.untried[b]| == NEW_BUCKET_SIZE { UnlinkSizes(t1, b, v); }
  }

  lemma UnlinkSizes(t: Tables, b: nat, v: int)
    requires Safe(t) && b < |t.untried| && v in t.info
    ensures |Unlinked(t, b, v).random| - |Unlinked(t, b, v).info| == |t.random| - |t.info|
  {
    if t.info[v].refCount == 1 {
      DeletedSizes(SwappedPlaces(t, t.info[v].randomPos, |t.random| - 1), b, v);
      SwapSizes(t, t.info[v].randomPos, |t.random| - 1);
    } else {
      assert Dropped(t, b, v).info.Keys == t.info.Keys;
      SameKeys(Dropped(t, b, v).info, t.info);
    }
  }

  lemma SameKeys(a: map<int, Info>, b: map<int, Info>)
    requires a.Keys == b.Keys
    ensures |a| == |b|
  {
    assert |a| == |a.Keys| && |b| == |b.Keys|;
  }

  lemma SwapSizes(t: Tables, i: nat, j: nat)
    requires i < |t.random| && j < |t.random| && t.random[i] in t.info && t.random[j] in t.info
    ensures |SwappedPlaces(t, i, j).random| == |t.random| && |SwappedPlaces(t, i, j).info| == |t.info|
  {
    SameKeys(SwappedPlaces(t, i, j).info, t.info);
  }

  lemma DeletedSizes(t: Tables, b: nat, v: int)
    requires b < |t.untried| && v in t.info && |t.random| > 0
    ensures |Deleted(t, b, v).random| == |t.random| - 1 && |Deleted(t, b, v).info| == |t.info| - 1
  {
    var info' := t.info - {v};
    assert info'.Keys == t.info.Keys - {v};
    assert |info'| == |info'.Keys| && |t.info| == |t.info.Keys|;
  }

  /** An address that is missing in the index though an entry has it leads to two entries with one
    * address, of which the index can name only one. */
  lemma MissingKeyFails(t: Tables, i: Info, b: nat, v: int)
    requires Core(t, {}) && !Found(t, i.service.net) && !Unused(t.info, i.service.net) && t.idCount !in t.info
    requires Blank(t, i) && b < |t.untried|
    requires |t.untried[b]| == NEW_BUCKET_SIZE ==> v in t.untried[b]
    ensures !CheckPasses(Addition(t, i, b, v))
  {
    var a, n := i.service.net, t.idCount;
    var m :| m in t.info && t.info[m].service.net == a;
    assert m == 0 && a !in t.addrIds;
    assert NewShare(t.info, n) == CountNew(t.untried, n);
    Unfiled(t.untried, n);
    CreatedIsSafe(t, i);
    var t1 := Promised(Created(t, i), n);
    var t' := Addition(t, i, b, v);
    assert t1.info[m].service.net == a == t1.info[n].service.net && t1.addrIds[a] == n;
    if |t.untried[b]| == NEW_BUCKET_SIZE { UnlinkShares(t1, b, v, m, n); }
    if CheckPasses(t') && m in t'.info { AddressesDiffer(t'.info, t'.addrIds, m, n); }
  }

  lemma UnlinkShares(t: Tables, b: nat, v: int, m: int, n: int)
    requires Safe(t) && b < |t.untried| && v in t.info && m in t.info && n in t.info && m != n && v != n
    requires t.info[m].service.net == t.info[n].service.net
    ensures
      var t' := Unlinked(t, b, v);
      && n in t'.info && t'.info[n].service == t.info[n].service
      && (m in t'.info ==> t'.info[m].service == t.info[m].service)
      && (m !in t'.info ==> t.info[n].service.net !in t'.addrIds)
  {
  }

  /** When an announcement leaves a state that passes the check. */
  ghost predicate AddPasses(o: Oracle, t: Tables, a: Address) {
    || !o.routable(a.service) || Found(t, a.service.net)
    || (t.idCount !in t.info && Unused(t.info, a.service.net))
  }

  /** Two versions of an entry that differ in where it is filed only. */
  ghost predicate SameButFiling(i: Info, j: Info) { i == j.(refCount := i.refCount, randomPos := i.randomPos) }

  /** Entry `n` took in an announcement, and may have got a reference; the tried table is untouched. */
  ghost predicate Announced(t: Tables, t': Tables, n: int, a: Address, penalty: int, now: int) {
    && t'.tried == t.tried && t'.triedCount == t.triedCount
    && n in t.info && n in t'.info && SameButFiling(t'.info[n], Refreshed(t.info[n], a, penalty, now))
    && t.info[n].refCount <= t'.info[n].refCount <= t.info[n].refCount + 1
  }

  /** Filing leaves the entry that is filed as it was. */
  lemma FilingSpares(t: Tables, n: int, b: nat, v: int)
    requires Safe(t) && n in t.info && b < |t.untried| && n !in t.untried[b]
    requires |t.untried[b]| == NEW_BUCKET_SIZE ==> v in t.untried[b]
    ensures
      var t' := Filing(t, n, b, v);
      && t'.tried == t.tried && t'.triedCount == t.triedCount
      && n in t'.info && SameButPosition(t'.info[n], t.info[n]) && n in t'.untried[b] && |t'.untried| == |t.untried|
  {
    if |t.untried[b]| == NEW_BUCKET_SIZE { UnlinkSpares(t, b, v, n); }
  }

  lemma UnlinkSpares(t: Tables, b: nat, v: int, n: int)
    requires Safe(t) && b < |t.untried| && v in t.info && n in t.info && v != n
    ensures
      var t' := Unlinked(t, b, v);
      && t'.tried == t.tried && t'.triedCount == t.triedCount && |t'.untried| == |t.untried|
      && n in t'.info && SameButPosition(t'.info[n], t.info[n])
  {
  }

  /** The tables after entry `n` was given new bucket `b`, unless it is there already. */
  ghost function Referenced(t: Tables, n: int, b: nat, v: int): Tables
    requires Safe(t) && n in t.info && b < |t.untried|
    requires |t.untried[b]| == NEW_BUCKET_SIZE ==> v in t.untried[b]
  {
    PromisedIsSafe(t, n);
    if n in t.untried[b] then t else Filing(Promised(t, n), n, b, v)
  }

  lemma PromisedIsSafe(t: Tables, n: int)
    requires Safe(t) && n in t.info
    ensures Safe(Promised(t, n))
  {
  }

  lemma ReferenceKeeps(o: Oracle, key: seq<nat>, t: Tables, n: int, b: nat, v: int)
    requires CheckPasses(t) && n in t.info && !t.info[n].inTried && t.info[n].refCount < NEW_BUCKETS_PER_ADDRESS
    requires b < |t.untried| && (|t.untried[b]| == NEW_BUCKET_SIZE ==> v in t.untried[b])
    ensures Safe(t) && CheckPasses(Referenced(t, n, b, v))
    ensures Sound(o, key, t) ==> Sound(o, key, Referenced(t, n, b, v))
  {
    CoreIsSafe(t, {});
    if n !in t.untried[b] {
      PromiseKeeps(o, key, t, n);
      FilingKeeps(o, key, Promised(t, n), n, b, v);
    }
  }

  lemma ReferenceSpares(t: Tables, n: int, b: nat, v: int)
    requires Safe(t) && n in t.info && b < |t.untried|
    requires |t.untried[b]| == NEW_BUCKET_SIZE ==> v in t.untried[b]
    ensures
      var t' := Referenced(t, n, b, v);
      && t'.tried == t.tried && t'.triedCount == t.triedCount && n in t'.info && SameButFiling(t'.info[n], t.info[n])
      && t.info[n].refCount <= t'.info[n].refCount <= t.info[n].refCount + 1 && n in t'.untried[b]
      && |t'.untried| == |t.untried|
  {
    if n !in t.untried[b] {
      PromisedIsSafe(t, n);
      FilingSpares(Promised(t, n), n, b, v);
    }
  }

  lemma ReferenceForgets(o: Oracle, key: seq<nat>, t: Tables, n: int, b: nat, v: int)
    requires Invariant(o, key, t) && n in t.info && !t.info[n].inTried && t.info[n].refCount < NEW_BUCKETS_PER_ADDRESS
    requires b < |t.untried| && (|t.untried[b]| == NEW_BUCKET_SIZE ==> v in t.untried[b])
    ensures Safe(t) && Forgets(t, Referenced(t, n, b, v), n)
    ensures Referenced(t, n, b, v).addrIds.Keys <= t.addrIds.Keys
    ensures t.info[n].service.net in Referenced(t, n, b, v).addrIds
  {
    CoreIsSafe(t, {});
    if n in t.untried[b] {
      NothingForgotten(t, t, n);
    } else {
      PromiseKeeps(o, key, t, n);
      FilingKeeps(o, key, Promised(t, n), n, b, v);
      FiledFromPromise(t, Referenced(t, n, b, v), n, b);
    }
  }

  lemma RefreshKeeps(o: Oracle, key: seq<nat>, t: Tables, t1: Tables, n: int, a: Address, penalty: int, now: int)
    requires CheckPasses(t) && n in t.info && t1 == t.(info := t.info[n := Refreshed(t.info[n], a, penalty, now)])
    ensures CheckPasses(t1) && (Sound(o, key, t) ==> Sound(o, key, t1))
  {
    assert TimesOk(t.info[n]);
    StatisticsKeep(o, key, t, n, Refreshed(t.info[n], a, penalty, now));
    StatisticsTimes(t.info, n, Refreshed(t.info[n], a, penalty, now));
  }

  /** An announcement of a known address, with or without another bucket for its entry. */
  ghost predicate Announcement(t: Tables, t1: Tables, t': Tables, n: int, a: Address, penalty: int, now: int,
                               go: bool, b: nat, v: int) {
    && n in t.info && t1 == t.(info := t.info[n := Refreshed(t.info[n], a, penalty, now)])
    && (!go ==> t' == t1)
    && (go ==>
          && !t.info[n].inTried && t.info[n].refCount < NEW_BUCKETS_PER_ADDRESS
          && Safe(t1) && b < |t1.untried| && (|t1.untried[b]| == NEW_BUCKET_SIZE ==> v in t1.untried[b])
          && t' == Referenced(t1, n, b, v))
  }

  /** An announcement earns a not yet tried entry a reference when it is newer than what is known, fewer
    * than four references are there, and the draw is zero. */
  predicate Earns(i: Info, a: Address, draw: nat) {
    a.time != 0 && (i.time == 0 || i.time < a.time) && !i.inTried && i.refCount != NEW_BUCKETS_PER_ADDRESS && draw == 0
  }

  /** `t'` is `t` after an announcement of the address of entry `n`: refreshed, and given a reference in the
    * bucket of its address and the source if it earned one, at odds of one in two to the number of its
    * references. */
  ghost predicate IsAnnouncement(o: Oracle, key: seq<nat>, t: Tables, t': Tables, n: int, a: Address, source: NetAddr,
                                 penalty: int, now: int, luck: nat, v: int) {
    && n in t.info && t.info[n].refCount >= 0
    && var b := NewBucket(o, key, t.info[n].service, source);
       Announcement(t, t.(info := t.info[n := Refreshed(t.info[n], a, penalty, now)]), t', n, a, penalty, now,
                    Earns(Refreshed(t.info[n], a, penalty, now), a, luck % Power2(t.info[n].refCount)), b, v)
  }

  /** What an announcement does to the time of an entry: nothing if it is at most an hour newer, everything
    * if it is more than a day newer, always less the penalty, and never a step back. */
  lemma RefreshedTime(i: Info, a: Address, penalty: nat, now: int)
    requires a.time < 0x1_0000_0000
    ensures
      var time := Refreshed(i, a, penalty, now).time;
      && Refreshed(i, a, penalty, now) == i.(time := time, services := i.services + a.services)
      && i.time <= time
      && (a.time <= i.time + penalty + 3600 && i.time != 0 ==> time == i.time)
      && (a.time > i.time + penalty + 86400 ==> time == a.time - penalty)
      && (time != i.time ==> time == if a.time > penalty then a.time - penalty else 0)
      && (a.time <= i.time + penalty + 86400 && i.time != 0 && now - a.time >= 86400 ==> time == i.time)
  {
  }

  lemma AnnouncementKeeps(o: Oracle, key: seq<nat>, t: Tables, t1: Tables, t': Tables, n: int, a: Address,
                          source: NetAddr,
                          penalty: int, now: int, go: bool, b: nat, v: int)
    requires CheckPasses(t) && Sized(t) && Announcement(t, t1, t', n, a, penalty, now, go, b, v)
    requires a.service.net in t.addrIds && t.addrIds[a.service.net] == n
    ensures CheckPasses(t') && Sized(t') && Announced(t, t', n, a, penalty, now)
    ensures Invariant(o, key, t) ==> Invariant(o, key, t') && Remembered(o, key, t, t', a, source, penalty)
  {
    RefreshKeeps(o, key, t, t1, n, a, penalty, now);
    if go {
      ReferenceKeeps(o, key, t1, n, b, v);
      ReferenceSpares(t1, n, b, v);
    }
    if Invariant(o, key, t) { AnnouncementRemembers(o, key, t, t1, t', n, a, source, penalty, now, go, b, v); }
  }

  lemma AnnouncementRemembers(o: Oracle, key: seq<nat>, t: Tables, t1: Tables, t': Tables, n: int, a: Address,
                              source: NetAddr,
                              penalty: int, now: int, go: bool, b: nat, v: int)
    requires Invariant(o, key, t) && Invariant(o, key, t1) && Announcement(t, t1, t', n, a, penalty, now, go, b, v)
    requires a.service.net in t.addrIds && t.addrIds[a.service.net] == n
    ensures Remembered(o, key, t, t', a, source, penalty)
  {
    if go {
      ReferenceForgets(o, key, t1, n, b, v);
      ReferenceSpares(t1, n, b, v);
    } else {
      NothingForgotten(t1, t1, n);
    }
    KnownRemembered(o, key, t, t1, t', n, a, source, penalty);
  }

  lemma KnownRemembered(o: Oracle, key: seq<nat>, t: Tables, t1: Tables, t': Tables, n: int, a: Address,
                        source: NetAddr, penalty: int)
    requires a.service.net in t.addrIds && t.addrIds[a.service.net] == n && n in t.info
    requires t1.addrIds == t.addrIds && SameStanding(t.info, t1.info)
    requires Forgets(t1, t', n) && t'.addrIds.Keys <= t.addrIds.Keys
    requires t'.tried == t.tried && t'.triedCount == t.triedCount && a.service.net in t'.addrIds
    ensures Remembered(o, key, t, t', a, source, penalty)
  {
    ForgetsFromSame(t, t1, t', n);
  }

  /** What an addition to a consistent manager does to the known addresses: at most one is forgotten,
    * never a tried one nor the one being added, and at most that one is new. */
  ghost predicate Remembered(o: Oracle, key: seq<nat>, t: Tables, t': Tables, a: Address, source: NetAddr,
                             penalty: int) {
    && t'.tried == t.tried && t'.triedCount == t.triedCount
    && t'.addrIds.Keys <= t.addrIds.Keys + {a.service.net}
    && |t.addrIds.Keys - t'.addrIds.Keys| <= 1
    && (forall x :: x in t.addrIds && x !in t'.addrIds ==>
          x != a.service.net && t.addrIds[x] in t.info && !t.info[t.addrIds[x]].inTried)
    && (o.routable(a.service) ==> a.service.net in t'.addrIds)
    && (o.routable(a.service) && a.service.net !in t.addrIds ==> Learned(o, key, t, t', a, source, penalty))
  }

  // ---------------------------------------------------------------- searching the buckets

  /** Every tried entry is found where its hash says. */
  lemma TriedWhere(o: Oracle, key: seq<nat>, t: Tables, n: int)
    requires Structured(o, key, t, {}) && n in t.info && t.info[n].inTried
    ensures n in t.tried[TriedBucket(o, key, t.info[n].service)]
  {
    assert TriedShare(t.info, n) == 1;
    var b, i := CountTriedWitness(t.tried, n);
  }

  /** The i-th bucket visited by a search that starts at `start` and wraps around once:
    * `i + start` reduced modulo the number of buckets. */
  function Visited(i: nat, start: nat, count: nat): (b: nat)
    requires i < count && start < count
    ensures b < count
  {
    if i + start < count then i + start else i + start - count
  }

  lemma VisitsAll(b: nat, start: nat, count: nat) returns (i: nat)
    requires b < count && start < count
    ensures i < count && Visited(i, start, count) == b
  {
    i := if b >= start then b - start else b - start + count;
  }

  /** A search over all new buckets, from any starting point, finds an entry that is not tried. */
  lemma NotNowhere(t: Tables, n: int, start: nat)
    requires Counted(t, {}) && n in t.info && !t.info[n].inTried && start < |t.untried|
    ensures exists i :: 0 <= i < |t.untried| && n in t.untried[Visited(i, start, |t.untried|)]
  {
    assert EntryOk(t.info[n]);
    assert NewShare(t.info, n) == CountNew(t.untried, n) >= 1;
    var b := CountNewWitness(t.untried, n);
    var i := VisitsAll(b, start, |t.untried|);
  }

  lemma DistinctAddresses(t: Tables)
    requires Core(t, {})
    ensures Listed(t.info, t.random)
    ensures forall i, j :: 0 <= i < j < |t.random| ==>
      t.info[t.random[i]].service.net != t.info[t.random[j]].service.net
  {
    CountedIsListed(t, {});
    forall i, j | 0 <= i < j < |t.random|
      ensures t.info[t.random[i]].service.net != t.info[t.random[j]].service.net
    {
      var m, n := t.random[i], t.random[j];
      assert t.info[m].randomPos == i && t.info[n].randomPos == j;
      AddressesDiffer(t.info, t.addrIds, m, n);
    }
  }
}
