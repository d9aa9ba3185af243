/** Writing the address manager to disk and reading it back (src/addrman.h, the serializer).
  * The file keeps neither the ids, nor the random order, nor the tried buckets, nor the address
  * index; reading rebuilds them.
  */
module AddrDisk {
  import opened Sets
  import opened AddrTables
  import opened AddrManager

  /** The part of an entry that is written. */
  datatype DiskInfo = DiskInfo(
    service: Service, services: set<nat>, time: nat, source: NetAddr, lastSuccess: int, attempts: int)

  function ToDisk(i: Info): DiskInfo {
    DiskInfo(i.service, i.services, i.time, i.source, i.lastSuccess, i.attempts)
  }

  /** A default-constructed entry, filled from the file. */
  function FromDisk(d: DiskInfo): Info {
    Info(d.service, d.services, d.time, d.source, d.lastSuccess, 0, d.attempts, 0, false, -1)
  }

  const BLANK: Info := Info(Service(NetAddr(0), 0), {}, 0, NetAddr(0), 0, 0, 0, 0, false, -1)

  datatype Stream = Stream(
    version: nat, key: seq<nat>, newCount: nat, triedCount: nat, bucketCount: nat,
    newInfos: seq<DiskInfo>, triedInfos: seq<DiskInfo>, buckets: seq<seq<int>>)

  /** A complete stream written with the compiled-in number of buckets. */
  predicate WellFormed(s: Stream) {
    && |s.newInfos| == s.newCount && |s.triedInfos| == s.triedCount
    && |s.buckets| == s.bucketCount == NEW_BUCKET_COUNT
  }

  // ---------------------------------------------------------------- writing

  ghost predicate Distinct(q: seq<int>) { forall i, j :: 0 <= i < j < |q| ==> q[i] != q[j] }

  ghost predicate Enumerates(q: seq<int>, s: set<int>) {
    Distinct(q) && |q| == |s| && forall n :: n in q <==> n in s
  }

  /** `s` is what writing `t` produces, visiting the new entries and the tried entries in the
    * given orders. */
  ghost predicate Saves(key: seq<nat>, t: Tables, s: Stream, newOrder: seq<int>, triedOrder: seq<int>) {
    && WellFormed(s) && s.key == key
    && s.newCount == t.newCount && s.triedCount == t.triedCount
    && Enumerates(newOrder, NewIds(t.info)) && Enumerates(triedOrder, TriedIds(t.info))
    && |newOrder| == s.newCount && |triedOrder| == s.triedCount
    && (forall k :: 0 <= k < |newOrder| ==>
          newOrder[k] in t.info && s.newInfos[k] == ToDisk(t.info[newOrder[k]]))
    && (forall k :: 0 <= k < |triedOrder| ==>
          triedOrder[k] in t.info && s.triedInfos[k] == ToDisk(t.info[triedOrder[k]]))
    && |s.buckets| == |t.untried|
    && forall b :: 0 <= b < |s.buckets| ==> Lists(s.buckets[b], newOrder, t.untried[b])
  }

  /** `xs` names the members of `bucket`, each once, by their place in `order`. */
  ghost predicate Lists(xs: seq<int>, order: seq<int>, bucket: set<int>) {
    && Distinct(xs) && |xs| == |bucket|
    && (forall x :: x in xs ==> 0 <= x < |order| && order[x] in bucket)
    && forall n :: n in bucket ==> exists x :: x in xs && 0 <= x < |order| && order[x] == n
  }

  /** The writing loops over the entries: all those that are tried, or all those that are not. */
  method Collect(am: AddrMan, wantTried: bool, limit: int)
    returns (infos: seq<DiskInfo>, order: seq<int>, index: map<int, int>)
    requires am.Valid() && limit == if wantTried then am.triedCount else am.newCount
    ensures Enumerates(order, if wantTried then TriedIds(am.info) else NewIds(am.info))
    ensures |infos| == |order| == limit
    ensures forall k :: 0 <= k < |order| ==> order[k] in am.info && infos[k] == ToDisk(am.info[order[k]])
    ensures forall k :: 0 <= k < |order| ==> order[k] in index && index[order[k]] == k
  {
    infos, order, index := [], [], map[];
    ghost var wanted := if wantTried then TriedIds(am.info) else NewIds(am.info);
    var ids := Ascending(am.info.Keys);
    var nIds := 0;
    for k := 0 to |ids|
      invariant nIds == |order| <= limit && Gathered(am.info, wanted, ids[..k], infos, order, index)
    {
      if nIds == limit {
        AllCollected(order, wanted);
        return;
      }
      var n := ids[k];
      NextIsNew(ids, k);
      GatheredNext(am.info, wanted, ids[..k], infos, order, index, n);
      index := index[n := nIds];
      assert EntryOk(am.info[n]);
      if if wantTried then am.info[n].inTried else am.info[n].refCount != 0 {
        infos := infos + [ToDisk(am.info[n])];
        order := order + [n];
        nIds := nIds + 1;
      }
    }
    assert ids[..|ids|] == ids;
    GatheredAll(am.info, wanted, ids, infos, order, index);
  }

  lemma GatheredAll(info: map<int, Info>, wanted: set<int>, ids: seq<int>, infos: seq<DiskInfo>, order: seq<int>,
                    index: map<int, int>)
    requires Gathered(info, wanted, ids, infos, order, index) && wanted <= info.Keys
    requires forall n :: n in ids <==> n in info.Keys
    ensures Enumerates(order, wanted)
  {
    forall n ensures n in order <==> n in wanted { assert n in wanted ==> n in info.Keys; }
    DistinctCard(order, wanted);
  }

  /** Of the entries seen, those wanted are in `order`, with their records and places. */
  ghost predicate Gathered(info: map<int, Info>, wanted: set<int>, seen: seq<int>, infos: seq<DiskInfo>,
                           order: seq<int>, index: map<int, int>) {
    && |infos| == |order| && Distinct(order)
    && (forall n :: n in order <==> n in seen && n in wanted)
    && (forall j :: 0 <= j < |order| ==> order[j] in info && infos[j] == ToDisk(info[order[j]]))
    && forall j :: 0 <= j < |order| ==> order[j] in index && index[order[j]] == j
  }

  lemma GatheredNext(info: map<int, Info>, wanted: set<int>, seen: seq<int>, infos: seq<DiskInfo>, order: seq<int>,
                     index: map<int, int>, n: int)
    requires Gathered(info, wanted, seen, infos, order, index) && n in info && n !in seen
    ensures
      var index' := index[n := |order|];
      if n in wanted then Gathered(info, wanted, seen + [n], infos + [ToDisk(info[n])], order + [n], index')
      else Gathered(info, wanted, seen + [n], infos, order, index')
  {
    forall j | 0 <= j < |order| ensures order[j] != n { assert order[j] in order; }
  }

  lemma {:induction false} DistinctCard(q: seq<int>, s: set<int>)
    requires Distinct(q) && forall n :: n in q <==> n in s
    ensures |q| == |s|
    decreases |q|
  {
    if q == [] {
      if s != {} { var n := Member(s); }
    } else {
      var last := q[|q| - 1];
      var rest := q[..|q| - 1];
      assert q == rest + [last];
      DistinctCard(rest, s - {last});
    }
  }

  lemma AllCollected(q: seq<int>, s: set<int>)
    requires Distinct(q) && |q| == |s| && forall n :: n in q ==> n in s
    ensures Enumerates(q, s)
  {
    DistinctCard(q, Elements(q));
    SubsetFull(Elements(q), s);
  }

  method Write(am: AddrMan) returns (s: Stream)
    requires am.Valid()
    ensures s.version == 0
    ensures exists newOrder, triedOrder :: Saves(am.key, am.View(), s, newOrder, triedOrder)
  {
    var newInfos, order, unkIds := Collect(am, false, am.newCount);
    var triedInfos, order', unused := Collect(am, true, am.triedCount);
    var buckets := [];
    for b := 0 to |am.untried|
      invariant |buckets| == b
      invariant forall c :: 0 <= c < b ==> Lists(buckets[c], order, am.untried[c])
    {
      InBucket(am.o, am.key, am.View(), b);
      var xs := WriteBucket(am.untried[b], order, unkIds);
      buckets := buckets + [xs];
    }
    s := Stream(0, am.key, am.newCount, am.triedCount, NEW_BUCKET_COUNT, newInfos, triedInfos, buckets);
    assert Saves(am.key, am.View(), s, order, order');
  }

  lemma InBucket(o: Oracle, key: seq<nat>, t: Tables, b: nat)
    requires Structured(o, key, t, {}) && b < |t.untried|
    ensures t.untried[b] <= NewIds(t.info)
  {
    forall n | n in t.untried[b] ensures n in NewIds(t.info) {
      CountNewPositive(t.untried, b, n);
      assert NewShare(t.info, n) > 0;
    }
  }

  method WriteBucket(bucket: set<int>, order: seq<int>, unkIds: map<int, int>) returns (xs: seq<int>)
    requires forall k :: 0 <= k < |order| ==> order[k] in unkIds && unkIds[order[k]] == k
    requires forall n :: n in bucket ==> n in order
    ensures Lists(xs, order, bucket)
  {
    var q := Ascending(bucket);
    xs := [];
    for i := 0 to |q|
      invariant |xs| == i
      invariant forall j :: 0 <= j < i ==> 0 <= xs[j] < |order| && order[xs[j]] == q[j]
    {
      assert q[i] in q && q[i] in order;
      ghost var k :| 0 <= k < |order| && order[k] == q[i];
      xs := xs + [unkIds[q[i]]];
    }
    forall n | n in bucket ensures exists x :: x in xs && 0 <= x < |order| && order[x] == n {
      assert n in q;
      var j :| 0 <= j < |q| && q[j] == n;
      assert xs[j] in xs;
    }
  }

  // ---------------------------------------------------------------- reading

  function Cleared(s: Stream): Tables {
    Tables(0, map[], map[], [], s.triedCount, seq(TRIED_BUCKET_COUNT, _ => []), s.newCount, seq(NEW_BUCKET_COUNT,
      _ => {}))
  }

  /** Entry `i` appended under id `n`. */
  function Appended(t: Tables, n: int, i: Info): Tables {
    t.(info := t.info[n := i.(randomPos := |t.random|)],
       addrIds := t.addrIds[i.service.net := n],
       random := t.random + [n])
  }

  /** After the first `k` new entries have been read. */
  function AfterNew(s: Stream, k: nat): (t: Tables)
    requires k <= |s.newInfos|
    ensures |t.tried| == TRIED_BUCKET_COUNT && |t.untried| == NEW_BUCKET_COUNT
  {
    if k == 0 then Cleared(s) else Appended(AfterNew(s, k - 1), k - 1, FromDisk(s.newInfos[k - 1]))
  }

  function AllNewRead(s: Stream): Tables
    requires WellFormed(s)
  {
    AfterNew(s, |s.newInfos|).(idCount := s.newCount)
  }

  /** One tried entry read: appended to its bucket, or lost when that is full. */
  function TriedRead(o: Oracle, key: seq<nat>, t: Tables, lost: nat, d: DiskInfo): (Tables, nat)
    requires |t.tried| == TRIED_BUCKET_COUNT
  {
    var b := TriedBucket(o, key, d.service);
    if |t.tried[b]| < TRIED_BUCKET_SIZE then
      (Appended(t, t.idCount, FromDisk(d).(inTried := true)).
         (tried := t.tried[b := t.tried[b] + [t.idCount]], idCount := t.idCount + 1),
       lost)
    else (t, lost + 1)
  }

  function AllTriedRead(o: Oracle, key: seq<nat>, t: Tables, infos: seq<DiskInfo>): (r: (Tables, nat))
    requires |t.tried| == TRIED_BUCKET_COUNT
    ensures |r.0.tried| == TRIED_BUCKET_COUNT && |r.0.untried| == |t.untried|
  {
    if infos == [] then (t, 0)
    else
      var (t', lost) := AllTriedRead(o, key, t, infos[..|infos| - 1]);
      TriedRead(o, key, t', lost, infos[|infos| - 1])
  }

  /** One index read for bucket `b`; an unknown index makes a blank entry, as the source's map does. */
  function IndexRead(t: Tables, b: nat, x: int): (t': Tables)
    requires b < |t.untried|
    ensures |t'.untried| == |t.untried|
  {
    var i := if x in t.info then t.info[x] else BLANK;
    if i.refCount < NEW_BUCKETS_PER_ADDRESS then
      t.(info := t.info[x := i.(refCount := i.refCount + 1)], untried := t.untried[b := t.untried[b] + {x}])
    else t.(info := t.info[x := i])
  }

  function BucketRead(t: Tables, b: nat, xs: seq<int>): (t': Tables)
    requires b < |t.untried|
    ensures |t'.untried| == |t.untried|
  {
    if xs == [] then t else IndexRead(BucketRead(t, b, xs[..|xs| - 1]), b, xs[|xs| - 1])
  }

  function BucketsRead(t: Tables, buckets: seq<seq<int>>): (t': Tables)
    requires |buckets| <= |t.untried|
    ensures |t'.untried| == |t.untried|
  {
    if buckets == [] then t
    else BucketRead(BucketsRead(t, buckets[..|buckets| - 1]), |buckets| - 1, buckets[|buckets| - 1])
  }

  /** The tables a stream stands for, and how many tried entries did not fit. */
  function Loaded(o: Oracle, s: Stream): (Tables, nat)
    requires WellFormed(s)
  {
    var (t, lost) := AllTriedRead(o, s.key, AllNewRead(s), s.triedInfos);
    (BucketsRead(t.(triedCount := t.triedCount - lost), s.buckets), lost)
  }

  method Read(am: AddrMan, s: Stream) returns (lost: nat)
    requires WellFormed(s)
    modifies am
    ensures (am.View(), lost) == Loaded(am.o, s) && am.key == s.key
  {
    ReadNew(am, s);
    lost := ReadTried(am, s.triedInfos);
    am.triedCount := am.triedCount - lost;
    ReadBuckets(am, s.buckets);
  }

  method ReadNew(am: AddrMan, s: Stream)
    requires WellFormed(s)
    modifies am
    ensures am.key == s.key && am.View() == AllNewRead(s)
  {
    am.key, am.newCount, am.triedCount := s.key, s.newCount, s.triedCount;
    am.idCount, am.info, am.addrIds, am.random := 0, map[], map[], [];
    am.tried := seq(TRIED_BUCKET_COUNT, _ => []);
    am.untried := seq(NEW_BUCKET_COUNT, _ => {});
    for n := 0 to am.newCount
      invariant am.key == s.key && am.newCount == s.newCount && am.View() == AfterNew(s, n)
    {
      var i := FromDisk(s.newInfos[n]);
      am.info := am.info[n := i.(randomPos := |am.random|)];
      am.addrIds := am.addrIds[i.service.net := n];
      am.random := am.random + [n];
    }
    am.idCount := am.newCount;
  }

  method ReadTried(am: AddrMan, infos: seq<DiskInfo>) returns (lost: nat)
    requires |am.tried| == TRIED_BUCKET_COUNT
    modifies am`idCount, am`info, am`addrIds, am`random, am`tried
    ensures am.View() == AllTriedRead(am.o, am.key, old(am.View()), infos).0
    ensures lost == AllTriedRead(am.o, am.key, old(am.View()), infos).1
  {
    lost := 0;
    ghost var t0 := am.View();
    for n := 0 to |infos|
      invariant |am.tried| == TRIED_BUCKET_COUNT
      invariant am.View() == AllTriedRead(am.o, am.key, t0, infos[..n]).0
      invariant lost == AllTriedRead(am.o, am.key, t0, infos[..n]).1
    {
      assert infos[..n + 1][..n] == infos[..n];
      lost := ReadTriedEntry(am, infos[n], lost);
    }
    assert infos[..|infos|] == infos;
  }

  method ReadTriedEntry(am: AddrMan, d: DiskInfo, lost: nat) returns (lost': nat)
    requires |am.tried| == TRIED_BUCKET_COUNT
    modifies am`idCount, am`info, am`addrIds, am`random, am`tried
    ensures am.View() == TriedRead(am.o, am.key, old(am.View()), lost, d).0
    ensures lost' == TriedRead(am.o, am.key, old(am.View()), lost, d).1
  {
    lost' := lost;
    var i := FromDisk(d);
    var b := TriedBucket(am.o, am.key, i.service);
    if |am.tried[b]| < TRIED_BUCKET_SIZE {
      i := i.(randomPos := |am.random|, inTried := true);
      am.random := am.random + [am.idCount];
      am.info := am.info[am.idCount := i];
      am.addrIds := am.addrIds[i.service.net := am.idCount];
      am.tried := am.tried[b := am.tried[b] + [am.idCount]];
      am.idCount := am.idCount + 1;
    } else {
      lost' := lost' + 1;
    }
  }

  method ReadBuckets(am: AddrMan, buckets: seq<seq<int>>)
    requires |buckets| <= |am.untried|
    modifies am`info, am`untried
    ensures am.View() == BucketsRead(old(am.View()), buckets)
  {
    ghost var t0 := am.View();
    for b := 0 to |buckets|
      invariant |am.untried| == |t0.untried|
      invariant am.View() == BucketsRead(t0, buckets[..b])
    {
      ReadBucket(am, b, buckets[b]);
      assert buckets[..b + 1][..b] == buckets[..b];
    }
    assert buckets[..|buckets|] == buckets;
  }

  method ReadBucket(am: AddrMan, b: nat, xs: seq<int>)
    requires b < |am.untried|
    modifies am`info, am`untried
    ensures am.View() == BucketRead(old(am.View()), b, xs)
  {
    ghost var t0 := am.View();
    for i := 0 to |xs|
      invariant b < |am.untried|
      invariant am.View() == BucketRead(t0, b, xs[..i])
    {
      var x := xs[i];
      assert xs[..i + 1][..i] == xs[..i];
      if x !in am.info { am.info := am.info[x := BLANK]; }
      if am.info[x].refCount < NEW_BUCKETS_PER_ADDRESS {
        am.info := am.info[x := am.info[x].(refCount := am.info[x].refCount + 1)];
        am.untried := am.untried[b := am.untried[b] + {x}];
      }
    }
    assert xs[..|xs|] == xs;
  }
}
