/** The address manager's data: entries, the redundant indexes over them, and the
  * consistency rules that tie the indexes together (src/addrman.h, src/addrman.cpp).
  *
  * Hashing, address grouping and routability are oracles: the results hold for every
  * choice of them.
  */
module AddrTables {
  import opened Sets

  const TRIED_BUCKET_COUNT := 64
  const TRIED_BUCKET_SIZE := 64
  const NEW_BUCKET_COUNT := 256
  const NEW_BUCKET_SIZE := 64
  const TRIED_BUCKETS_PER_GROUP := 4
  const NEW_BUCKETS_PER_SOURCE_GROUP := 32
  const NEW_BUCKETS_PER_ADDRESS := 4
  const TRIED_ENTRIES_INSPECT_ON_EVICT := 4
  const HORIZON_DAYS := 30
  const RETRIES := 3
  const MAX_FAILURES := 10
  const MIN_FAIL_DAYS := 7
  const GETADDR_MAX_PCT := 23
  const GETADDR_MAX := 2500

  /** A network address without its port; the key of the address index. */
  datatype NetAddr = NetAddr(ip: nat)

  datatype Service = Service(net: NetAddr, port: nat)

  /** An address as peers announce it: its service bits as a set of bit positions, its time an
    * unsigned 32-bit number. */
  datatype Address = Address(service: Service, services: set<nat>, time: nat)

  datatype Info = Info(
    service: Service, services: set<nat>, time: nat, source: NetAddr,
    lastSuccess: int, lastTry: int, attempts: int,
    refCount: int, inTried: bool, randomPos: int)

  datatype Oracle = Oracle(
    hash: seq<seq<nat>> -> nat,
    serviceKey: Service -> seq<nat>,
    group: NetAddr -> seq<nat>,
    routable: Service -> bool)

  function TriedBucket(o: Oracle, key: seq<nat>, s: Service): (b: nat)
    ensures b < TRIED_BUCKET_COUNT
  {
    var hash1 := o.hash([key, o.serviceKey(s)]);
    o.hash([key, o.group(s.net), [hash1 % TRIED_BUCKETS_PER_GROUP]]) % TRIED_BUCKET_COUNT
  }

  function NewBucket(o: Oracle, key: seq<nat>, s: Service, source: NetAddr): (b: nat)
    ensures b < NEW_BUCKET_COUNT
  {
    var hash1 := o.hash([key, o.group(s.net), o.group(source)]);
    o.hash([key, o.group(source), [hash1 % NEW_BUCKETS_PER_SOURCE_GROUP]]) % NEW_BUCKET_COUNT
  }

  /** Assignment to an unsigned 32-bit field. */
  function U32(x: int): nat { x % 0x1_0000_0000 }

  /** Whether an entry is bad enough to be dropped outright. */
  predicate IsTerrible(i: Info, now: int) {
    if i.lastTry != 0 && i.lastTry >= now - 60 then false
    else
      || i.time > now + 10 * 60
      || i.time == 0
      || now - i.time > HORIZON_DAYS * 86400
      || (i.lastSuccess == 0 && i.attempts >= RETRIES)
      || (now - i.lastSuccess > MIN_FAIL_DAYS * 86400 && i.attempts >= MAX_FAILURES)
  }

  function NewInfo(a: Address, source: NetAddr): Info {
    Info(a.service, a.services, a.time, source, 0, 0, 0, 0, false, -1)
  }

  // ---------------------------------------------------------------- counting

  /** In how many "new" buckets id `n` occurs. */
  function CountNew(untried: seq<set<int>>, n: int): nat {
    if untried == [] then 0
    else CountNew(untried[..|untried| - 1], n) + (if n in untried[|untried| - 1] then 1 else 0)
  }

  /** How often id `n` occurs in the "tried" buckets. */
  function CountTried(tried: seq<seq<int>>, n: int): nat {
    if tried == [] then 0
    else CountTried(tried[..|tried| - 1], n) + multiset(tried[|tried| - 1])[n]
  }

  lemma {:induction false} CountNewUpdate(untried: seq<set<int>>, b: nat, s: set<int>, n: int)
    requires b < |untried|
    ensures CountNew(untried[b := s], n) ==
            CountNew(untried, n) - (if n in untried[b] then 1 else 0) + (if n in s then 1 else 0)
  {
    var last := |untried| - 1;
    if b == last {
      assert untried[b := s][..last] == untried[..last];
    } else {
      assert untried[b := s][..last] == untried[..last][b := s];
      CountNewUpdate(untried[..last], b, s, n);
    }
  }

  lemma {:induction false} CountTriedUpdate(tried: seq<seq<int>>, b: nat, s: seq<int>, n: int)
    requires b < |tried|
    ensures CountTried(tried[b := s], n) ==
            CountTried(tried, n) - multiset(tried[b])[n] + multiset(s)[n]
  {
    var last := |tried| - 1;
    if b == last {
      assert tried[b := s][..last] == tried[..last];
    } else {
      assert tried[b := s][..last] == tried[..last][b := s];
      CountTriedUpdate(tried[..last], b, s, n);
    }
  }

  lemma {:induction false} CountNewPositive(untried: seq<set<int>>, b: nat, n: int)
    requires b < |untried| && n in untried[b]
    ensures CountNew(untried, n) > 0
  {
    CountNewUpdate(untried, b, {}, n);
  }

  lemma {:induction false} CountNewWitness(untried: seq<set<int>>, n: int) returns (b: nat)
    requires CountNew(untried, n) > 0
    ensures b < |untried| && n in untried[b]
  {
    var last := |untried| - 1;
    if n in untried[last] {
      b := last;
    } else {
      b := CountNewWitness(untried[..last], n);
    }
  }

  lemma {:induction false} CountTriedPositive(tried: seq<seq<int>>, b: nat, i: nat)
    requires b < |tried| && i < |tried[b]|
    ensures CountTried(tried, tried[b][i]) > 0
  {
    CountTriedUpdate(tried, b, [], tried[b][i]);
    assert tried[b][i] in multiset(tried[b]);
  }

  lemma {:induction false} CountTriedWitness(tried: seq<seq<int>>, n: int) returns (b: nat, i: nat)
    requires CountTried(tried, n) > 0
    ensures b < |tried| && i < |tried[b]| && tried[b][i] == n
  {
    var last := |tried| - 1;
    if n in tried[last] {
      b := last;
      i :| 0 <= i < |tried[last]| && tried[last][i] == n;
    } else {
      assert n !in multiset(tried[last]);
      b, i := CountTriedWitness(tried[..last], n);
    }
  }

  // ---------------------------------------------------------------- consistency

  datatype Tables = Tables(
    idCount: int,
    info: map<int, Info>,
    addrIds: map<NetAddr, int>,
    random: seq<int>,
    triedCount: int,
    tried: seq<seq<int>>,
    newCount: int,
    untried: seq<set<int>>)

  ghost function TriedIds(info: map<int, Info>): set<int> { set n | n in info && info[n].inTried }
  ghost function NewIds(info: map<int, Info>): set<int> { set n | n in info && !info[n].inTried }

  /** How often an id has to occur in the tried buckets and in the new buckets. */
  ghost function TriedShare(info: map<int, Info>, n: int): int { if n in info && info[n].inTried then 1 else 0 }
  ghost function NewShare(info: map<int, Info>, n: int): int {
    if n in info && !info[n].inTried then info[n].refCount else 0
  }

  ghost predicate EntryOk(i: Info) {
    if i.inTried then i.refCount == 0 else 1 <= i.refCount <= NEW_BUCKETS_PER_ADDRESS
  }

  ghost predicate TimesOk(i: Info) {
    i.lastTry >= 0 && i.lastSuccess >= 0 && (i.inTried ==> i.lastSuccess != 0)
  }

  ghost predicate Times(info: map<int, Info>) { forall n :: n in info ==> TimesOk(info[n]) }

  ghost predicate Entries(info: map<int, Info>) { forall n :: n in info ==> EntryOk(info[n]) }

  /** Every entry knows its position in the random order. */
  ghost predicate Positions(info: map<int, Info>, random: seq<int>) {
    forall n :: n in info ==> 0 <= info[n].randomPos < |random| && random[info[n].randomPos] == n
  }

  /** The random order lists entries only, each at the position it knows. */
  ghost predicate Listed(info: map<int, Info>, random: seq<int>) {
    forall k :: 0 <= k < |random| ==> random[k] in info && info[random[k]].randomPos == k
  }

  ghost predicate Indexed(info: map<int, Info>, addrIds: map<NetAddr, int>) {
    forall n :: n in info ==> info[n].service.net in addrIds && addrIds[info[n].service.net] == n
  }

  ghost predicate IndexExact(info: map<int, Info>, addrIds: map<NetAddr, int>) {
    forall a :: a in addrIds ==> addrIds[a] in info && info[addrIds[a]].service.net == a
  }

  ghost predicate TriedCounts(info: map<int, Info>, tried: seq<seq<int>>) {
    forall n :: CountTried(tried, n) == TriedShare(info, n)
  }

  /** Reference counts match bucket occurrences; the ids in `owed` are one short. */
  ghost predicate NewCounts(info: map<int, Info>, untried: seq<set<int>>, owed: set<int>) {
    forall n :: CountNew(untried, n) + (if n in owed then 1 else 0) == NewShare(info, n)
  }

  ghost predicate IdsBelow(info: map<int, Info>, idCount: int) { forall n :: n in info ==> 0 <= n < idCount }

  ghost predicate TriedFits(tried: seq<seq<int>>) {
    |tried| == TRIED_BUCKET_COUNT && forall b :: 0 <= b < |tried| ==> |tried[b]| <= TRIED_BUCKET_SIZE
  }

  ghost predicate NewFits(untried: seq<set<int>>) {
    |untried| == NEW_BUCKET_COUNT && forall b :: 0 <= b < |untried| ==> |untried[b]| <= NEW_BUCKET_SIZE
  }

  /** Every tried entry sits in the bucket its own hash selects. */
  ghost predicate Placed(o: Oracle, key: seq<nat>, info: map<int, Info>, tried: seq<seq<int>>) {
    forall b, i :: 0 <= b < |tried| && 0 <= i < |tried[b]| ==>
      tried[b][i] in info && TriedBucket(o, key, info[tried[b][i]].service) == b
  }

  /** What the debug consistency check looks at, apart from the address index and the times.
    * Ids in `owed` have been promised one more bucket than they are in. */
  ghost predicate Counted(t: Tables, owed: set<int>) {
    && |t.random| == t.triedCount + t.newCount
    && Entries(t.info)
    && Positions(t.info, t.random)
    && |TriedIds(t.info)| == t.triedCount
    && |NewIds(t.info)| == t.newCount
    && TriedCounts(t.info, t.tried)
    && NewCounts(t.info, t.untried, owed)
  }

  /** `addrIds[a]` as the debug check evaluates it: a missing key reads as 0. */
  ghost function LookupOrZero(addrIds: map<NetAddr, int>, a: NetAddr): int {
    if a in addrIds then addrIds[a] else 0
  }

  /** Looking up an entry's address gives its id. */
  ghost predicate Reads(info: map<int, Info>, addrIds: map<NetAddr, int>) {
    forall n :: n in info ==> LookupOrZero(addrIds, info[n].service.net) == n
  }

  /** All that the debug check looks at except the times, with the ids in `owed` one bucket short. */
  ghost predicate Core(t: Tables, owed: set<int>) { Counted(t, owed) && Reads(t.info, t.addrIds) }

  /** Exactly the states on which the debug consistency check returns 0. */
  ghost predicate CheckPasses(t: Tables) { Core(t, {}) && Times(t.info) }

  /** What holds as well, though the debug check does not look at it. */
  ghost predicate Sound(o: Oracle, key: seq<nat>, t: Tables) {
    && Indexed(t.info, t.addrIds) && IndexExact(t.info, t.addrIds)
    && IdsBelow(t.info, t.idCount) && t.idCount >= 0
    && TriedFits(t.tried) && NewFits(t.untried)
    && Placed(o, key, t.info, t.tried)
  }

  /** Everything but the times: the structural half of the invariant. */
  ghost predicate Structured(o: Oracle, key: seq<nat>, t: Tables, owed: set<int>) {
    Core(t, owed) && Sound(o, key, t)
  }

  ghost predicate Invariant(o: Oracle, key: seq<nat>, t: Tables) {
    Structured(o, key, t, {}) && Times(t.info)
  }

  /** The bucket tables have their fixed numbers of buckets. */
  ghost predicate Sized(t: Tables) { |t.tried| == TRIED_BUCKET_COUNT && |t.untried| == NEW_BUCKET_COUNT }

  lemma InvariantImpliesCheck(o: Oracle, key: seq<nat>, t: Tables)
    requires Invariant(o, key, t)
    ensures CheckPasses(t) && Sized(t)
  {
  }

  /** The counting rules force the random order to list every entry exactly once. */
  lemma CountedIsListed(t: Tables, owed: set<int>)
    requires Counted(t, owed)
    ensures Listed(t.info, t.random) && |t.info| == |t.random|
  {
    IdsSplit(t.info);
    var pos := set n | n in t.info :: t.info[n].randomPos;
    PositionsCard(t.info, t.random, t.info.Keys, pos);
    RangeFacts(|t.random|);
    assert pos <= Range(|t.random|);
    SubsetFull(pos, Range(|t.random|));
    forall k | 0 <= k < |t.random|
      ensures t.random[k] in t.info && t.info[t.random[k]].randomPos == k
    {
      assert k in pos;
    }
  }

  lemma IdsSplit(info: map<int, Info>)
    ensures |info| == |TriedIds(info)| + |NewIds(info)|
  {
    assert info.Keys == TriedIds(info) + NewIds(info);
    assert TriedIds(info) !! NewIds(info);
  }

  lemma {:induction false} PositionsCard(info: map<int, Info>, random: seq<int>, ids: set<int>, pos: set<int>)
    requires Positions(info, random)
    requires ids <= info.Keys
    requires pos == set n | n in ids :: info[n].randomPos
    ensures |pos| == |ids|
    decreases ids
  {
    if ids == {} {
      assert pos == {};
    } else {
      var n := Member(ids);
      var rest := ids - {n};
      var posRest := set m | m in rest :: info[m].randomPos;
      PositionsCard(info, random, rest, posRest);
      assert pos == posRest + {info[n].randomPos};
      assert info[n].randomPos !in posRest;
    }
  }
}
