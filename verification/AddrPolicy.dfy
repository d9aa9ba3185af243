/** What the design of the address manager promises beyond consistency (src/addrman.h): how far the
  * addresses of one network group, or of one source, can spread, and which entries may be dropped.
  */
module AddrPolicy {
  import opened Sets
  import opened AddrTables
  import opened AddrSteps
  import opened AddrRuns

  // ---------------------------------------------------------------- spread

  /** The tried buckets of a group: four draws of the hash, by the key and the group alone. */
  function TriedChoice(o: Oracle, key: seq<nat>, group: seq<nat>, j: nat): (b: nat)
    ensures b < 64
  {
    o.hash([key, group, [j]]) % 64
  }

  /** An address goes to one of the four buckets of its group, by the full address. */
  lemma TriedBucketOfGroup(o: Oracle, key: seq<nat>, s: Service)
    ensures TriedBucket(o, key, s) ==
      TriedChoice(o, key, o.group(s.net), o.hash([key, o.serviceKey(s)]) % 4)
  {
  }

  ghost function TriedOfGroup(o: Oracle, t: Tables, group: seq<nat>): set<int> {
    set n | n in t.info && t.info[n].inTried && o.group(t.info[n].service.net) == group
  }

  /** One network group has at most 4 * 64 tried entries, in any consistent state. */
  lemma GroupIsLimited(o: Oracle, key: seq<nat>, t: Tables, group: seq<nat>)
    requires Structured(o, key, t, {})
    ensures |TriedOfGroup(o, t, group)| <= 256
  {
    var four := seq(4, j requires 0 <= j < 4 => t.tried[TriedChoice(o, key, group, j)]);
    AllTriedCard(four, TRIED_BUCKET_SIZE);
    forall n | n in TriedOfGroup(o, t, group) ensures n in AllTried(four) {
      var j := o.hash([key, o.serviceKey(t.info[n].service)]) % 4;
      TriedBucketOfGroup(o, key, t.info[n].service);
      assert four[j] == t.tried[TriedBucket(o, key, t.info[n].service)];
      TriedInBucket(o, key, t, n);
      CountTriedIn(four, j, n);
    }
    SubsetCard(TriedOfGroup(o, t, group), AllTried(four));
  }

  lemma TriedInBucket(o: Oracle, key: seq<nat>, t: Tables, n: int)
    requires Structured(o, key, t, {}) && n in t.info && t.info[n].inTried
    ensures n in t.tried[TriedBucket(o, key, t.info[n].service)]
  {
    assert CountTried(t.tried, n) == TriedShare(t.info, n);
    var b, i := CountTriedWitness(t.tried, n);
  }

  lemma CountTriedIn(tried: seq<seq<int>>, b: nat, n: int)
    requires b < |tried| && n in tried[b]
    ensures CountTried(tried, n) > 0
  {
    var i :| 0 <= i < |tried[b]| && tried[b][i] == n;
    CountTriedPositive(tried, b, i);
  }

  /** The new buckets that a group of sources can put addresses into. */
  ghost function SourceBuckets(o: Oracle, key: seq<nat>, group: seq<nat>): set<nat> {
    set j: nat | 0 <= j < 32 :: o.hash([key, group, [j]]) % 256
  }

  /** Whatever addresses a group of sources announces, they go to its 32 new buckets, and which one depends
    * on the groups of address and source only. */
  lemma SourceIsLimited(o: Oracle, key: seq<nat>, group: seq<nat>, s: Service, source: NetAddr)
    requires o.group(source) == group
    ensures |SourceBuckets(o, key, group)| <= 32 && NewBucket(o, key, s, source) in SourceBuckets(o, key, group)
    ensures NewBucket(o, key, s, source) == o.hash([key, group, [o.hash([key, o.group(s.net), group]) % 32]]) % 256
  {
    ChoicesCard(o, key, group, 32);
    assert SourceBuckets(o, key, group) == Choices(o, key, group, 32);
  }

  ghost function Choices(o: Oracle, key: seq<nat>, group: seq<nat>, n: nat): set<nat> {
    set j: nat | 0 <= j < n :: o.hash([key, group, [j]]) % 256
  }

  lemma {:induction false} ChoicesCard(o: Oracle, key: seq<nat>, group: seq<nat>, n: nat)
    ensures |Choices(o, key, group, n)| <= n
  {
    if n == 0 {
      assert Choices(o, key, group, 0) == {};
    } else {
      ChoicesCard(o, key, group, n - 1);
      var last := o.hash([key, group, [n - 1]]) % 256;
      assert Choices(o, key, group, n) == Choices(o, key, group, n - 1) + {last};
    }
  }

  // ---------------------------------------------------------------- which entries are terrible

  const MINUTE: int := 60
  const TEN_MINUTES: int := 600
  const WEEK: int := 604800
  const MONTH: int := 2592000

  /** An entry tried in the last minute is never terrible. Any other is unless it was seen in the last
    * thirty days and not in the future, and has either never failed too often: fewer than three attempts
    * before its first success, fewer than ten when the last success is over a week old. */
  lemma TerribleIff(i: Info, now: int)
    ensures !IsTerrible(i, now) <==>
      || (i.lastTry != 0 && now <= i.lastTry + MINUTE)
      || (&& 0 < i.time && i.time - TEN_MINUTES <= now <= i.time + MONTH
          && (i.lastSuccess == 0 ==> i.attempts < 3)
          && (now > i.lastSuccess + WEEK ==> i.attempts < 10))
  {
  }

  /** An address that was just reached stays for thirty days, and no longer. */
  lemma ReachedStays(i: Info, time: int, now: int)
    requires 0 < time < 0x1_0000_0000
    ensures IsTerrible(Reached(i, time), now) <==> now > time + MONTH
  {
    TerribleIff(Reached(i, time), now);
  }

  /** A new address may be dropped at once if its time is unknown or in the future, and after thirty days
    * otherwise. */
  lemma NewcomerStays(t: Tables, a: Address, source: NetAddr, penalty: nat, now: int)
    requires a.time < 0x1_0000_0000
    ensures IsTerrible(FirstInfo(t, a, source, penalty), now) <==>
      a.time <= penalty || now < a.time - penalty - TEN_MINUTES || now > a.time - penalty + MONTH
  {
    TerribleIff(FirstInfo(t, a, source, penalty), now);
  }
}
