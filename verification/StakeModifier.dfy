/** The stake modifier (src/kernel.cpp): candidates from the recent chain, and up to 64 rounds that each
  * select one more block by the smallest selection hash and write its entropy bit.
  */
module StakeModifier {
  import opened Numbers
  import opened Sets
  import opened Pieces

  /** An entry of the block index. Its parent is the entry one lower in its chain. */
  datatype Block = Block(hash: nat, time: nat, height: nat, generated: bool, modifier: nat,
                         proofOfStake: bool, proofHash: nat, entropy: bool)

  /** The length of a modifier interval in seconds, and the hash of a proof hash with a modifier. */
  datatype Rules = Rules(interval: nat, hash: (nat, nat) -> nat)

  const INTERVAL_RATIO: nat := 3

  // ---------------------------------------------------------------- intervals

  function Section(interval: nat, n: nat): int
    requires n < 64
  {
    interval * 63 / (63 + (63 - n) * (INTERVAL_RATIO - 1))
  }

  /** The first n sections together. */
  function Sections(interval: nat, n: nat): int
    requires n <= 64
    decreases n, interval
  {
    if n == 0 then 0 else Sections(interval, n - 1) + Section(interval, n - 1)
  }

  method SelectionInterval(interval: nat) returns (total: int)
    ensures total == Sections(interval, 64)
  {
    total := 0;
    var section := 0;
    while section < 64
      invariant 0 <= section <= 64 && total == Sections(interval, section)
    {
      total := total + Section(interval, section);
      section := section + 1;
    }
  }

  // ---------------------------------------------------------------- sorting

  /** A time and a hash, compared in that order. */
  datatype Key = Key(time: int, hash: nat)

  predicate Less(a: Key, b: Key) { a.time < b.time || (a.time == b.time && a.hash < b.hash) }

  function KeyOf(b: Block): Key { Key(b.time, b.hash) }

  predicate Sorted(s: seq<Key>) { forall i, j :: 0 <= i < j < |s| ==> !Less(s[j], s[i]) }

  function Insert(s: seq<Key>, k: Key): (r: seq<Key>)
    ensures |r| == |s| + 1
  {
    if s == [] || !Less(k, s[|s| - 1]) then s + [k] else Insert(s[..|s| - 1], k) + [s[|s| - 1]]
  }

  function Sort(s: seq<Key>): (r: seq<Key>)
    ensures |r| == |s|
  {
    if s == [] then [] else Insert(Sort(s[..|s| - 1]), s[|s| - 1])
  }

  lemma {:induction false} InsertFacts(s: seq<Key>, k: Key)
    requires Sorted(s)
    ensures Sorted(Insert(s, k)) && multiset(Insert(s, k)) == multiset(s) + multiset{k}
  {
    if s != [] {
      var front, last := s[..|s| - 1], s[|s| - 1];
      assert s == front + [last];
      if Less(k, last) {
        InsertFacts(front, k);
        var r := Insert(front, k);
        forall i | 0 <= i < |r| ensures !Less(last, r[i]) {
          assert r[i] in multiset(r);
          if r[i] != k { assert r[i] in front; }
        }
      }
    }
  }

  lemma {:induction false} SortFacts(s: seq<Key>)
    ensures Sorted(Sort(s)) && multiset(Sort(s)) == multiset(s)
  {
    if s != [] {
      var front := s[..|s| - 1];
      SortFacts(front);
      InsertFacts(Sort(front), s[|s| - 1]);
      assert s == front + [s[|s| - 1]];
    }
  }

  // ---------------------------------------------------------------- choosing a block

  /** The hash that competes: divided by 2^32 for proof of stake, to favour it. */
  function SelectionHash(rules: Rules, b: Block, modifier: nat): nat {
    var h := rules.hash(if b.proofOfStake then b.proofHash else b.hash, modifier);
    if b.proofOfStake then h / 0x1_0000_0000 else h
  }

  /** Candidate i has not been selected yet. */
  predicate Free(cands: seq<Block>, selected: set<nat>, i: nat)
    requires i < |cands|
  {
    cands[i].hash !in selected
  }

  /** Candidate i takes part in a round: it lies within the interval, or it is the earliest free one. */
  ghost predicate Eligible(cands: seq<Block>, selected: set<nat>, stop: int, i: nat)
    requires i < |cands|
  {
    && Free(cands, selected, i)
    && (cands[i].time <= stop || forall j: nat :: j < i ==> !Free(cands, selected, j))
  }

  /** Candidate i has the smallest selection hash of those that take part, the first of equals. */
  ghost predicate Best(rules: Rules, cands: seq<Block>, selected: set<nat>, stop: int, modifier: nat, i: nat) {
    && i < |cands| && Eligible(cands, selected, stop, i)
    && forall j: nat :: j < |cands| && Eligible(cands, selected, stop, j) ==>
         var (a, b) := (SelectionHash(rules, cands[i], modifier), SelectionHash(rules, cands[j], modifier));
         a < b || (a == b && i <= j)
  }

  lemma BestIsUnique(rules: Rules, cands: seq<Block>, selected: set<nat>, stop: int, modifier: nat, i: nat, j: nat)
    requires Best(rules, cands, selected, stop, modifier, i) && Best(rules, cands, selected, stop, modifier, j)
    ensures i == j
  {
  }

  predicate TimeSorted(cands: seq<Block>) { forall i, j :: 0 <= i < j < |cands| ==> cands[i].time <= cands[j].time }

  /** The keys are those of the candidates; the index gives no wrong block for one, but may lack some. */
  predicate PartlyIndexed(index: map<nat, Block>, keys: seq<Key>, cands: seq<Block>) {
    && |keys| == |cands|
    && forall i :: 0 <= i < |keys| ==>
         keys[i].hash == cands[i].hash && (keys[i].hash in index ==> index[keys[i].hash] == cands[i])
  }

  /** The scan of a round ends at candidate j: it is too late, and there is an earlier one to take. */
  ghost predicate Ends(cands: seq<Block>, selected: set<nat>, stop: int, j: nat)
    requires j < |cands|
  {
    cands[j].time > stop && exists i: nat :: i < j && Free(cands, selected, i)
  }

  /** The scan of a round comes to a candidate that is not in the index. */
  ghost predicate Blind(index: map<nat, Block>, cands: seq<Block>, selected: set<nat>, stop: int) {
    exists k: nat :: k < |cands| && cands[k].hash !in index && ScanReaches(cands, selected, stop, k)
  }

  ghost predicate ScanReaches(cands: seq<Block>, selected: set<nat>, stop: int, k: nat)
    requires k < |cands|
  {
    forall j: nat :: j < k ==> !Ends(cands, selected, stop, j)
  }

  /** The scan has gone past the first k candidates. */
  ghost predicate Scanned(index: map<nat, Block>, cands: seq<Block>, selected: set<nat>, stop: int, k: nat) {
    && k <= |cands|
    && forall j: nat :: j < k ==> cands[j].hash in index && !Ends(cands, selected, stop, j)
  }

  lemma ScannedNext(index: map<nat, Block>, cands: seq<Block>, selected: set<nat>, stop: int, k: nat)
    requires k < |cands| && Scanned(index, cands, selected, stop, k)
    requires cands[k].hash in index && !Ends(cands, selected, stop, k)
    ensures Scanned(index, cands, selected, stop, k + 1)
  {
  }

  /** One round of selection finds the best candidate. It fails exactly when none is free, or the scan
    * comes to one that the index lacks. */
  method SelectBlock(rules: Rules, index: map<nat, Block>, keys: seq<Key>, selected: set<nat>, stop: int, modifier: nat,
                     ghost cands: seq<Block>)
    returns (found: bool, b: Option<Block>)
    ensures PartlyIndexed(index, keys, cands) && TimeSorted(cands) ==>
      (found <==> (exists i: nat :: i < |cands| && Free(cands, selected, i)) && !Blind(index, cands, selected, stop))
    ensures PartlyIndexed(index, keys, cands) && TimeSorted(cands) && found ==>
      exists at: nat :: Best(rules, cands, selected, stop, modifier, at) && b == Some(cands[at])
  {
    found, b := false, None;
    ghost var at: nat := 0;
    var best := 0;
    var k := 0;
    ghost var good := PartlyIndexed(index, keys, cands) && TimeSorted(cands);
    while k < |keys|
      invariant 0 <= k <= |keys|
      invariant found ==> b.Some?
      invariant good ==> Leading(rules, cands, selected, stop, modifier, k, found, best, b, at)
      invariant good ==> Scanned(index, cands, selected, stop, k)
    {
      if keys[k].hash !in index {
        assert good ==> ScanReaches(cands, selected, stop, k);
        return false, None;
      }
      var block := index[keys[k].hash];
      if found && block.time > stop {
        assert good ==> Ends(cands, selected, stop, k);
        break;
      }
      ghost var before := (found, best, b, at);
      if block.hash !in selected {
        var h := SelectionHash(rules, block, modifier);
        if (found && h < best) || !found {
          found, best, b, at := true, h, Some(block), k;
        }
      }
      if good {
        ScannedNext(index, cands, selected, stop, k);
        LeadingNext(rules, cands, selected, stop, modifier, k, before, (found, best, b, at));
      }
      k := k + 1;
    }
    if good && found { LeaderIsBest(rules, cands, selected, stop, modifier, k, best, b, at); }
  }

  lemma LeadingNext(rules: Rules, cands: seq<Block>, selected: set<nat>, stop: int, modifier: nat, k: nat,
                    s: (bool, nat, Option<Block>, nat), s': (bool, nat, Option<Block>, nat))
    requires k < |cands| && Leading(rules, cands, selected, stop, modifier, k, s.0, s.1, s.2, s.3)
    requires !(s.0 && cands[k].time > stop)
    requires
      var h := SelectionHash(rules, cands[k], modifier);
      s' == if Free(cands, selected, k) && (!s.0 || h < s.1) then (true, h, Some(cands[k]), k) else s
    ensures Leading(rules, cands, selected, stop, modifier, k + 1, s'.0, s'.1, s'.2, s'.3)
  {
    if Free(cands, selected, k) { assert Eligible(cands, selected, stop, k); }
  }

  /** Candidates after the one that ended the scan are too late to take part. */
  lemma LeaderIsBest(rules: Rules, cands: seq<Block>, selected: set<nat>, stop: int, modifier: nat, k: nat,
                     best: nat, b: Option<Block>, at: nat)
    requires TimeSorted(cands) && Leading(rules, cands, selected, stop, modifier, k, true, best, b, at)
    requires k == |cands| || cands[k].time > stop
    ensures Best(rules, cands, selected, stop, modifier, at)
  {
    assert Free(cands, selected, at);
    forall j: nat | j < |cands| && Eligible(cands, selected, stop, j) ensures j < k {}
  }

  /** What the scan knows after the first k candidates. */
  ghost predicate Leading(rules: Rules, cands: seq<Block>, selected: set<nat>, stop: int, modifier: nat, k: nat,
                          found: bool, best: nat, b: Option<Block>, at: nat) {
    && k <= |cands|
    && (found <==> exists i: nat :: i < k && Free(cands, selected, i))
    && (found ==>
          && at < k && Eligible(cands, selected, stop, at) && b == Some(cands[at])
          && best == SelectionHash(rules, cands[at], modifier)
          && forall j: nat :: j < k && Eligible(cands, selected, stop, j) ==>
               var h := SelectionHash(rules, cands[j], modifier);
               best < h || (best == h && at <= j))
  }

  // ---------------------------------------------------------------- all rounds

  ghost function Taken(cands: seq<Block>, picks: seq<nat>): set<nat>
    requires forall r :: 0 <= r < |picks| ==> picks[r] < |cands|
  {
    set r | 0 <= r < |picks| :: cands[picks[r]].hash
  }

  /** Round r picks the best candidate that the rounds before it have left, within the first r + 1
    * sections of the interval. */
  ghost predicate Selection(rules: Rules, cands: seq<Block>, modifier: nat, start: int, picks: seq<nat>) {
    && |picks| <= 64
    && (forall r :: 0 <= r < |picks| ==> picks[r] < |cands|)
    && forall r :: 0 <= r < |picks| ==> PickedWell(rules, cands, modifier, start, picks, r)
  }

  ghost predicate PickedWell(rules: Rules, cands: seq<Block>, modifier: nat, start: int, picks: seq<nat>, r: nat)
    requires r < |picks| <= 64 && forall q :: 0 <= q < |picks| ==> picks[q] < |cands|
  {
    Best(rules, cands, Taken(cands, picks[..r]), start + Sections(rules.interval, r + 1), modifier, picks[r])
  }

  lemma {:induction false} SelectionIsUnique(rules: Rules, cands: seq<Block>, modifier: nat, start: int, p: seq<nat>,
                                             q: seq<nat>)
    requires Selection(rules, cands, modifier, start, p) && Selection(rules, cands, modifier, start, q) && |p| == |q|
    ensures p == q
  {
    if p != [] {
      var n := |p| - 1;
      SelectionFront(rules, cands, modifier, start, p, n);
      SelectionFront(rules, cands, modifier, start, q, n);
      SelectionIsUnique(rules, cands, modifier, start, p[..n], q[..n]);
      assert PickedWell(rules, cands, modifier, start, p, n) && PickedWell(rules, cands, modifier, start, q, n);
      BestIsUnique(rules, cands, Taken(cands, p[..n]), start + Sections(rules.interval, n + 1), modifier, p[n], q[n]);
    }
  }

  lemma SelectionFront(rules: Rules, cands: seq<Block>, modifier: nat, start: int, p: seq<nat>, n: nat)
    requires Selection(rules, cands, modifier, start, p) && n <= |p|
    ensures Selection(rules, cands, modifier, start, p[..n])
  {
    forall r | 0 <= r < n ensures PickedWell(rules, cands, modifier, start, p[..n], r) {
      assert PickedWell(rules, cands, modifier, start, p, r);
      assert p[..n][..r] == p[..r];
    }
  }

  lemma SelectionNext(rules: Rules, cands: seq<Block>, modifier: nat, start: int, p: seq<nat>, at: nat)
    requires Selection(rules, cands, modifier, start, p) && |p| < 64
    requires Best(rules, cands, Taken(cands, p), start + Sections(rules.interval, |p| + 1), modifier, at)
    ensures Selection(rules, cands, modifier, start, p + [at])
  {
    var q := p + [at];
    forall r | 0 <= r < |q| ensures PickedWell(rules, cands, modifier, start, q, r) {
      assert q[..r] == p[..r];
      if r < |p| { assert PickedWell(rules, cands, modifier, start, p, r); } else { assert p[..r] == p; }
    }
  }

  /** No block is selected twice. */
  lemma PicksAreDistinct(rules: Rules, cands: seq<Block>, modifier: nat, start: int, picks: seq<nat>, q: nat, r: nat)
    requires Selection(rules, cands, modifier, start, picks) && q < r < |picks|
    ensures cands[picks[q]].hash != cands[picks[r]].hash
  {
    assert PickedWell(rules, cands, modifier, start, picks, r);
    assert picks[..r][q] == picks[q];
    assert cands[picks[..r][q]].hash in Taken(cands, picks[..r]);
  }

  /** What a pick is, in words: the smallest hash of the free candidates up to the stop time, or the
    * earliest free candidate when none is that early. */
  lemma PickMeaning(rules: Rules, cands: seq<Block>, modifier: nat, start: int, picks: seq<nat>, r: nat, j: nat)
    requires TimeSorted(cands) && Selection(rules, cands, modifier, start, picks) && r < |picks| && j < |cands|
    requires Free(cands, Taken(cands, picks[..r]), j)
    ensures
      var stop := start + Sections(rules.interval, r + 1);
      if cands[j].time <= stop then
        && cands[picks[r]].time <= stop
        && SelectionHash(rules, cands[picks[r]], modifier) <= SelectionHash(rules, cands[j], modifier)
      else cands[picks[r]].time <= stop || picks[r] <= j
  {
    assert PickedWell(rules, cands, modifier, start, picks, r);
    var selected, stop := Taken(cands, picks[..r]), start + Sections(rules.interval, r + 1);
    if cands[j].time <= stop { assert Eligible(cands, selected, stop, j); }
  }

  /** Which of two blocks wins a round, in terms of their hashes: a proof-of-stake block competes with the
    * hash of its proof, divided by 2^32, and a proof-of-work block with that of its own hash. Equal ones
    * go by their order. */
  lemma StakeIsFavoured(rules: Rules, cands: seq<Block>, modifier: nat, start: int, picks: seq<nat>, r: nat, j: nat)
    requires TimeSorted(cands) && Selection(rules, cands, modifier, start, picks) && r < |picks| && j < |cands|
    requires Free(cands, Taken(cands, picks[..r]), j) && cands[j].time <= start + Sections(rules.interval, r + 1)
    ensures
      var a, b := cands[picks[r]], cands[j];
      && (a.proofOfStake && b.proofOfStake ==>
            rules.hash(a.proofHash, modifier) / 0x1_0000_0000 <= rules.hash(b.proofHash, modifier) / 0x1_0000_0000)
      && (!a.proofOfStake && !b.proofOfStake ==> rules.hash(a.hash, modifier) <= rules.hash(b.hash, modifier))
      && (a.proofOfStake && !b.proofOfStake ==>
            rules.hash(a.proofHash, modifier) / 0x1_0000_0000 <= rules.hash(b.hash, modifier))
      && (!a.proofOfStake && b.proofOfStake ==>
            rules.hash(a.hash, modifier) <= rules.hash(b.proofHash, modifier) / 0x1_0000_0000)
  {
    PickMeaning(rules, cands, modifier, start, picks, r, j);
  }

  /** With hashes of 256 bits a proof-of-work block beats a proof-of-stake one only with 32 leading zeros. */
  lemma WorkNeedsLeadingZeros(rules: Rules, cands: seq<Block>, modifier: nat, start: int, picks: seq<nat>, r: nat,
                              j: nat)
    requires TimeSorted(cands) && Selection(rules, cands, modifier, start, picks) && r < |picks| && j < |cands|
    requires Free(cands, Taken(cands, picks[..r]), j) && cands[j].time <= start + Sections(rules.interval, r + 1)
    requires cands[j].proofOfStake && !cands[picks[r]].proofOfStake
    requires rules.hash(cands[j].proofHash, modifier) < Power2(256)
    ensures rules.hash(cands[picks[r]].hash, modifier) < Power2(224)
  {
    StakeIsFavoured(rules, cands, modifier, start, picks, r, j);
    var h := rules.hash(cands[j].proofHash, modifier);
    SplitPower();
    BelowQuotient(h, 0x1_0000_0000, Power2(224));
  }

  lemma BelowQuotient(h: nat, d: nat, q: nat)
    requires d > 0 && h < d * q
    ensures h / d < q
  {
  }

  lemma SplitPower()
    ensures Power2(256) == 0x1_0000_0000 * Power2(224)
  {
    assert Power2(8) == 256;
    PowerSum(8, 8);
    PowerSum(16, 16);
    PowerSum(32, 224);
  }

  /** The sections grow from a third of the interval to the whole of it. */
  lemma SectionsGrow(interval: nat, m: nat, n: nat)
    requires m <= n < 64
    ensures Section(interval, m) <= Section(interval, n)
    ensures Section(interval, 0) == interval / 3 && Section(interval, 63) == interval
    ensures Section(interval, n) == interval * 63 / (189 - 2 * n)
  {
    var a, p, q := interval * 63, 63 + (63 - m) * 2, 63 + (63 - n) * 2;
    LargerDivisor(a, p, q);
    Numbers.DivDiv(interval * 63, 63, 3);
    assert interval * 63 / 63 == interval;
  }

  lemma LargerDivisor(a: nat, p: nat, q: nat)
    requires p >= q > 0
    ensures a / p <= a / q
  {
    QuotientsCompare(a, p, q, a / p, a / q);
  }

  lemma QuotientsCompare(a: nat, p: nat, q: nat, x: nat, y: nat)
    requires p >= q > 0 && p * x <= a < q * y + q
    ensures x <= y
  {
    FactorGrows(q, p, x);
    if y < x { Step(q, y, x); }
  }

  lemma FactorGrows(q: nat, p: nat, x: nat)
    requires q <= p
    ensures q * x <= p * x
  {
  }

  // ---------------------------------------------------------------- each round succeeds

  predicate DistinctHashes(cands: seq<Block>) {
    forall i, j :: 0 <= i < j < |cands| ==> cands[i].hash != cands[j].hash
  }

  ghost function Hashes(cands: seq<Block>, n: nat): set<nat>
    requires n <= |cands|
  {
    set i | 0 <= i < n :: cands[i].hash
  }

  lemma {:induction false} HashCount(cands: seq<Block>, n: nat)
    requires DistinctHashes(cands) && n <= |cands|
    ensures |Hashes(cands, n)| == n
  {
    if n == 0 {
      assert Hashes(cands, n) == {};
    } else {
      HashCount(cands, n - 1);
      HashesNext(cands, n - 1);
    }
  }

  lemma HashesNext(cands: seq<Block>, n: nat)
    requires DistinctHashes(cands) && n < |cands|
    ensures Hashes(cands, n + 1) == Hashes(cands, n) + {cands[n].hash} && cands[n].hash !in Hashes(cands, n)
  {
    forall h | h in Hashes(cands, n + 1) ensures h in Hashes(cands, n) + {cands[n].hash} {
      var i :| 0 <= i < n + 1 && cands[i].hash == h;
    }
  }

  lemma {:induction false} TakenCount(cands: seq<Block>, picks: seq<nat>)
    requires forall r :: 0 <= r < |picks| ==> picks[r] < |cands|
    ensures |Taken(cands, picks)| <= |picks|
  {
    if picks == [] {
      assert Taken(cands, picks) == {};
    } else {
      TakenNext(cands, picks[..|picks| - 1], picks[|picks| - 1]);
      TakenCount(cands, picks[..|picks| - 1]);
      assert picks == picks[..|picks| - 1] + [picks[|picks| - 1]];
    }
  }

  lemma TakenNext(cands: seq<Block>, picks: seq<nat>, at: nat)
    requires at < |cands| && forall r :: 0 <= r < |picks| ==> picks[r] < |cands|
    ensures Taken(cands, picks + [at]) == Taken(cands, picks) + {cands[at].hash}
  {
    var q := picks + [at];
    forall h | h in Taken(cands, picks) ensures h in Taken(cands, q) {
      var r :| 0 <= r < |picks| && cands[picks[r]].hash == h;
      assert q[r] == picks[r];
    }
    assert q[|picks|] == at;
  }

  /** While fewer blocks have been picked than there are candidates, one is free. */
  lemma SomeFree(cands: seq<Block>, picks: seq<nat>) returns (i: nat)
    requires DistinctHashes(cands) && |picks| < |cands|
    requires forall r :: 0 <= r < |picks| ==> picks[r] < |cands|
    ensures i < |cands| && Free(cands, Taken(cands, picks), i)
  {
    var all := Hashes(cands, |cands|);
    HashCount(cands, |cands|);
    TakenCount(cands, picks);
    if all <= Taken(cands, picks) { SubsetCard(all, Taken(cands, picks)); }
    var h :| h in all && h !in Taken(cands, picks);
    i :| 0 <= i < |cands| && cands[i].hash == h;
  }

  // ---------------------------------------------------------------- the modifier

  ghost function Entropy(cands: seq<Block>, picks: seq<nat>): nat
    requires forall r :: 0 <= r < |picks| ==> picks[r] < |cands|
  {
    if picks == [] then 0
    else
      var n := |picks| - 1;
      Entropy(cands, picks[..n]) + if cands[picks[n]].entropy then Power2(n) else 0
  }

  /** Bit r of the modifier is the entropy bit of the block picked in round r. */
  lemma {:induction false} EntropyBits(cands: seq<Block>, picks: seq<nat>, r: nat)
    requires r < |picks| && forall r :: 0 <= r < |picks| ==> picks[r] < |cands|
    ensures BitAt(Entropy(cands, picks), r) <==> cands[picks[r]].entropy
  {
    var n := |picks| - 1;
    var low, top := Entropy(cands, picks[..n]), if cands[picks[n]].entropy then 1 else 0;
    EntropyBound(cands, picks[..n]);
    assert Entropy(cands, picks) == top * Power2(n) + low;
    if r < n {
      EntropyBits(cands, picks[..n], r);
      LowBit(top, low, n, r);
    } else {
      TopBit(top, low, n);
    }
  }

  lemma TopBit(top: nat, low: nat, n: nat)
    requires top < 2 && low < Power2(n)
    ensures BitAt(top * Power2(n) + low, n) <==> top == 1
  {
    Quotient(top * Power2(n) + low, Power2(n), top, low);
  }

  lemma {:induction false} EntropyBound(cands: seq<Block>, picks: seq<nat>)
    requires forall r :: 0 <= r < |picks| ==> picks[r] < |cands|
    ensures Entropy(cands, picks) < Power2(|picks|)
  {
    if picks != [] { EntropyBound(cands, picks[..|picks| - 1]); }
  }

  // ---------------------------------------------------------------- the candidates of a chain

  /** A chain from the genesis block to its tip, every block of it in the index under its hash. */
  predicate ChainIn(index: map<nat, Block>, chain: seq<Block>) {
    forall i :: 0 <= i < |chain| ==>
      chain[i].height == i && chain[i].hash in index && index[chain[i].hash] == chain[i]
  }

  /** The candidates are the blocks from this height on: no gap in reaching back to `start`. */
  function FirstCandidate(chain: seq<Block>, start: int): (n: nat)
    ensures n <= |chain|
  {
    if chain == [] || chain[|chain| - 1].time < start then |chain|
    else FirstCandidate(chain[..|chain| - 1], start)
  }

  function KeysOf(blocks: seq<Block>): (keys: seq<Key>)
    ensures |keys| == |blocks|
  {
    seq(|blocks|, i requires 0 <= i < |blocks| => KeyOf(blocks[i]))
  }

  /** `cands` are the candidates of `chain`, in the order of their times and hashes. */
  ghost predicate Candidates(chain: seq<Block>, start: int, cands: seq<Block>) {
    && multiset(cands) == multiset(chain[FirstCandidate(chain, start)..])
    && Sorted(KeysOf(cands))
  }

  /** Candidates come in the order of their times, and of their hashes where those are equal. */
  lemma CandidatesInOrder(chain: seq<Block>, start: int, cands: seq<Block>, i: nat, j: nat)
    requires Candidates(chain, start, cands) && i < j < |cands|
    ensures cands[i].time < cands[j].time || (cands[i].time == cands[j].time && cands[i].hash <= cands[j].hash)
  {
    assert !Less(KeysOf(cands)[j], KeysOf(cands)[i]);
  }

  /** A chain has only one list of candidates. */
  lemma CandidatesUnique(index: map<nat, Block>, chain: seq<Block>, start: int, c: seq<Block>, d: seq<Block>)
    requires ChainIn(index, chain) && Candidates(chain, start, c) && Candidates(chain, start, d)
    ensures c == d
  {
    var whole := chain[FirstCandidate(chain, start)..];
    assert ChainPart(index, whole);
    PartOrder(index, whole, c);
    PartOrder(index, whole, d);
    assert |c| == |multiset(c)| == |d|;
    SortedUnique(c, d);
  }

  /** Blocks of a chain: each is its own index entry, and no block appears twice. */
  ghost predicate ChainPart(index: map<nat, Block>, blocks: seq<Block>) {
    && (forall i :: 0 <= i < |blocks| ==> blocks[i].hash in index && index[blocks[i].hash] == blocks[i])
    && forall i, j :: 0 <= i < j < |blocks| ==> blocks[i].height < blocks[j].height
  }

  lemma PartOrder(index: map<nat, Block>, whole: seq<Block>, cands: seq<Block>)
    requires ChainPart(index, whole) && multiset(cands) == multiset(whole) && Sorted(KeysOf(cands))
    ensures DistinctHashes(cands) && TimeSorted(cands)
    ensures forall i :: 0 <= i < |cands| ==> cands[i].hash in index && index[cands[i].hash] == cands[i]
    ensures Strict(cands)
  {
    forall i | 0 <= i < |cands| ensures cands[i].hash in index && index[cands[i].hash] == cands[i] {
      assert cands[i] in multiset(whole);
      assert cands[i] in whole;
    }
    forall i, j | 0 <= i < j < |cands| ensures cands[i].hash != cands[j].hash {
      if cands[i].hash == cands[j].hash {
        assert cands[i] == cands[j];
        TwiceCounted(cands, i, j);
        OnceCounted(whole, cands[i]);
      }
    }
    forall i, j | 0 <= i < j < |cands|
      ensures cands[i].time <= cands[j].time && Less(KeyOf(cands[i]), KeyOf(cands[j]))
    {
      assert !Less(KeysOf(cands)[j], KeysOf(cands)[i]);
    }
  }

  lemma TwiceCounted<T>(s: seq<T>, i: nat, j: nat)
    requires i < j < |s| && s[i] == s[j]
    ensures multiset(s)[s[i]] >= 2
  {
    var rest := s[..j] + s[j + 1..];
    assert s == s[..j] + [s[j]] + s[j + 1..];
    assert multiset(s) == multiset(rest) + multiset{s[j]};
    assert rest[i] == s[i] && rest[i] in multiset(rest);
  }

  lemma {:induction false} OnceCounted(blocks: seq<Block>, b: Block)
    requires forall i, j :: 0 <= i < j < |blocks| ==> blocks[i].height < blocks[j].height
    ensures multiset(blocks)[b] <= 1
  {
    if blocks != [] {
      var front, last := blocks[..|blocks| - 1], blocks[|blocks| - 1];
      assert blocks == front + [last];
      OnceCounted(front, b);
      if b == last {
        assert b !in front;
        assert b !in multiset(front);
      }
    }
  }

  ghost predicate Strict(s: seq<Block>) { forall i, j :: 0 <= i < j < |s| ==> Less(KeyOf(s[i]), KeyOf(s[j])) }

  /** Strictly sorted lists with the same elements are equal. */
  lemma {:induction false} SortedUnique(c: seq<Block>, d: seq<Block>)
    requires |c| == |d| && multiset(c) == multiset(d) && Strict(c) && Strict(d)
    ensures c == d
  {
    if c != [] {
      var n := |c| - 1;
      TopsEqual(c, d);
      FrontsEqual(c, d);
      SortedUnique(c[..n], d[..n]);
      assert c == c[..n] + [c[n]] && d == d[..n] + [d[n]];
    }
  }

  lemma FrontsEqual<T>(c: seq<T>, d: seq<T>)
    requires |c| == |d| > 0 && multiset(c) == multiset(d) && c[|c| - 1] == d[|d| - 1]
    ensures multiset(c[..|c| - 1]) == multiset(d[..|d| - 1])
  {
    FrontOf(c);
    FrontOf(d);
  }

  lemma FrontOf<T>(s: seq<T>)
    requires s != []
    ensures multiset(s[..|s| - 1]) == multiset(s) - multiset{s[|s| - 1]}
  {
    assert s == s[..|s| - 1] + [s[|s| - 1]];
  }

  lemma TopsEqual(c: seq<Block>, d: seq<Block>)
    requires multiset(c) == multiset(d) && |c| == |d| > 0 && Strict(c) && Strict(d)
    ensures c[|c| - 1] == d[|d| - 1]
  {
    var n := |c| - 1;
    assert c[n] in multiset(d) && d[n] in multiset(c);
    var i :| 0 <= i < |d| && d[i] == c[n];
    var j :| 0 <= j < |c| && c[j] == d[n];
  }

  // ---------------------------------------------------------------- sorting blocks by their keys

  ghost function InsertBlock(s: seq<Block>, b: Block): (r: seq<Block>)
    ensures |r| == |s| + 1
  {
    if s == [] || !Less(KeyOf(b), KeyOf(s[|s| - 1])) then s + [b] else InsertBlock(s[..|s| - 1], b) + [s[|s| - 1]]
  }

  ghost function SortBlocks(s: seq<Block>): (r: seq<Block>)
    ensures |r| == |s|
  {
    if s == [] then [] else InsertBlock(SortBlocks(s[..|s| - 1]), s[|s| - 1])
  }

  lemma {:induction false} InsertBlockKeys(s: seq<Block>, b: Block)
    ensures KeysOf(InsertBlock(s, b)) == Insert(KeysOf(s), KeyOf(b))
    ensures multiset(InsertBlock(s, b)) == multiset(s) + multiset{b}
  {
    if s == [] {
      assert KeysOf(s) == [];
    } else {
      var front, last := s[..|s| - 1], s[|s| - 1];
      assert s == front + [last];
      assert KeysOf(s)[..|s| - 1] == KeysOf(front);
      if Less(KeyOf(b), KeyOf(last)) { InsertBlockKeys(front, b); }
    }
  }

  /** Sorting the keys of blocks sorts the blocks. */
  lemma {:induction false} SortBlocksKeys(s: seq<Block>)
    ensures KeysOf(SortBlocks(s)) == Sort(KeysOf(s)) && multiset(SortBlocks(s)) == multiset(s)
  {
    if s == [] {
      assert KeysOf(s) == [];
    } else {
      var front, last := s[..|s| - 1], s[|s| - 1];
      assert s == front + [last];
      assert KeysOf(s)[..|s| - 1] == KeysOf(front);
      SortBlocksKeys(front);
      InsertBlockKeys(SortBlocks(front), last);
    }
  }

  // ---------------------------------------------------------------- computing the next modifier

  datatype Outcome = Failed | Kept(modifier: nat) | Fresh(modifier: nat)

  /** The last block of the chain that generated a modifier, if there is one. */
  function LastGenerated(chain: seq<Block>): Option<Block> {
    if chain == [] then None
    else if chain[|chain| - 1].generated then Some(chain[|chain| - 1])
    else LastGenerated(chain[..|chain| - 1])
  }

  function Start(rules: Rules, tip: Block): int
    requires rules.interval > 0
  {
    tip.time / rules.interval * rules.interval - Sections(rules.interval, 64)
  }

  /** What the next modifier of a chain is. It speaks of nothing but the blocks of the chain. */
  ghost predicate IsNext(rules: Rules, chain: seq<Block>, r: Outcome)
    requires rules.interval > 0
  {
    if chain == [] then r == Fresh(0)
    else
      var tip := chain[|chain| - 1];
      match LastGenerated(chain)
      case None => r == Failed
      case Some(b) =>
        if b.time / rules.interval >= tip.time / rules.interval then
          r == Kept(b.modifier)
        else
          && r.Fresh?
          && exists cands, picks :: Drawn(rules, chain, b.modifier, Start(rules, tip), cands, picks, r.modifier)
  }

  ghost predicate Drawn(rules: Rules, chain: seq<Block>, modifier: nat, start: int, cands: seq<Block>,
                        picks: seq<nat>, next: nat) {
    Candidates(chain, start, cands) && Chosen(rules, cands, modifier, start, picks, next)
  }

  /** A chain has exactly one next modifier. */
  lemma NextIsUnique(rules: Rules, index: map<nat, Block>, chain: seq<Block>, r: Outcome, r': Outcome)
    requires rules.interval > 0 && ChainIn(index, chain) && IsNext(rules, chain, r) && IsNext(rules, chain, r')
    ensures r == r'
  {
    if chain != [] {
      var tip := chain[|chain| - 1];
      match LastGenerated(chain) {
        case None =>
        case Some(b) =>
          if b.time / rules.interval < tip.time / rules.interval {
            var start := Start(rules, tip);
            var c, p :| Drawn(rules, chain, b.modifier, start, c, p, r.modifier);
            var d, q :| Drawn(rules, chain, b.modifier, start, d, q, r'.modifier);
            CandidatesUnique(index, chain, start, c, d);
            SelectionIsUnique(rules, c, b.modifier, start, p, q);
          }
      }
    }
  }

  method GetLastStakeModifier(chain: seq<Block>) returns (r: Option<Block>)
    ensures r == LastGenerated(chain)
  {
    if chain == [] { return None; }
    var i := |chain| - 1;
    assert chain[..i + 1] == chain;
    while i > 0 && !chain[i].generated
      invariant 0 <= i < |chain| && LastGenerated(chain[..i + 1]) == LastGenerated(chain)
    {
      assert chain[..i + 1][..i] == chain[..i];
      i := i - 1;
    }
    assert chain[..i + 1][..i] == chain[..i];
    r := if chain[i].generated then Some(chain[i]) else None;
  }

  /** Walks back from the tip, then turns the list around and sorts it. */
  method CollectCandidates(chain: seq<Block>, start: int) returns (keys: seq<Key>)
    ensures keys == Sort(KeysOf(chain[FirstCandidate(chain, start)..]))
  {
    keys := [];
    var i := |chain|;
    assert chain[..i] == chain;
    while i > 0 && chain[i - 1].time >= start
      invariant 0 <= i <= |chain| && |keys| == |chain| - i
      invariant forall j :: 0 <= j < |keys| ==> keys[j] == KeyOf(chain[|chain| - 1 - j])
      invariant FirstCandidate(chain[..i], start) == FirstCandidate(chain, start)
    {
      assert chain[..i][..i - 1] == chain[..i - 1];
      keys := keys + [KeyOf(chain[i - 1])];
      i := i - 1;
    }
    assert FirstCandidate(chain[..i], start) == i;
    keys := Reversed(keys);
    assert keys == KeysOf(chain[i..]);
    keys := Sort(keys);
  }

  /** The selection rounds. */
  method SelectRounds(rules: Rules, index: map<nat, Block>, keys: seq<Key>, modifier: nat, start: int,
                      ghost cands: seq<Block>)
    returns (ok: bool, next: nat)
    ensures PartlyIndexed(index, keys, cands) && TimeSorted(cands) && DistinctHashes(cands) ==>
      (ok <==> !Obstructed(rules, index, cands, modifier, start))
    ensures PartlyIndexed(index, keys, cands) && TimeSorted(cands) && DistinctHashes(cands) && ok ==>
      exists picks :: Chosen(rules, cands, modifier, start, picks, next)
  {
    ghost var good := PartlyIndexed(index, keys, cands) && TimeSorted(cands) && DistinctHashes(cands);
    next := 0;
    ghost var picks: seq<nat> := [];
    ghost var stops := Stops(rules, start);
    var stop, selected, round := start, {}, 0;
    assert good ==> Taken(cands, []) == {};
    while round < (if |keys| < 64 then |keys| else 64)
      invariant 0 <= round <= (if |keys| < 64 then |keys| else 64)
      invariant good ==> RoundsDone(rules, cands, modifier, start, picks, round, selected, next, stop)
      invariant good ==> RoundsClear(index, cands, stops, picks)
    {
      ghost var before := stop;
      stop := stop + Section(rules.interval, round);
      if good { StopNext(rules, start, round, before); }
      if good {
        var i := SomeFree(cands, picks);
        assert Free(cands, selected, i);
      }
      var found, b := SelectBlock(rules, index, keys, selected, stop, modifier, cands);
      if !found || b.None? {
        if good { RoundObstructed(rules, index, cands, modifier, start, picks, selected, stop); }
        return false, 0;
      }
      ghost var at: nat := 0;
      if good {
        at :| Best(rules, cands, selected, stop, modifier, at) && b == Some(cands[at]);
        RoundDone(rules, cands, modifier, start, picks, round, selected, next, before, stop, at);
        ClearNext(index, cands, stops, picks, selected, stop, at);
      }
      if b.value.entropy { next := next + Power2(round); }
      selected, picks, round := selected + {b.value.hash}, picks + [at], round + 1;
    }
    assert good ==> Chosen(rules, cands, modifier, start, picks, next);
    if good { ClearMeansNone(rules, index, cands, modifier, start, picks); }
    return true, next;
  }

  /** The times up to which the rounds select. */
  function Stops(rules: Rules, start: int): (stops: seq<int>)
    ensures |stops| == 64 && forall r :: 0 <= r < 64 ==> stops[r] == start + Sections(rules.interval, r + 1)
  {
    seq(64, r requires 0 <= r < 64 => start + Sections(rules.interval, r + 1))
  }

  /** The scan of round r, after the picks before it, finds every candidate it comes to in the index. */
  ghost predicate RoundClear(index: map<nat, Block>, cands: seq<Block>, stops: seq<int>, picks: seq<nat>, r: nat)
    requires r <= |picks| && r < |stops| && forall q :: 0 <= q < |picks| ==> picks[q] < |cands|
  {
    !Blind(index, cands, Taken(cands, picks[..r]), stops[r])
  }

  ghost predicate RoundsClear(index: map<nat, Block>, cands: seq<Block>, stops: seq<int>, picks: seq<nat>) {
    && |picks| <= |stops| && (forall q :: 0 <= q < |picks| ==> picks[q] < |cands|)
    && forall r: nat :: r < |picks| ==> RoundClear(index, cands, stops, picks, r)
  }

  /** After the right picks so far, the next round's scan comes to a candidate that is not indexed. */
  ghost predicate ObstructedAt(rules: Rules, index: map<nat, Block>, cands: seq<Block>, modifier: nat, start: int,
                               picks: seq<nat>) {
    && Selection(rules, cands, modifier, start, picks)
    && |picks| < (if |cands| < 64 then |cands| else 64)
    && !RoundClear(index, cands, Stops(rules, start), picks, |picks|)
  }

  lemma StopNext(rules: Rules, start: int, round: nat, before: int)
    requires round < 64 && before == if round == 0 then start else Stops(rules, start)[round - 1]
    ensures before + Section(rules.interval, round) == Stops(rules, start)[round]
  {
    assert Sections(rules.interval, round + 1) == Sections(rules.interval, round) + Section(rules.interval, round);
  }

  /** Some round cannot be completed with this index. */
  ghost predicate Obstructed(rules: Rules, index: map<nat, Block>, cands: seq<Block>, modifier: nat, start: int) {
    exists picks :: ObstructedAt(rules, index, cands, modifier, start, picks)
  }

  lemma ClearNext(index: map<nat, Block>, cands: seq<Block>, stops: seq<int>, picks: seq<nat>, selected: set<nat>,
                  stop: int, at: nat)
    requires RoundsClear(index, cands, stops, picks) && |picks| < |stops| && at < |cands|
    requires selected == Taken(cands, picks) && stop == stops[|picks|] && !Blind(index, cands, selected, stop)
    ensures RoundsClear(index, cands, stops, picks + [at])
  {
    var q := picks + [at];
    assert picks[..|picks|] == picks;
    forall r: nat | r < |q| ensures RoundClear(index, cands, stops, q, r) {
      assert q[..r] == picks[..r];
      assert RoundClear(index, cands, stops, picks, r);
    }
  }

  lemma RoundObstructed(rules: Rules, index: map<nat, Block>, cands: seq<Block>, modifier: nat, start: int,
                        picks: seq<nat>, selected: set<nat>, stop: int)
    requires Selection(rules, cands, modifier, start, picks) && |picks| < if |cands| < 64 then |cands| else 64
    requires selected == Taken(cands, picks) && stop == Stops(rules, start)[|picks|]
    requires Blind(index, cands, selected, stop)
    ensures Obstructed(rules, index, cands, modifier, start)
  {
    assert picks[..|picks|] == picks;
    assert ObstructedAt(rules, index, cands, modifier, start, picks);
  }

  /** The picks being unique, no other run of rounds is obstructed either. */
  lemma ClearMeansNone(rules: Rules, index: map<nat, Block>, cands: seq<Block>, modifier: nat, start: int,
                       picks: seq<nat>)
    requires Selection(rules, cands, modifier, start, picks)
    requires RoundsClear(index, cands, Stops(rules, start), picks)
    requires |picks| == if |cands| < 64 then |cands| else 64
    ensures !Obstructed(rules, index, cands, modifier, start)
  {
    var stops := Stops(rules, start);
    forall p | Selection(rules, cands, modifier, start, p) && |p| < |picks|
      ensures RoundClear(index, cands, stops, p, |p|)
    {
      SelectionFront(rules, cands, modifier, start, picks, |p|);
      SelectionIsUnique(rules, cands, modifier, start, p, picks[..|p|]);
      assert p[..|p|] == picks[..|p|];
      assert RoundClear(index, cands, stops, picks, |p|);
    }
  }

  /** With every candidate in the index no round is obstructed. */
  lemma IndexedIsClear(rules: Rules, index: map<nat, Block>, cands: seq<Block>, modifier: nat, start: int)
    requires forall i :: 0 <= i < |cands| ==> cands[i].hash in index
    ensures !Obstructed(rules, index, cands, modifier, start)
  {
  }

  /** Every round has picked well, and the entropy bits of the picks make up the modifier. */
  ghost predicate Chosen(rules: Rules, cands: seq<Block>, modifier: nat, start: int, picks: seq<nat>, next: nat) {
    && Selection(rules, cands, modifier, start, picks)
    && |picks| == (if |cands| < 64 then |cands| else 64)
    && next == Entropy(cands, picks)
  }

  ghost predicate RoundsDone(rules: Rules, cands: seq<Block>, modifier: nat, start: int, picks: seq<nat>,
                             round: nat, selected: set<nat>, next: nat, stop: int) {
    && Selection(rules, cands, modifier, start, picks) && |picks| == round
    && selected == Taken(cands, picks) && next == Entropy(cands, picks)
    && round <= 64 && stop == if round == 0 then start else Stops(rules, start)[round - 1]
  }

  lemma RoundDone(rules: Rules, cands: seq<Block>, modifier: nat, start: int, picks: seq<nat>,
                  round: nat, selected: set<nat>, next: nat, before: int, stop: int, at: nat)
    requires round < 64 && RoundsDone(rules, cands, modifier, start, picks, round, selected, next, before)
    requires stop == Stops(rules, start)[round]
    requires Best(rules, cands, selected, stop, modifier, at)
    ensures RoundsDone(rules, cands, modifier, start, picks + [at], round + 1, selected + {cands[at].hash},
                       next + (if cands[at].entropy then Power2(round) else 0), stop)
  {
    SelectionNext(rules, cands, modifier, start, picks, at);
    TakenNext(cands, picks, at);
    assert (picks + [at])[..round] == picks;
  }

  /** A chain of different blocks, of which the index may lack some but gives none wrongly. */
  predicate ChainAgrees(index: map<nat, Block>, chain: seq<Block>) {
    && DistinctHashes(chain)
    && forall i :: 0 <= i < |chain| ==>
         chain[i].height == i && (chain[i].hash in index ==> index[chain[i].hash] == chain[i])
  }

  ghost function OwnIndex(chain: seq<Block>): map<nat, Block> {
    if chain == [] then map[] else OwnIndex(chain[..|chain| - 1])[chain[|chain| - 1].hash := chain[|chain| - 1]]
  }

  lemma {:induction false} OwnIndexHolds(chain: seq<Block>, n: nat)
    requires DistinctHashes(chain) && n <= |chain|
    ensures forall i :: 0 <= i < n ==>
      chain[i].hash in OwnIndex(chain[..n]) && OwnIndex(chain[..n])[chain[i].hash] == chain[i]
  {
    if n > 0 {
      OwnIndexHolds(chain, n - 1);
      assert chain[..n][..n - 1] == chain[..n - 1];
    }
  }

  /** A new modifier is due, and the rounds that make it come to a block that is not in the index. */
  ghost predicate Unfinishable(rules: Rules, index: map<nat, Block>, chain: seq<Block>)
    requires rules.interval > 0
  {
    && chain != [] && LastGenerated(chain).Some?
    && var tip, b := chain[|chain| - 1], LastGenerated(chain).value;
       && b.time / rules.interval < tip.time / rules.interval
       && exists cands :: Hindered(rules, index, chain, b.modifier, Start(rules, tip), cands)
  }

  ghost predicate Hindered(rules: Rules, index: map<nat, Block>, chain: seq<Block>, modifier: nat, start: int,
                           cands: seq<Block>) {
    Candidates(chain, start, cands) && Obstructed(rules, index, cands, modifier, start)
  }

  /** The next modifier of a chain, given the tip's ancestors. With an index that holds them all every
    * round succeeds, and the outcome depends on the chain alone. With one that lacks some of them it is
    * the same outcome, or a failure exactly when a round comes to a block that is missing. */
  method ComputeNextStakeModifier(rules: Rules, index: map<nat, Block>, chain: seq<Block>) returns (r: Outcome)
    requires rules.interval > 0
    ensures ChainIn(index, chain) ==> IsNext(rules, chain, r)
    ensures ChainAgrees(index, chain) ==>
      if Unfinishable(rules, index, chain) then r == Failed else IsNext(rules, chain, r)
  {
    if chain == [] { return Fresh(0); }
    var tip := chain[|chain| - 1];
    var last := GetLastStakeModifier(chain);
    if last.None? { return Failed; }
    if last.value.time / rules.interval >= tip.time / rules.interval { return Kept(last.value.modifier); }
    var selection := SelectionInterval(rules.interval);
    var start := tip.time / rules.interval * rules.interval - selection;
    var keys := CollectCandidates(chain, start);
    ghost var cands := SortBlocks(chain[FirstCandidate(chain, start)..]);
    ghost var modifier := last.value.modifier;
    if ChainIn(index, chain) {
      CandidatesOf(index, chain, start, keys, cands);
      IndexedIsClear(rules, index, cands, modifier, start);
    }
    if ChainAgrees(index, chain) { PartlyCandidates(index, chain, start, keys, cands); }
    var ok, next := SelectRounds(rules, index, keys, last.value.modifier, start, cands);
    if ChainIn(index, chain) || ChainAgrees(index, chain) {
      RoundsDecide(rules, index, chain, last.value, start, cands, ok, next);
    }
    return if ok then Fresh(next) else Failed;
  }

  /** What the rounds yield is the outcome of the chain, or a failure for want of a block. */
  lemma {:induction false} RoundsDecide(rules: Rules, index: map<nat, Block>, chain: seq<Block>, b: Block, start: int,
                                        cands: seq<Block>, ok: bool, next: nat)
    requires rules.interval > 0 && chain != [] && LastGenerated(chain) == Some(b)
    requires b.time / rules.interval < chain[|chain| - 1].time / rules.interval
    requires start == Start(rules, chain[|chain| - 1]) && Candidates(chain, start, cands)
    requires ok <==> !Obstructed(rules, index, cands, b.modifier, start)
    requires ok ==> exists picks :: Chosen(rules, cands, b.modifier, start, picks, next)
    ensures ok ==> IsNext(rules, chain, Fresh(next))
    ensures ChainAgrees(index, chain) ==> (Unfinishable(rules, index, chain) <==> !ok)
  {
    if ok {
      var picks :| Chosen(rules, cands, b.modifier, start, picks, next);
      assert Drawn(rules, chain, b.modifier, start, cands, picks, next);
      if ChainAgrees(index, chain) { NotHindered(rules, index, chain, b.modifier, start, cands); }
    } else {
      assert Hindered(rules, index, chain, b.modifier, start, cands);
    }
  }

  lemma NotHindered(rules: Rules, index: map<nat, Block>, chain: seq<Block>, modifier: nat, start: int,
                    cands: seq<Block>)
    requires ChainAgrees(index, chain) && Candidates(chain, start, cands)
    requires !Obstructed(rules, index, cands, modifier, start)
    ensures !exists c :: Hindered(rules, index, chain, modifier, start, c)
  {
    OwnIndexHolds(chain, |chain|);
    assert chain[..|chain|] == chain;
    forall c | Candidates(chain, start, c) ensures c == cands {
      CandidatesUnique(OwnIndex(chain), chain, start, c, cands);
    }
  }

  lemma PartlyCandidates(index: map<nat, Block>, chain: seq<Block>, start: int, keys: seq<Key>, cands: seq<Block>)
    requires ChainAgrees(index, chain)
    requires keys == Sort(KeysOf(chain[FirstCandidate(chain, start)..]))
    requires cands == SortBlocks(chain[FirstCandidate(chain, start)..])
    ensures Candidates(chain, start, cands) && PartlyIndexed(index, keys, cands) && TimeSorted(cands) &&
      DistinctHashes(cands)
  {
    var own := OwnIndex(chain[..|chain|]);
    OwnIndexHolds(chain, |chain|);
    CandidatesOf(own, chain, start, keys, cands);
    forall i | 0 <= i < |keys| && keys[i].hash in index ensures index[keys[i].hash] == cands[i] {
      assert cands[i] in multiset(cands);
      assert cands[i] in chain[FirstCandidate(chain, start)..];
      var j :| 0 <= j < |chain| && chain[j] == cands[i];
    }
  }

  lemma CandidatesOf(index: map<nat, Block>, chain: seq<Block>, start: int, keys: seq<Key>, cands: seq<Block>)
    requires ChainIn(index, chain)
    requires keys == Sort(KeysOf(chain[FirstCandidate(chain, start)..]))
    requires cands == SortBlocks(chain[FirstCandidate(chain, start)..])
    ensures Candidates(chain, start, cands) && PartlyIndexed(index, keys, cands) && TimeSorted(cands) &&
      DistinctHashes(cands)
    ensures forall i :: 0 <= i < |keys| ==> keys[i] == KeyOf(cands[i]) && keys[i].hash in index
  {
    var whole := chain[FirstCandidate(chain, start)..];
    SortBlocksKeys(whole);
    SortFacts(KeysOf(whole));
    assert ChainPart(index, whole);
    PartOrder(index, whole, cands);
    forall i | 0 <= i < |keys| ensures keys[i] == KeyOf(cands[i]) && keys[i].hash in index &&
      index[keys[i].hash] == cands[i] {
      assert keys[i] == KeysOf(cands)[i] == KeyOf(cands[i]);
    }
  }
}
