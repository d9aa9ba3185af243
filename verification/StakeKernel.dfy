/** The proof-of-stake kernel (src/kernel.cpp): the test of a coin against the target, and the search
  * for a timestamp that passes it.
  */
module StakeKernel {
  import opened StakeModifier
  import opened Pieces
  import Numbers

  const COIN: int := 100000000
  const DAY: int := 24 * 60 * 60
  const TWO32: nat := 0x1_0000_0000

  /** The minimum and maximum age of a stake in seconds. */
  datatype Ages = Ages(min: nat, max: nat)

  /** The coin that stakes: its value, the times of its transaction and of its block, the target per
    * coin day, and the kernel hash for each timestamp. */
  datatype Coin = Coin(value: int, txTime: nat, blockTime: nat, target: int, hash: nat -> nat)

  // ---------------------------------------------------------------- the test

  /** Division that truncates toward zero. */
  function Quot(a: int, b: int): int
    requires b > 0
  {
    if a >= 0 then a / b else -(-a / b)
  }

  function Weight(ages: Ages, begin: int, end: int): int {
    var w := end - begin - ages.min;
    if w < ages.max then w else ages.max
  }

  function CoinDays(value: int, weight: int): int { Quot(Quot(value * weight, COIN), DAY) }

  predicate TargetHit(hash: nat, weight: int, c: Coin) { hash < CoinDays(c.value, weight) * c.target }

  /** The time tests that come first; the sum is a 32-bit one. */
  predicate TimesPass(ages: Ages, c: Coin, time: nat) {
    time >= c.txTime && (c.blockTime + ages.min) % TWO32 <= time
  }

  /** What a verifier accepts. */
  predicate Accepted(ages: Ages, c: Coin, time: nat) {
    TimesPass(ages, c, time) && TargetHit(c.hash(time), Weight(ages, c.txTime, time), c)
  }

  // ---------------------------------------------------------------- what is accepted, in plain numbers

  /** The two divisions of the coin days are one, by the satoshis of a coin times the seconds of a day,
    * rounding toward zero. */
  lemma DaysInOneDivision(value: int, w: int)
    ensures CoinDays(value, w) ==
      if value * w >= 0 then value * w / 8640000000000 else -(-(value * w) / 8640000000000)
  {
    var a := value * w;
    if a >= 0 {
      Numbers.DivDiv(a, COIN, DAY);
      DivNonNegative(a, COIN);
    } else {
      Numbers.DivDiv(-a, COIN, DAY);
      DivNonNegative(-a, COIN);
    }
  }

  /** What a verifier accepts, in plain numbers: the coin's age less the minimum counts, but no more than
    * the maximum. */
  lemma AcceptedMeans(ages: Ages, c: Coin, time: nat)
    ensures
      var age := time - c.txTime - ages.min;
      var stake := c.value * if age < ages.max then age else ages.max;
      var days := if stake >= 0 then stake / 8640000000000 else -(-stake / 8640000000000);
      Accepted(ages, c, time) <==>
        c.txTime <= time && (c.blockTime + ages.min) % 0x1_0000_0000 <= time && c.hash(time) < days * c.target
  {
    DaysInOneDivision(c.value, Weight(ages, c.txTime, time));
  }

  /** Once the coin is as old as counts, its age no longer matters: only the hash decides. */
  lemma OldCoinsAreEqual(ages: Ages, c: Coin, time: nat)
    requires time >= c.txTime + ages.min + ages.max && c.value >= 0
    requires (c.blockTime + ages.min) % 0x1_0000_0000 <= time
    ensures Accepted(ages, c, time) <==> c.hash(time) < c.value * ages.max / 8640000000000 * c.target
  {
    AcceptedMeans(ages, c, time);
    ProductMonotone(0, ages.max, c.value);
  }

  /** Up to that age every second counts. */
  lemma YoungCoinsGrow(ages: Ages, c: Coin, time: nat)
    requires c.txTime + ages.min <= time < c.txTime + ages.min + ages.max && c.value >= 0
    requires (c.blockTime + ages.min) % 0x1_0000_0000 <= time
    ensures Accepted(ages, c, time) <==>
      c.hash(time) < c.value * (time - c.txTime - ages.min) / 8640000000000 * c.target
  {
    AcceptedMeans(ages, c, time);
    ProductMonotone(0, time - c.txTime - ages.min, c.value);
  }

  // ---------------------------------------------------------------- more weight, more chance

  lemma QuotMonotone(a: int, b: int, d: int)
    requires d > 0 && a <= b
    ensures Quot(a, d) <= Quot(b, d)
  {
    if a >= 0 {
      DivMonotone(a, b, d);
    } else if b < 0 {
      DivMonotone(-b, -a, d);
    } else {
      DivNonNegative(-a, d);
      DivNonNegative(b, d);
    }
  }

  lemma DivNonNegative(a: int, d: int)
    requires d > 0 && a >= 0
    ensures a / d >= 0
  {
  }

  lemma DivMonotone(a: int, b: int, d: int)
    requires d > 0 && a <= b
    ensures a / d <= b / d
  {
    var p, q := a / d, b / d;
    assert d * p <= a && b < d * q + d;
    if p > q { Spread(d, q, p); }
  }

  lemma Spread(d: int, q: int, p: int)
    requires d > 0 && q < p
    ensures d * q + d <= d * p
  {
    ProductMonotone(q + 1, p, d);
    assert d * (q + 1) == d * q + d;
  }

  lemma ProductMonotone(a: int, b: int, k: int)
    requires a <= b && k >= 0
    ensures a * k <= b * k && k * a <= k * b
  {
  }

  /** Value and target have the same sign, or one of them is zero. */
  predicate SameSigns(c: Coin) { (c.value >= 0 && c.target >= 0) || (c.value <= 0 && c.target <= 0) }

  function Mirrored(c: Coin): Coin { c.(value := -c.value, target := -c.target) }

  /** Changing both signs changes no test. */
  lemma MirrorHits(hash: nat, w: int, c: Coin)
    ensures TargetHit(hash, w, Mirrored(c)) <==> TargetHit(hash, w, c)
  {
    MirrorDays(c.value, w);
    MirrorProduct(CoinDays(c.value, w), c.target);
  }

  lemma MirrorDays(value: int, w: int)
    ensures CoinDays(-value, w) == -CoinDays(value, w)
  {
    assert -value * w == -(value * w);
    MirrorQuot(value * w, COIN);
    MirrorQuot(Quot(value * w, COIN), DAY);
  }

  lemma MirrorQuot(a: int, b: int)
    requires b > 0
    ensures Quot(-a, b) == -Quot(a, b)
  {
  }

  lemma MirrorProduct(a: int, b: int)
    ensures -a * -b == a * b
  {
  }

  /** A later timestamp never turns a hit into a miss. */
  lemma LaterStillHits(ages: Ages, c: Coin, hash: nat, early: int, late: int)
    requires SameSigns(c) && early <= late
    requires TargetHit(hash, Weight(ages, c.txTime, early), c)
    ensures TargetHit(hash, Weight(ages, c.txTime, late), c)
  {
    var v, w := Weight(ages, c.txTime, early), Weight(ages, c.txTime, late);
    if c.value >= 0 && c.target >= 0 {
      HeavierStillHits(hash, v, w, c);
    } else {
      MirrorHits(hash, v, c);
      HeavierStillHits(hash, v, w, Mirrored(c));
      MirrorHits(hash, w, c);
    }
  }

  lemma HeavierStillHits(hash: nat, v: int, w: int, c: Coin)
    requires c.value >= 0 && c.target >= 0 && v <= w && TargetHit(hash, v, c)
    ensures TargetHit(hash, w, c)
  {
    ProductMonotone(v, w, c.value);
    QuotMonotone(c.value * v, c.value * w, COIN);
    QuotMonotone(Quot(c.value * v, COIN), Quot(c.value * w, COIN), DAY);
    ProductMonotone(CoinDays(c.value, v), CoinDays(c.value, w), c.target);
  }

  /** Later timestamps keep the hits of a coin. */
  ghost predicate KeepsHits(ages: Ages, c: Coin) {
    forall hash: nat, early: int, late: int ::
      early <= late && TargetHit(hash, Weight(ages, c.txTime, early), c) ==>
        TargetHit(hash, Weight(ages, c.txTime, late), c)
  }

  /** That is so exactly for equal signs. */
  lemma KeepsHitsIffSameSigns(ages: Ages, c: Coin)
    ensures KeepsHits(ages, c) <==> SameSigns(c)
  {
    if SameSigns(c) {
      forall hash: nat, early: int, late: int
        | early <= late && TargetHit(hash, Weight(ages, c.txTime, early), c)
        ensures TargetHit(hash, Weight(ages, c.txTime, late), c)
      {
        LaterStillHits(ages, c, hash, early, late);
      }
    } else {
      UnequalSignsMiss(ages, c);
    }
  }

  /** With unequal signs a weight of -COIN * DAY hits what no weight misses. */
  lemma UnequalSignsMiss(ages: Ages, c: Coin)
    requires !SameSigns(c)
    ensures
      var late := c.txTime + ages.min;
      var early := late - COIN * DAY;
      && TargetHit(0, Weight(ages, c.txTime, early), c) && !TargetHit(0, Weight(ages, c.txTime, late), c)
  {
    var late := c.txTime + ages.min;
    assert Weight(ages, c.txTime, late) == 0 && CoinDays(c.value, 0) == 0;
    assert Weight(ages, c.txTime, late - COIN * DAY) == -COIN * DAY;
    WholeDays(c.value);
    NegativeProduct(c.value, c.target);
  }

  lemma WholeDays(value: int)
    ensures CoinDays(value, -COIN * DAY) == -value
  {
    assert value * (-COIN * DAY) == -value * DAY * COIN;
    ExactQuot(-value * DAY, COIN);
    ExactQuot(-value, DAY);
  }

  lemma ExactQuot(a: int, b: int)
    requires b > 0
    ensures Quot(a * b, b) == a
  {
    var n := if a >= 0 then a else -a;
    assert -(a * b) == -a * b;
    ProductMonotone(0, n, b);
    ExactDiv(n, b);
  }

  lemma ExactDiv(n: nat, b: int)
    requires b > 0
    ensures n * b / b == n
  {
    var q := n * b / b;
    assert b * q <= n * b < b * q + b;
    if q < n { Spread(b, q, n); } else if q > n { Spread(b, n, q); }
  }

  lemma NegativeProduct(a: int, b: int)
    requires (a > 0 && b < 0) || (a < 0 && b > 0)
    ensures -a * b > 0
  {
  }

  /** A timestamp before the coin's own gives it no hit. */
  lemma EarlyMisses(ages: Ages, c: Coin, hash: nat, at: nat)
    requires SameSigns(c) && at < c.txTime
    ensures !TargetHit(hash, Weight(ages, c.txTime, at), c)
  {
    var w := Weight(ages, c.txTime, at);
    if TargetHit(hash, w, c) {
      if c.value < 0 || c.target < 0 { MirrorHits(hash, w, c); NegativeMisses(hash, w, Mirrored(c)); }
      else { NegativeMisses(hash, w, c); }
    }
  }

  lemma NegativeMisses(hash: nat, w: int, c: Coin)
    requires c.value >= 0 && c.target >= 0 && w < 0
    ensures !TargetHit(hash, w, c)
  {
    assert CoinDays(c.value, 0) == 0;
    if TargetHit(hash, w, c) { HeavierStillHits(hash, w, 0, c); }
  }

  // ---------------------------------------------------------------- the search

  /** Try i of a search that stands at timestamp `at`, in 32 bits. */
  function Try(at: nat, drift: nat, i: nat): (try: nat)
    requires i <= drift
    ensures try < TWO32
  {
    (at + drift - i) % TWO32
  }

  /** Try i of a search that stands at `time` hits the target. */
  predicate TryHits(ages: Ages, c: Coin, time: nat, drift: nat, i: nat)
    requires i < drift
  {
    TargetHit(c.hash(Try(time, drift, i)), Weight(ages, c.txTime, time), c)
  }

  ghost predicate SomeHit(ages: Ages, c: Coin, time: nat, drift: nat, n: nat)
    requires n <= drift
  {
    exists i: nat :: i < n && TryHits(ages, c, time, drift, i)
  }

  /** What is left of the search from try i on, at timestamp `at`: success so far, and the timestamp. */
  function Searched(ages: Ages, c: Coin, ok: bool, at: nat, drift: nat, i: nat): (bool, nat)
    requires i <= drift
    decreases drift - i
  {
    if i == drift then (ok, at)
    else if TryHits(ages, c, at, drift, i) then Searched(ages, c, true, Try(at, drift, i), drift, i + 1)
    else Searched(ages, c, ok, at, drift, i + 1)
  }

  /** No try from `first` to before `last` hits from timestamp `at`. */
  ghost predicate Quiet(ages: Ages, c: Coin, at: nat, drift: nat, first: nat, last: nat)
    requires last <= drift
  {
    forall j: nat :: first <= j < last ==> !TryHits(ages, c, at, drift, j)
  }

  /** The tries that hit, in their order. */
  ghost predicate InOrder(hits: seq<nat>, i: nat, drift: nat) {
    && (forall k :: 0 <= k < |hits| ==> i <= hits[k] < drift)
    && forall k, l :: 0 <= k < l < |hits| ==> hits[k] < hits[l]
  }

  /** Hit k goes from timestamp k to timestamp k + 1. */
  ghost predicate Moves(ages: Ages, c: Coin, drift: nat, hits: seq<nat>, stamps: seq<nat>, k: nat)
    requires k < |hits| && |stamps| == |hits| + 1 && hits[k] < drift
  {
    TryHits(ages, c, stamps[k], drift, hits[k]) && stamps[k + 1] == (stamps[k] + drift - hits[k]) % 0x1_0000_0000
  }

  /** No other try hits while the search stands at timestamp k. */
  ghost predicate Waits(ages: Ages, c: Coin, drift: nat, i: nat, hits: seq<nat>, stamps: seq<nat>, k: nat)
    requires k <= |hits| && |stamps| == |hits| + 1 && InOrder(hits, i, drift)
  {
    Quiet(ages, c, stamps[k], drift, if k == 0 then i else hits[k - 1] + 1, if k < |hits| then hits[k] else drift)
  }

  /** The course of a search from try i on: the tries that hit, and the timestamps it stood at. */
  ghost predicate IsCourse(ages: Ages, c: Coin, drift: nat, i: nat, hits: seq<nat>, stamps: seq<nat>) {
    && |stamps| == |hits| + 1 && InOrder(hits, i, drift)
    && (forall k: nat :: k < |hits| ==> Moves(ages, c, drift, hits, stamps, k))
    && forall k: nat :: k <= |hits| ==> Waits(ages, c, drift, i, hits, stamps, k)
  }

  /** A search follows its course to the end: it goes on after each hit, from the timestamp it hit. */
  lemma {:induction false} SearchCourse(ages: Ages, c: Coin, ok: bool, at: nat, drift: nat, i: nat)
    returns (hits: seq<nat>, stamps: seq<nat>)
    requires i <= drift
    ensures IsCourse(ages, c, drift, i, hits, stamps) && stamps[0] == at
    ensures Searched(ages, c, ok, at, drift, i) == (ok || hits != [], stamps[|stamps| - 1])
    decreases drift - i
  {
    if i == drift {
      hits, stamps := [], [at];
      assert Waits(ages, c, drift, i, hits, stamps, 0);
    } else if TryHits(ages, c, at, drift, i) {
      var h, s := SearchCourse(ages, c, true, Try(at, drift, i), drift, i + 1);
      hits, stamps := [i] + h, [at] + s;
      CourseAfterHit(ages, c, at, drift, i, h, s);
    } else {
      hits, stamps := SearchCourse(ages, c, ok, at, drift, i + 1);
      CourseAfterMiss(ages, c, drift, i, hits, stamps);
    }
  }

  lemma CourseAfterMiss(ages: Ages, c: Coin, drift: nat, i: nat, hits: seq<nat>, stamps: seq<nat>)
    requires i < drift && IsCourse(ages, c, drift, i + 1, hits, stamps) && !TryHits(ages, c, stamps[0], drift, i)
    ensures IsCourse(ages, c, drift, i, hits, stamps)
  {
    forall k: nat | k <= |hits| ensures Waits(ages, c, drift, i, hits, stamps, k) {
      assert Waits(ages, c, drift, i + 1, hits, stamps, k);
    }
  }

  lemma CourseAfterHit(ages: Ages, c: Coin, at: nat, drift: nat, i: nat, hits: seq<nat>, stamps: seq<nat>)
    requires i < drift && TryHits(ages, c, at, drift, i)
    requires IsCourse(ages, c, drift, i + 1, hits, stamps) && stamps[0] == Try(at, drift, i)
    ensures IsCourse(ages, c, drift, i, [i] + hits, [at] + stamps)
  {
    var h, s := [i] + hits, [at] + stamps;
    assert InOrder(h, i, drift);
    forall k: nat | k < |h| ensures Moves(ages, c, drift, h, s, k) {
      if k > 0 { assert Moves(ages, c, drift, hits, stamps, k - 1); }
    }
    forall k: nat | k <= |h| ensures Waits(ages, c, drift, i, h, s, k) {
      if k > 0 { WaitsOn(ages, c, at, drift, i, hits, stamps, k - 1); }
    }
  }

  lemma WaitsOn(ages: Ages, c: Coin, at: nat, drift: nat, i: nat, hits: seq<nat>, stamps: seq<nat>, k: nat)
    requires i < drift && |stamps| == |hits| + 1 && k <= |hits| && InOrder(hits, i + 1, drift)
    requires InOrder([i] + hits, i, drift) && Waits(ages, c, drift, i + 1, hits, stamps, k)
    ensures Waits(ages, c, drift, i, [i] + hits, [at] + stamps, k + 1)
  {
    var h, s := [i] + hits, [at] + stamps;
    assert s[k + 1] == stamps[k] && h[k] == if k == 0 then i else hits[k - 1];
  }

  /** Some hit of the search lies beyond 2^32, so that its timestamp wraps around. */
  predicate Wraps(ages: Ages, c: Coin, at: nat, drift: nat, i: nat)
    requires i <= drift
    decreases drift - i
  {
    i < drift
    && var try := at + drift - i;
       if TryHits(ages, c, at, drift, i)
       then try >= TWO32 || Wraps(ages, c, try, drift, i + 1)
       else Wraps(ages, c, at, drift, i + 1)
  }

  /** Checks the one timestamp given, or searches the `drift` seconds after it, from the latest down.
    * The search goes on after a hit, from the timestamp it hit. */
  method CheckStakeKernelHash(ages: Ages, c: Coin, modifierFound: bool, time: nat, drift: nat, check: bool)
    returns (ok: bool, at: nat)
    requires time < TWO32
    ensures check ==> at == time && (ok <==> modifierFound && Accepted(ages, c, time))
    ensures check && modifierFound && c.value >= 0 && time >= c.txTime + ages.min + ages.max ==>
      (ok <==> && (c.blockTime + ages.min) % 0x1_0000_0000 <= time
               && c.hash(time) < c.value * ages.max / 8640000000000 * c.target)
    ensures !check ==> (ok <==> modifierFound && TimesPass(ages, c, time) && SomeHit(ages, c, time, drift, drift))
    ensures at < TWO32 && (!ok ==> at == time)
    ensures !check && ok ==> (ok, at) == Searched(ages, c, false, time, drift, 0)
    ensures ok && SameSigns(c) && !Wraps(ages, c, time, drift, 0) ==> Accepted(ages, c, at) && time <= at
    ensures !check && ok && SameSigns(c) && drift <= c.txTime ==>
      (Accepted(ages, c, at) <==> !Wraps(ages, c, time, drift, 0))
  {
    at := time;
    if time < c.txTime { return false, at; }
    if (c.blockTime + ages.min) % TWO32 > time { return false, at; }
    if !modifierFound { return false, at; }
    if check {
      if c.value >= 0 && time >= c.txTime + ages.min + ages.max { OldCoinsAreEqual(ages, c, time); }
      ok := TargetHit(c.hash(time), Weight(ages, c.txTime, time), c);
      return ok, at;
    }
    ok, at := Search(ages, c, time, drift);
    if SameSigns(c) {
      if !Wraps(ages, c, time, drift, 0) {
        SearchAccepts(ages, c, time, false, time, drift, 0);
      } else if drift <= c.txTime {
        WrapRejected(ages, c, false, time, drift, 0);
      }
    }
  }

  method Search(ages: Ages, c: Coin, time: nat, drift: nat) returns (ok: bool, at: nat)
    requires time < TWO32
    ensures (ok, at) == Searched(ages, c, false, time, drift, 0)
    ensures ok <==> SomeHit(ages, c, time, drift, drift)
    ensures at < TWO32 && (!ok ==> at == time)
  {
    ok, at := false, time;
    var i := 0;
    while i < drift
      invariant 0 <= i <= drift && at < TWO32
      invariant !ok ==> at == time
      invariant ok <==> SomeHit(ages, c, time, drift, i)
      invariant Searched(ages, c, ok, at, drift, i) == Searched(ages, c, false, time, drift, 0)
    {
      var try := Try(at, drift, i);
      SomeHitNext(ages, c, time, drift, i);
      if TargetHit(c.hash(try), Weight(ages, c.txTime, at), c) { ok, at := true, try; }
      i := i + 1;
    }
  }

  lemma SomeHitNext(ages: Ages, c: Coin, time: nat, drift: nat, i: nat)
    requires i < drift
    ensures SomeHit(ages, c, time, drift, i + 1)
      <==> SomeHit(ages, c, time, drift, i) || TryHits(ages, c, time, drift, i)
  {
  }

  /** As long as no hit wraps, each hit is accepted, and so is the last one. */
  lemma {:induction false} SearchAccepts(ages: Ages, c: Coin, time: nat, ok: bool, at: nat, drift: nat, i: nat)
    requires SameSigns(c) && TimesPass(ages, c, time) && time <= at < TWO32 && i <= drift
    requires (ok ==> Accepted(ages, c, at)) && !Wraps(ages, c, at, drift, i)
    ensures
      var (ok', at') := Searched(ages, c, ok, at, drift, i);
      at <= at' < TWO32 && (ok' ==> Accepted(ages, c, at'))
    decreases drift - i
  {
    if i < drift {
      var ahead := drift - i;
      if TryHits(ages, c, at, drift, i) {
        HitIsAccepted(ages, c, time, at, ahead);
        SearchAccepts(ages, c, time, true, at + ahead, drift, i + 1);
      } else {
        SearchAccepts(ages, c, time, ok, at, drift, i + 1);
      }
    }
  }

  lemma HitIsAccepted(ages: Ages, c: Coin, time: nat, at: nat, ahead: nat)
    requires SameSigns(c) && TimesPass(ages, c, time) && time <= at && ahead > 0 && at + ahead < TWO32
    requires TargetHit(c.hash((at + ahead) % TWO32), Weight(ages, c.txTime, at), c)
    ensures (at + ahead) % TWO32 == at + ahead && Accepted(ages, c, at + ahead)
  {
    assert (at + ahead) % TWO32 == at + ahead;
    LaterStillHits(ages, c, c.hash(at + ahead), at, at + ahead);
  }

  /** The most by which the hits of a search can move the timestamp. */
  function Triangle(n: nat): nat { if n == 0 then 0 else n + Triangle(n - 1) }

  /** With that much room below 2^32 nothing wraps, whatever the hashes are. */
  lemma {:induction false} RoomMeansNoWrap(ages: Ages, c: Coin, at: nat, drift: nat, i: nat)
    requires i <= drift && at + Triangle(drift - i) < TWO32
    ensures !Wraps(ages, c, at, drift, i)
    decreases drift - i
  {
    if i < drift {
      var ahead := drift - i;
      assert Triangle(ahead) == ahead + Triangle(ahead - 1);
      RoomMeansNoWrap(ages, c, at, drift, i + 1);
      RoomMeansNoWrap(ages, c, at + ahead, drift, i + 1);
    }
  }

  /** From a timestamp before the coin's own the search does not move. */
  lemma {:induction false} NoHitEarly(ages: Ages, c: Coin, ok: bool, at: nat, drift: nat, i: nat)
    requires SameSigns(c) && at < c.txTime && i <= drift
    ensures Searched(ages, c, ok, at, drift, i) == (ok, at)
    decreases drift - i
  {
    if i < drift {
      EarlyMisses(ages, c, c.hash(Try(at, drift, i)), at);
      NoHitEarly(ages, c, ok, at, drift, i + 1);
    }
  }

  /** A hit that wraps lands before the coin's own timestamp, where the search stays and no verifier
    * accepts. */
  lemma {:induction false} WrapRejected(ages: Ages, c: Coin, ok: bool, at: nat, drift: nat, i: nat)
    requires SameSigns(c) && drift <= c.txTime < TWO32 && at < TWO32 && i <= drift && Wraps(ages, c, at, drift, i)
    ensures
      var (ok', at') := Searched(ages, c, ok, at, drift, i);
      ok' && at' < c.txTime && !Accepted(ages, c, at')
    decreases drift - i
  {
    var ahead := drift - i;
    if !TryHits(ages, c, at, drift, i) {
      WrapRejected(ages, c, ok, at, drift, i + 1);
    } else {
      TryIs(at, drift, i);
      if at + ahead < TWO32 {
        WrapRejected(ages, c, true, at + ahead, drift, i + 1);
      } else {
        NoHitEarly(ages, c, true, at + ahead - TWO32, drift, i + 1);
      }
    }
  }

  lemma TryIs(at: nat, drift: nat, i: nat)
    requires at < TWO32 && i <= drift < TWO32
    ensures Try(at, drift, i) == at + drift - i - if at + drift - i < TWO32 then 0 else TWO32
  {
  }

  /** A verifier confirms what the search returns exactly when no hit wrapped. */
  method SearchThenCheck(ages: Ages, c: Coin, modifierFound: bool, time: nat, drift: nat)
    returns (found: bool, at: nat, confirmed: bool)
    requires time < TWO32
    ensures found && SameSigns(c) && !Wraps(ages, c, time, drift, 0) ==> confirmed
    ensures found && SameSigns(c) && drift <= c.txTime ==> (confirmed <==> !Wraps(ages, c, time, drift, 0))
    ensures confirmed ==> modifierFound && Accepted(ages, c, at)
  {
    found, at := CheckStakeKernelHash(ages, c, modifierFound, time, drift, false);
    var again;
    confirmed, again := CheckStakeKernelHash(ages, c, modifierFound, at, drift, true);
  }

  /** A coin that hits at every timestamp that gives it weight. */
  function EagerCoin(): Coin { Coin(COIN * DAY, TWO32 - 10000, 0, 1, _ => 0) }

  /** Whatever the drift up to the coin's timestamp, a search that starts at the last 32-bit timestamp
    * wraps to one that no verifier accepts. */
  lemma WrapBreaks(drift: nat)
    requires 1 <= drift <= TWO32 - 10000
    ensures
      var ages, c, time := Ages(900, 2160000), EagerCoin(), TWO32 - 1;
      && TimesPass(ages, c, time) && Wraps(ages, c, time, drift, 0)
      && Searched(ages, c, false, time, drift, 0) == (true, drift - 1) && !Accepted(ages, c, drift - 1)
  {
    var ages, c, time := Ages(900, 2160000), EagerCoin(), TWO32 - 1;
    assert Weight(ages, c.txTime, time) == 9099;
    assert CoinDays(c.value, 9099) == 9099;
    assert Try(time, drift, 0) == drift - 1;
    NoHitEarly(ages, c, true, drift - 1, drift, 1);
  }

  /** A coin of timestamp 0 that hits at one timestamp only. */
  function LateCoin(hit: nat): Coin { Coin(COIN * DAY, 0, 0, 1, x => if x == hit then 0 else 3000000) }

  /** With a drift beyond the coin's timestamp a wrap may land where the coin has weight again. */
  lemma WrapAccepted(drift: nat)
    requires 902 <= drift <= 2160000
    ensures
      var ages, c, time := Ages(900, 2160000), LateCoin(drift - 1), TWO32 - 1;
      && c.txTime < drift && TimesPass(ages, c, time) && Wraps(ages, c, time, drift, 0)
      && Searched(ages, c, false, time, drift, 0) == (true, drift - 1) && Accepted(ages, c, drift - 1)
  {
    var ages, c, time := Ages(900, 2160000), LateCoin(drift - 1), TWO32 - 1;
    assert Try(time, drift, 0) == drift - 1;
    assert CoinDays(c.value, 2160000) == 2160000;
    assert CoinDays(c.value, drift - 901) == drift - 901;
    NoOtherHit(drift, 1);
  }

  lemma {:induction false} NoOtherHit(drift: nat, i: nat)
    requires 902 <= drift <= 2160000 && 1 <= i <= drift
    ensures Searched(Ages(900, 2160000), LateCoin(drift - 1), true, drift - 1, drift, i) == (true, drift - 1)
    decreases drift - i
  {
    if i < drift {
      assert Try(drift - 1, drift, i) == drift - 1 + drift - i;
      assert CoinDays(COIN * DAY, drift - 901) == drift - 901;
      NoOtherHit(drift, i + 1);
    }
  }

  /** With a negative target more weight can turn a hit into a miss. */
  lemma NegativeTargetBreaks()
    ensures
      var ages, c := Ages(900, 2160000), Coin(COIN * DAY, 2000, 0, -1, _ => 0);
      && TimesPass(ages, c, 2899) && TryHits(ages, c, 2899, 1, 0)
      && !Accepted(ages, c, 2900)
  {
    var ages, c := Ages(900, 2160000), Coin(COIN * DAY, 2000, 0, -1, _ => 0);
    assert Weight(ages, c.txTime, 2899) == -1;
    assert CoinDays(c.value, -1) == -1;
    assert Weight(ages, c.txTime, 2900) == 0;
    assert CoinDays(c.value, 0) == 0;
  }

  // ---------------------------------------------------------------- the modifier of a kernel

  /** The kernel of a coin takes the modifier of the first block that generated one at least a selection
    * interval after the coin's block. */
  predicate Late(forward: seq<Block>, interval: int, j: nat)
    requires forward != [] && j < |forward|
  {
    (j == 0 || forward[j].generated) && forward[j].time >= forward[0].time + interval
  }

  /** `forward` is the coin's block and those after it on the best chain. */
  method GetKernelStakeModifier(forward: seq<Block>, interval: int) returns (r: Option<Block>)
    requires forward != []
    ensures r.None? <==> forall j: nat :: j < |forward| ==> !Late(forward, interval, j)
    ensures r.Some? ==> exists j: nat ::
      && j < |forward| && Late(forward, interval, j) && r.value == forward[j]
      && forall i: nat :: i < j ==> !Late(forward, interval, i)
  {
    var j := 0;
    var time := forward[0].time;
    while time < forward[0].time + interval
      invariant 0 <= j < |forward|
      invariant forall i: nat :: i < j ==> !Late(forward, interval, i)
      invariant time >= forward[0].time + interval <==> Late(forward, interval, j)
      decreases |forward| - j
    {
      if j + 1 == |forward| { return None; }
      j := j + 1;
      if forward[j].generated { time := forward[j].time; }
    }
    r := Some(forward[j]);
  }
}
