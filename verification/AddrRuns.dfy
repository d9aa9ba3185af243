/** Whole runs of the address manager: bounded memory, and the limits of the debug check. */
module AddrRuns {
  import opened Sets
  import opened AddrTables
  import opened AddrSteps
  import opened AddrManager

  // ---------------------------------------------------------------- how many addresses there can be

  ghost function AllNew(untried: seq<set<int>>): set<int> {
    if untried == [] then {} else AllNew(untried[..|untried| - 1]) + untried[|untried| - 1]
  }

  ghost function AllTried(tried: seq<seq<int>>): set<int> {
    if tried == [] then {} else AllTried(tried[..|tried| - 1]) + Elements(tried[|tried| - 1])
  }

  lemma {:induction false} AllNewCard(untried: seq<set<int>>, cap: nat)
    requires forall b :: 0 <= b < |untried| ==> |untried[b]| <= cap
    ensures |AllNew(untried)| <= cap * |untried|
    ensures forall n :: CountNew(untried, n) > 0 ==> n in AllNew(untried)
  {
    if untried != [] {
      AllNewCard(untried[..|untried| - 1], cap);
      assert cap * |untried| == cap * (|untried| - 1) + cap;
    }
  }

  lemma {:induction false} AllTriedCard(tried: seq<seq<int>>, cap: nat)
    requires forall b :: 0 <= b < |tried| ==> |tried[b]| <= cap
    ensures |AllTried(tried)| <= cap * |tried|
    ensures forall n :: CountTried(tried, n) > 0 ==> n in AllTried(tried)
  {
    if tried != [] {
      AllTriedCard(tried[..|tried| - 1], cap);
      ElementsCard(tried[|tried| - 1]);
      assert cap * |tried| == cap * (|tried| - 1) + cap;
    }
  }

  lemma {:induction false} InjectiveCard(addrIds: map<NetAddr, int>, ids: set<int>)
    requires forall a :: a in addrIds ==> addrIds[a] in ids
    requires forall a, b :: a in addrIds && b in addrIds && addrIds[a] == addrIds[b] ==> a == b
    ensures |addrIds| <= |ids|
    decreases addrIds.Keys
  {
    if addrIds.Keys == {} {
      assert |addrIds| == 0;
    } else {
      var a := Member(addrIds.Keys);
      var rest := addrIds - {a};
      InjectiveCard(rest, ids - {addrIds[a]});
      assert addrIds.Keys == rest.Keys + {a};
    }
  }

  /** Never more than 256 * 64 + 64 * 64 addresses. */
  lemma KnownIsBounded(o: Oracle, key: seq<nat>, t: Tables)
    requires Structured(o, key, t, {})
    ensures |t.addrIds| <= |t.info| <= NEW_BUCKET_COUNT * NEW_BUCKET_SIZE + TRIED_BUCKET_COUNT * TRIED_BUCKET_SIZE
  {
    AllNewCard(t.untried, NEW_BUCKET_SIZE);
    AllTriedCard(t.tried, TRIED_BUCKET_SIZE);
    forall n | n in t.info ensures n in AllNew(t.untried) + AllTried(t.tried) {
      assert EntryOk(t.info[n]);
      assert CountNew(t.untried, n) == NewShare(t.info, n);
      assert CountTried(t.tried, n) == TriedShare(t.info, n);
    }
    SubsetCard(t.info.Keys, AllNew(t.untried) + AllTried(t.tried));
    InjectiveCard(t.addrIds, t.info.Keys);
  }

  // ---------------------------------------------------------------- runs

  datatype Op =
    | OpAdd(a: Address, source: NetAddr, penalty: int, now: int, clock: int -> int, luck: nat)
    | OpGood(addr: Service, time: int)
    | OpAttempt(addr: Service, time: int)
    | OpConnected(addr: Service, time: int)
    | OpGetAddr

  /** The clock readings under which an operation keeps the times in order. */
  predicate Timely(op: Op) {
    (op.OpGood? ==> op.time > 0) && (op.OpAttempt? ==> op.time >= 0)
  }

  /** Exactly when an operation leaves a state that passes the debug check. */
  ghost predicate Passes(o: Oracle, t: Tables, op: Op) {
    match op
    case OpAdd(a, _, _, _, _, _) => AddPasses(o, t, a)
    case OpGood(addr, time) => Known(t, addr) ==> time > 0
    case OpAttempt(addr, time) => Known(t, addr) ==> time >= 0
    case OpConnected(_, _) => true
    case OpGetAddr => true
  }

  /** A consistent manager and a timely operation meet that condition. */
  lemma TimelyPasses(o: Oracle, key: seq<nat>, t: Tables, op: Op)
    requires Invariant(o, key, t) && Timely(op)
    ensures Passes(o, t, op)
  {
    if op.OpAdd? && !Found(t, op.a.service.net) { NobodyHas(t.info, t.addrIds, op.a.service.net); }
  }

  /** Once the check has completed the index, an addition fails only for an id that is in use. */
  lemma CompleteIndexSuffices(o: Oracle, t: Tables, a: Address)
    requires Indexed(t.info, t.addrIds)
    ensures AddPasses(o, t, a) <==> !o.routable(a.service) || Found(t, a.service.net) || t.idCount !in t.info
  {
  }

  /** The only address an operation can make known. */
  function Announceable(op: Op): set<NetAddr> { if op.OpAdd? then {op.a.service.net} else {} }

  function Forgettable(op: Op): nat { if op.OpAdd? then 1 else 0 }

  /** Every operation, from any state that passes the debug check: it passes again exactly under the
    * condition of the operation. The stronger invariant is kept as well, and then only additions
    * forget addresses, at most one each. */
  method Apply(am: AddrMan, op: Op)
    requires am.Checked()
    modifies am
    ensures am.key == old(am.key) && Sized(am.View())
    ensures am.Checked() <==> Passes(am.o, old(am.View()), op)
    ensures old(am.Valid()) && Timely(op) ==>
      && am.Valid()
      && am.addrIds.Keys <= old(am.addrIds).Keys + Announceable(op)
      && |old(am.addrIds).Keys - am.addrIds.Keys| <= Forgettable(op)
  {
    match op {
      case OpAdd(a, source, penalty, now, clock, luck) => var isNew := am.Add(a, source, penalty, now, clock, luck);
      case _ => Revise(am, op);
    }
  }

  /** The operations other than additions leave the set of known addresses alone. */
  method Revise(am: AddrMan, op: Op)
    requires am.Checked() && !op.OpAdd?
    modifies am
    ensures am.key == old(am.key) && Sized(am.View()) && am.addrIds == old(am.addrIds)
    ensures am.Checked() <==> Passes(am.o, old(am.View()), op)
    ensures old(am.Valid()) && Timely(op) ==> am.Valid()
  {
    match op {
      case OpGood(addr, time) => am.Good(addr, time);
      case OpAttempt(addr, time) => am.Attempt(addr, time);
      case OpConnected(addr, time) => am.Connected(addr, time);
      case OpGetAddr => var picked := am.GetAddr();
    }
  }

  ghost function AddCount(ops: seq<Op>): nat {
    if ops == [] then 0 else AddCount(ops[..|ops| - 1]) + Forgettable(ops[|ops| - 1])
  }

  lemma AddCountNext(ops: seq<Op>, i: nat)
    requires i <= |ops|
    ensures i < |ops| ==> AddCount(ops[..i + 1]) == AddCount(ops[..i]) + Forgettable(ops[i])
    ensures i == |ops| ==> ops[..i] == ops
  {
    if i < |ops| {
      assert ops[..i + 1][..i] == ops[..i];
    } else {
      assert ops[..i] == ops;
    }
  }

  /** Any run from an empty manager, for every draw: the debug check passes at the end, the size
    * is bounded, and addresses are forgotten by additions only, at most one each. `seen` are the
    * addresses that were known at some time. */
  method Run(o: Oracle, key: seq<nat>, ops: seq<Op>) returns (am: AddrMan, ghost seen: set<NetAddr>)
    requires forall i :: 0 <= i < |ops| ==> Timely(ops[i])
    ensures am.Valid() && CheckPasses(am.View())
    ensures |am.addrIds| <= 20480 && |am.random| == |am.info|
    ensures am.addrIds.Keys <= seen && |seen - am.addrIds.Keys| <= AddCount(ops)
    ensures AllAnnounceable(ops, seen)
  {
    am := new AddrMan(o, key);
    seen := {};
    for i := 0 to |ops|
      invariant fresh(am) && am.Valid()
      invariant am.addrIds.Keys <= seen && |seen - am.addrIds.Keys| <= AddCount(ops[..i])
      invariant AllAnnounceable(ops[..i], seen)
    {
      ghost var before := am.addrIds.Keys;
      TimelyPasses(am.o, am.key, am.View(), ops[i]);
      InvariantImpliesCheck(am.o, am.key, am.View());
      Apply(am, ops[i]);
      MissingGrows(seen, before, am.addrIds.Keys);
      AddCountNext(ops, i);
      SeenGrows(ops, i, seen, before, am.addrIds.Keys);
      seen := seen + am.addrIds.Keys;
    }
    AddCountNext(ops, |ops|);
    InvariantImpliesCheck(am.o, am.key, am.View());
    KnownIsBounded(am.o, am.key, am.View());
    CountedIsListed(am.View(), {});
  }

  lemma MissingGrows(seen: set<NetAddr>, before: set<NetAddr>, after: set<NetAddr>)
    requires before <= seen
    ensures |seen + after - after| <= |seen - before| + |before - after|
  {
    assert seen + after - after <= (seen - before) + (before - after);
    SubsetCard(seen + after - after, (seen - before) + (before - after));
  }

  ghost predicate AllAnnounceable(ops: seq<Op>, seen: set<NetAddr>) {
    forall a :: a in seen ==> exists i :: 0 <= i < |ops| && a in Announceable(ops[i])
  }

  lemma SeenGrows(ops: seq<Op>, i: nat, seen: set<NetAddr>, before: set<NetAddr>, after: set<NetAddr>)
    requires i < |ops| && AllAnnounceable(ops[..i], seen) && before <= seen && after <= before + Announceable(ops[i])
    ensures AllAnnounceable(ops[..i + 1], seen + after)
  {
    var ops' := ops[..i + 1];
    forall a | a in seen + after ensures exists j :: 0 <= j < |ops'| && a in Announceable(ops'[j]) {
      if a in seen {
        var j :| 0 <= j < |ops[..i]| && a in Announceable(ops[..i][j]);
        assert a in Announceable(ops'[j]);
      } else {
        assert a in Announceable(ops'[i]);
      }
    }
  }

  // ---------------------------------------------------------------- what the debug check does not see

  function EmptyTried(): (tried: seq<seq<int>>)
    ensures |tried| == TRIED_BUCKET_COUNT && forall b :: 0 <= b < |tried| ==> tried[b] == []
  {
    seq(TRIED_BUCKET_COUNT, _ => [])
  }

  function EmptyNew(): (untried: seq<set<int>>)
    ensures |untried| == NEW_BUCKET_COUNT && forall b :: 0 <= b < |untried| ==> untried[b] == {}
  {
    seq(NEW_BUCKET_COUNT, _ => {})
  }

  /** One entry, with id 0, in new bucket `b`, and nothing else. */
  function OneEntry(idCount: int, i: Info, addrIds: map<NetAddr, int>, b: nat): Tables
    requires b < NEW_BUCKET_COUNT
  {
    Tables(idCount, map[0 := i], addrIds, [0], 0, EmptyTried(), 1, EmptyNew()[b := {0}])
  }

  lemma OneEntryPasses(idCount: int, i: Info, addrIds: map<NetAddr, int>, b: nat)
    requires b < NEW_BUCKET_COUNT && TimesOk(i) && i.refCount == 1 && !i.inTried && i.randomPos == 0
    requires LookupOrZero(addrIds, i.service.net) == 0
    ensures Sized(OneEntry(idCount, i, addrIds, b)) && CheckPasses(OneEntry(idCount, i, addrIds, b))
  {
    var t := OneEntry(idCount, i, addrIds, b);
    assert TriedIds(t.info) == {} && NewIds(t.info) == {0};
    forall n ensures CountNew(t.untried, n) == NewShare(t.info, n) {
      NoneNew(EmptyNew(), n);
      CountNewUpdate(EmptyNew(), b, {0}, n);
    }
    forall n ensures CountTried(t.tried, n) == TriedShare(t.info, n) { NoneTried(t.tried, n); }
  }

  /** A state that passes the check, in which the id counter points at an entry: adding any other
    * address, to any bucket, breaks it. */
  lemma CheckMissesIdClash(o: Oracle, key: seq<nat>, i: Info, j: Info, b: nat, c: nat)
    requires b < NEW_BUCKET_COUNT && TimesOk(i) && i.refCount == 1 && !i.inTried && i.randomPos == 0
    requires c < NEW_BUCKET_COUNT && TimesOk(j) && j.refCount == 0 && !j.inTried && j.randomPos == 1
    requires i.service.net != j.service.net
    ensures
      var t := OneEntry(0, i, map[i.service.net := 0], b);
      Sized(t) && CheckPasses(t) && !Found(t, j.service.net) && !CheckPasses(Addition(t, j, c, 0))
  {
    var t := OneEntry(0, i, map[i.service.net := 0], b);
    OneEntryPasses(0, i, map[i.service.net := 0], b);
    AdditionChecks(o, key, t, j, c, 0);
  }

  /** A state that passes the check though its address index is empty: a missing key reads as id 0.
    * Adding the address of its entry again breaks it, with an id that is not in use. */
  lemma CheckMissesMissingKey(o: Oracle, key: seq<nat>, i: Info, j: Info, b: nat, c: nat)
    requires b < NEW_BUCKET_COUNT && TimesOk(i) && i.refCount == 1 && !i.inTried && i.randomPos == 0
    requires c < NEW_BUCKET_COUNT && TimesOk(j) && j.refCount == 0 && !j.inTried && j.randomPos == 1
    requires i.service.net == j.service.net
    ensures
      var t := OneEntry(1, i, map[], b);
      && Sized(t) && CheckPasses(t) && !Found(t, j.service.net)
      && t.idCount !in t.info && !CheckPasses(Addition(t, j, c, 0))
  {
    var t := OneEntry(1, i, map[], b);
    OneEntryPasses(1, i, map[], b);
    AdditionChecks(o, key, t, j, c, 0);
    assert 0 in t.info && t.info[0].service.net == j.service.net;
  }
}
