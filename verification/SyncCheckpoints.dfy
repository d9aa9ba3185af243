/** Synchronized checkpoints (src/checkpoints.cpp): a checkpoint that moves down a growing tree of
  * blocks, and the test that keeps new blocks below it.
  */
module SyncCheckpoints {
  import opened Pieces

  type Hash = nat

  /** A block of the index: its height, its time and the hash of its parent. */
  datatype Node = Node(height: nat, time: int, prev: Option<Hash>)

  type Tree = map<Hash, Node>

  /** Every parent is indexed and exactly one lower; only blocks at height zero have none. */
  ghost predicate IsTree(tree: Tree) {
    forall h {:trigger Rooted(tree, h)} :: h in tree ==> Rooted(tree, h)
  }

  ghost predicate Rooted(tree: Tree, h: Hash)
    requires h in tree
  {
    match tree[h].prev
    case None => tree[h].height == 0
    case Some(p) => p in tree && tree[p].height + 1 == tree[h].height
  }

  // ---------------------------------------------------------------- ancestors

  ghost function Ancestor(tree: Tree, h: Hash, height: nat): (a: Hash)
    requires IsTree(tree) && h in tree && height <= tree[h].height
    ensures a in tree && tree[a].height == height
    decreases tree[h].height
  {
    if tree[h].height == height then h else assert Rooted(tree, h); Ancestor(tree, tree[h].prev.value, height)
  }

  /** `d` is `a` or lies below it. */
  ghost predicate Descends(tree: Tree, d: Hash, a: Hash)
    requires IsTree(tree)
  {
    d in tree && a in tree && tree[a].height <= tree[d].height && Ancestor(tree, d, tree[a].height) == a
  }

  ghost predicate StrictlyDescends(tree: Tree, d: Hash, a: Hash)
    requires IsTree(tree)
  {
    Descends(tree, d, a) && d != a
  }

  /** Indexed blocks on different branches. */
  ghost predicate Conflicts(tree: Tree, a: Hash, b: Hash)
    requires IsTree(tree)
  {
    a in tree && b in tree && !Descends(tree, a, b) && !Descends(tree, b, a)
  }

  lemma {:induction false} AncestorOfAncestor(tree: Tree, h: Hash, i: nat, j: nat)
    requires IsTree(tree) && h in tree && j <= i <= tree[h].height
    ensures Ancestor(tree, Ancestor(tree, h, i), j) == Ancestor(tree, h, j)
    decreases tree[h].height
  {
    if tree[h].height > i {
      assert Rooted(tree, h);
      AncestorOfAncestor(tree, tree[h].prev.value, i, j);
    }
  }

  lemma DescendsTransitive(tree: Tree, c: Hash, b: Hash, a: Hash)
    requires IsTree(tree) && Descends(tree, c, b) && Descends(tree, b, a)
    ensures Descends(tree, c, a)
  {
    AncestorOfAncestor(tree, c, tree[b].height, tree[a].height);
  }

  /** A walk from block to parent. */
  predicate IsPath(tree: Tree, path: seq<Hash>) {
    && path != [] && (forall i :: 0 <= i < |path| ==> path[i] in tree)
    && forall i :: 0 <= i < |path| - 1 ==> tree[path[i]].prev == Some(path[i + 1])
  }

  /** Descent is a walk along the parents. */
  lemma DescendsIffPath(tree: Tree, d: Hash, a: Hash)
    requires IsTree(tree)
    ensures Descends(tree, d, a) <==> exists path :: IsPath(tree, path) && path[0] == d && path[|path| - 1] == a
  {
    if Descends(tree, d, a) { var path := PathTo(tree, d, tree[a].height); }
    forall path | IsPath(tree, path) && path[0] == d && path[|path| - 1] == a ensures Descends(tree, d, a) {
      PathDescends(tree, path);
    }
  }

  lemma {:induction false} PathTo(tree: Tree, d: Hash, height: nat) returns (path: seq<Hash>)
    requires IsTree(tree) && d in tree && height <= tree[d].height
    ensures IsPath(tree, path) && path[0] == d && path[|path| - 1] == Ancestor(tree, d, height)
    decreases tree[d].height
  {
    if tree[d].height == height {
      path := [d];
    } else {
      assert Rooted(tree, d);
      var rest := PathTo(tree, tree[d].prev.value, height);
      path := [d] + rest;
    }
  }

  lemma {:induction false} PathDescends(tree: Tree, path: seq<Hash>)
    requires IsTree(tree) && IsPath(tree, path)
    ensures Descends(tree, path[0], path[|path| - 1])
    decreases |path|
  {
    if |path| > 1 {
      assert Rooted(tree, path[0]);
      PathDescends(tree, path[1..]);
    }
  }

  /** A tree that has grown: what was indexed stays as it was. */
  ghost predicate Grown(small: Tree, large: Tree) {
    forall h :: h in small ==> h in large && large[h] == small[h]
  }

  lemma {:induction false} AncestorStays(small: Tree, large: Tree, h: Hash, height: nat)
    requires IsTree(small) && IsTree(large) && Grown(small, large) && h in small && height <= small[h].height
    ensures Ancestor(large, h, height) == Ancestor(small, h, height)
    decreases small[h].height
  {
    if small[h].height > height {
      assert Rooted(small, h);
      AncestorStays(small, large, small[h].prev.value, height);
    }
  }

  lemma DescendsStays(small: Tree, large: Tree, d: Hash, a: Hash)
    requires IsTree(small) && IsTree(large) && Grown(small, large) && Descends(small, d, a)
    ensures Descends(large, d, a)
  {
    AncestorStays(small, large, d, small[a].height);
  }

  // ---------------------------------------------------------------- the state and its steps

  datatype State = State(tree: Tree, sync: Hash, pending: Hash, invalid: Hash)

  /** What the calls outside this module answer in one step. */
  datatype Answers = Answers(inMainChain: bool, readFromDisk: bool, setBestChain: bool, write: bool, commit: bool)

  /** Whether a checkpoint may take over. */
  ghost predicate Validates(s: State, h: Hash)
    requires IsTree(s.tree)
  {
    s.sync in s.tree && StrictlyDescends(s.tree, h, s.sync)
  }

  ghost function AfterValidate(s: State, h: Hash): State
    requires IsTree(s.tree)
  {
    if Conflicts(s.tree, h, s.sync) then s.(invalid := h) else s
  }

  /** Makes a validated checkpoint the current one, if nothing goes wrong. */
  ghost function AfterMove(s: State, h: Hash, w: Answers): (State, bool) {
    if !w.inMainChain && !w.readFromDisk then (s, false)
    else if !w.inMainChain && !w.setBestChain then (s.(invalid := h), false)
    else if !w.write || !w.commit then (s, false)
    else (s.(sync := h, pending := 0), true)
  }

  ghost function AfterProcess(s: State, h: Hash, signed: bool, w: Answers): (State, bool)
    requires IsTree(s.tree)
  {
    if !signed then (s, false)
    else if h !in s.tree then (s.(pending := h), false)
    else if !Validates(s, h) then (AfterValidate(s, h), false)
    else AfterMove(s, h, w)
  }

  ghost function AfterAccept(s: State, w: Answers): (State, bool)
    requires IsTree(s.tree)
  {
    if s.pending == 0 || s.pending !in s.tree then (s, false)
    else if !Validates(s, s.pending) then (AfterValidate(s, s.pending).(pending := 0), false)
    else AfterMove(s, s.pending, w)
  }

  /** Blocks are indexed below indexed parents. */
  ghost predicate CanAdd(tree: Tree, h: Hash, node: Node) {
    h !in tree && match node.prev
                  case None => node.height == 0
                  case Some(p) => p in tree && node.height == tree[p].height + 1
  }

  lemma AddGrows(tree: Tree, h: Hash, node: Node)
    requires IsTree(tree) && CanAdd(tree, h, node)
    ensures IsTree(tree[h := node]) && Grown(tree, tree[h := node])
  {
    var large := tree[h := node];
    forall k | k in large ensures Rooted(large, k) {
      if k != h { assert Rooted(tree, k); }
    }
  }

  class Checkpoints {
    var tree: Tree
    var hashSyncCheckpoint: Hash
    var hashPendingCheckpoint: Hash
    var hashInvalidCheckpoint: Hash

    ghost function View(): State
      reads this
    {
      State(tree, hashSyncCheckpoint, hashPendingCheckpoint, hashInvalidCheckpoint)
    }

    constructor (tree: Tree, sync: Hash)
      ensures View() == State(tree, sync, 0, 0)
    {
      this.tree, hashSyncCheckpoint, hashPendingCheckpoint, hashInvalidCheckpoint := tree, sync, 0, 0;
    }

    /** Traces back to a height; a missing parent is an error. */
    method TraceBack(h: Hash, height: nat) returns (r: Option<Hash>)
      requires IsTree(tree) && h in tree
      ensures r == Some(if height <= tree[h].height then Ancestor(tree, h, height) else h)
    {
      var p := h;
      while tree[p].height > height
        invariant p in tree && tree[p].height <= tree[h].height
        invariant height <= tree[h].height ==>
          height <= tree[p].height && Ancestor(tree, p, height) == Ancestor(tree, h, height)
        invariant height > tree[h].height ==> p == h
        decreases tree[p].height
      {
        assert Rooted(tree, p);
        if tree[p].prev.None? { return None; }
        p := tree[p].prev.value;
      }
      r := Some(p);
    }

    /** True exactly for strict descendants of the current checkpoint; the invalid mark is set exactly
      * for blocks on a conflicting branch. */
    method ValidateSyncCheckpoint(h: Hash) returns (ok: bool)
      requires IsTree(tree)
      modifies this`hashInvalidCheckpoint
      ensures ok <==> Validates(old(View()), h)
      ensures View() == AfterValidate(old(View()), h)
    {
      if hashSyncCheckpoint !in tree { return false; }
      if h !in tree { return false; }
      if tree[h].height <= tree[hashSyncCheckpoint].height {
        var p := TraceBack(hashSyncCheckpoint, tree[h].height);
        if p.None? { return false; }
        if p.value != h { hashInvalidCheckpoint := h; }
        return false;
      }
      var p := TraceBack(h, tree[hashSyncCheckpoint].height);
      if p.None? { return false; }
      if p.value != hashSyncCheckpoint {
        hashInvalidCheckpoint := h;
        return false;
      }
      return true;
    }

    method WriteSyncCheckpoint(h: Hash, w: Answers) returns (ok: bool)
      modifies this`hashSyncCheckpoint
      ensures ok <==> w.write && w.commit
      ensures hashSyncCheckpoint == if ok then h else old(hashSyncCheckpoint)
    {
      if !w.write { return false; }
      if !w.commit { return false; }
      hashSyncCheckpoint := h;
      return true;
    }

    method AcceptPendingSyncCheckpoint(w: Answers) returns (ok: bool)
      requires IsTree(tree)
      modifies this
      ensures (View(), ok) == AfterAccept(old(View()), w)
      ensures ok <==>
        && old(hashPendingCheckpoint != 0 && StrictlyDescends(tree, hashPendingCheckpoint, hashSyncCheckpoint))
        && (w.inMainChain || (w.readFromDisk && w.setBestChain)) && w.write && w.commit
      ensures hashSyncCheckpoint == if ok then old(hashPendingCheckpoint) else old(hashSyncCheckpoint)
      ensures ok ==> hashPendingCheckpoint == 0
      ensures !ok ==>
        if old(hashPendingCheckpoint in tree && !StrictlyDescends(tree, hashPendingCheckpoint, hashSyncCheckpoint))
        then hashPendingCheckpoint == 0
        else hashPendingCheckpoint == old(hashPendingCheckpoint)
      ensures tree == old(tree)
    {
      if hashPendingCheckpoint != 0 && hashPendingCheckpoint in tree {
        var valid := ValidateSyncCheckpoint(hashPendingCheckpoint);
        if !valid {
          hashPendingCheckpoint := 0;
          return false;
        }
        ok := MoveTo(hashPendingCheckpoint, w);
        return ok;
      }
      return false;
    }

    method ProcessSyncCheckpoint(h: Hash, signed: bool, w: Answers) returns (ok: bool)
      requires IsTree(tree)
      modifies this
      ensures (View(), ok) == AfterProcess(old(View()), h, signed, w)
      ensures ok <==>
        && signed && StrictlyDescends(old(tree), h, old(hashSyncCheckpoint))
        && (w.inMainChain || (w.readFromDisk && w.setBestChain)) && w.write && w.commit
      ensures hashSyncCheckpoint == if ok then h else old(hashSyncCheckpoint)
      ensures ok ==> hashPendingCheckpoint == 0
      ensures !ok ==> hashPendingCheckpoint == if signed && h !in old(tree) then h else old(hashPendingCheckpoint)
      ensures hashInvalidCheckpoint ==
        if signed && (|| Conflicts(old(tree), h, old(hashSyncCheckpoint))
                      || (&& StrictlyDescends(old(tree), h, old(hashSyncCheckpoint))
                          && !w.inMainChain && w.readFromDisk && !w.setBestChain))
        then h else old(hashInvalidCheckpoint)
      ensures tree == old(tree)
    {
      if !signed { return false; }
      if h !in tree {
        hashPendingCheckpoint := h;
        return false;
      }
      var valid := ValidateSyncCheckpoint(h);
      if !valid { return false; }
      ok := MoveTo(h, w);
    }

    /** The common tail of the two: reorganize to the checkpoint if need be, then write it. */
    method MoveTo(h: Hash, w: Answers) returns (ok: bool)
      modifies this
      ensures (View(), ok) == AfterMove(old(View()), h, w)
    {
      if !w.inMainChain {
        if !w.readFromDisk { return false; }
        if !w.setBestChain {
          hashInvalidCheckpoint := h;
          return false;
        }
      }
      var written := WriteSyncCheckpoint(h, w);
      if !written { return false; }
      hashPendingCheckpoint := 0;
      return true;
    }

    /** Whether a block on top of `prev` may be accepted: always on the test net. */
    method CheckSync(testNet: bool, h: Hash, prev: Hash) returns (ok: bool)
      requires IsTree(tree) && prev in tree && hashSyncCheckpoint in tree
      ensures ok <==> testNet || Passes(View(), h, prev)
      ensures !testNet && h !in tree ==> (ok <==> Descends(tree, prev, hashSyncCheckpoint))
      ensures !testNet && h in tree ==>
        (ok <==> || Descends(tree, prev, hashSyncCheckpoint)
                 || (h == hashSyncCheckpoint && tree[prev].height + 1 == tree[hashSyncCheckpoint].height)
                 || tree[prev].height + 1 < tree[hashSyncCheckpoint].height)
    {
      if testNet { return true; }
      var height, sync := tree[prev].height + 1, tree[hashSyncCheckpoint].height;
      if height > sync {
        var p := TraceBack(prev, sync);
        if p.None? { return false; }
        if tree[p.value].height < sync || p.value != hashSyncCheckpoint { return false; }
      }
      if height == sync && h != hashSyncCheckpoint { return false; }
      if height < sync && h !in tree { return false; }
      return true;
    }

    /** The latest ancestor of the best block that is old and deep enough, or the genesis block. */
    method AutoSelectSyncCheckpoint(best: Hash) returns (h: Hash)
      requires IsTree(tree) && best in tree
      ensures Descends(tree, best, h)
      ensures
        || tree[h].height == 0
        || (tree[h].time + 3600 <= tree[best].time && tree[h].height + 8 <= tree[best].height)
      ensures forall k :: tree[h].height < k <= tree[best].height ==>
        || tree[Ancestor(tree, best, k)].time + 3600 > tree[best].time
        || tree[Ancestor(tree, best, k)].height + 8 > tree[best].height
    {
      h := best;
      while tree[h].prev.Some? && !Settled(tree, h, best)
        invariant h in tree && Descends(tree, best, h)
        invariant forall k :: tree[h].height < k <= tree[best].height ==> !Settled(tree, Ancestor(tree, best, k), best)
        decreases tree[h].height
      {
        assert Rooted(tree, h);
        ghost var child := h;
        h := tree[h].prev.value;
        AncestorOfAncestor(tree, best, tree[child].height, tree[h].height);
      }
      assert Rooted(tree, h);
    }
  }

  /** What is asked of a block on top of `prev`, by its height: below the checkpoint it has to descend
    * from it, at its height it has to be it, and above it has to be indexed already. */
  ghost predicate Passes(s: State, h: Hash, prev: Hash)
    requires IsTree(s.tree) && prev in s.tree && s.sync in s.tree
  {
    var height, sync := s.tree[prev].height + 1, s.tree[s.sync].height;
    if height > sync then Ancestor(s.tree, prev, sync) == s.sync
    else if height == sync then h == s.sync
    else h in s.tree
  }

  const MAX_SPAN: int := 60 * 60

  predicate Settled(tree: Tree, h: Hash, best: Hash)
    requires h in tree && best in tree
  {
    tree[h].time + MAX_SPAN <= tree[best].time && tree[h].height + 8 <= tree[best].height
  }

  // ---------------------------------------------------------------- runs

  datatype Event =
    | Process(h: Hash, signed: bool, w: Answers)
    | Accept(w: Answers)
    | Add(h: Hash, node: Node)

  ghost predicate Enabled(s: State, e: Event) { e.Add? ==> CanAdd(s.tree, e.h, e.node) }

  ghost function After(s: State, e: Event): State
    requires IsTree(s.tree) && Enabled(s, e)
  {
    match e
    case Process(h, signed, w) => AfterProcess(s, h, signed, w).0
    case Accept(w) => AfterAccept(s, w).0
    case Add(h, node) => s.(tree := s.tree[h := node])
  }

  /** A run of steps without a reset, from a state whose checkpoint is indexed. */
  ghost predicate IsRun(states: seq<State>, events: seq<Event>) {
    && |states| == |events| + 1
    && IsTree(states[0].tree) && states[0].sync in states[0].tree
    && forall i :: 0 <= i < |events| ==>
         IsTree(states[i].tree) && Enabled(states[i], events[i]) && states[i + 1] == After(states[i], events[i])
  }

  lemma StepFacts(s: State, e: Event)
    requires IsTree(s.tree) && s.sync in s.tree && Enabled(s, e)
    ensures
      var s' := After(s, e);
      && IsTree(s'.tree) && Grown(s.tree, s'.tree)
      && Descends(s'.tree, s'.sync, s.sync)
      && (s'.sync != s.sync ==> s'.tree[s'.sync].height > s'.tree[s.sync].height)
  {
    if e.Add? { AddGrows(s.tree, e.h, e.node); }
  }

  lemma {:induction false} RunFacts(states: seq<State>, events: seq<Event>, i: nat, j: nat)
    requires IsRun(states, events) && i <= j < |states|
    ensures IsTree(states[i].tree) && IsTree(states[j].tree) && Grown(states[i].tree, states[j].tree)
    ensures states[i].sync in states[i].tree && states[j].sync in states[j].tree
    ensures Descends(states[j].tree, states[j].sync, states[i].sync)
    ensures states[j].sync != states[i].sync ==>
      states[j].tree[states[j].sync].height > states[j].tree[states[i].sync].height
    decreases j
  {
    if i == j {
      if j > 0 {
        RunFacts(states, events, i - 1, j - 1);
        StepFacts(states[j - 1], events[j - 1]);
      }
      assert Descends(states[j].tree, states[j].sync, states[j].sync);
    } else {
      RunFacts(states, events, i, j - 1);
      var s, s' := states[j - 1], states[j];
      StepFacts(s, events[j - 1]);
      DescendsStays(s.tree, s'.tree, s.sync, states[i].sync);
      DescendsTransitive(s'.tree, s'.sync, s.sync, states[i].sync);
    }
  }

  /** The checkpoint only ever moves to strict descendants. */
  lemma OnlyStrictDescendants(states: seq<State>, events: seq<Event>, i: nat, j: nat)
    requires IsRun(states, events) && i <= j < |states| && states[j].sync != states[i].sync
    ensures IsTree(states[j].tree) && StrictlyDescends(states[j].tree, states[j].sync, states[i].sync)
    ensures states[j].tree[states[i].sync].height < states[j].tree[states[j].sync].height
  {
    RunFacts(states, events, i, j);
  }

  /** It never comes back. */
  lemma NeverReturns(states: seq<State>, events: seq<Event>, i: nat, j: nat, k: nat)
    requires IsRun(states, events) && i <= j <= k < |states| && states[j].sync != states[i].sync
    ensures states[k].sync != states[i].sync
  {
    RunFacts(states, events, i, j);
    RunFacts(states, events, j, k);
  }

  /** A signed checkpoint whose block is not indexed becomes pending. */
  lemma BecomesPending(states: seq<State>, events: seq<Event>, i: nat)
    requires IsRun(states, events) && i < |events|
    requires events[i].Process? && events[i].signed && events[i].h !in states[i].tree
    ensures states[i + 1].pending == events[i].h && states[i + 1].sync == states[i].sync
  {
  }

  /** The answers of the other parts of the node let a checkpoint through. */
  predicate AllWell(w: Answers) { (w.inMainChain || (w.readFromDisk && w.setBestChain)) && w.write && w.commit }

  /** Event k leaves a pending checkpoint alone: no message comes, and an attempt to accept it finds it not
    * indexed yet or fails for want of an answer. */
  ghost predicate Undisturbed(states: seq<State>, events: seq<Event>, k: nat, h: Hash)
    requires k < |events| && |states| == |events| + 1
  {
    !events[k].Process? && (events[k].Accept? ==> h !in states[k].tree || !AllWell(events[k].w))
  }

  lemma {:induction false} StaysPending(states: seq<State>, events: seq<Event>, i: nat, j: nat, h: Hash)
    requires IsRun(states, events) && i <= j < |states| && states[i].pending == h
    requires IsTree(states[j].tree) && StrictlyDescends(states[j].tree, h, states[i].sync)
    requires forall k :: i <= k < j ==> Undisturbed(states, events, k, h)
    ensures states[j].pending == h && states[j].sync == states[i].sync
    decreases j - i
  {
    if i < j {
      assert Undisturbed(states, events, i, h);
      RunFacts(states, events, i, j);
      PendingStep(states[i], events[i], h, states[j].tree);
      StaysPending(states, events, i + 1, j, h);
    }
  }

  lemma PendingStep(s: State, e: Event, h: Hash, large: Tree)
    requires IsTree(s.tree) && s.sync in s.tree && Enabled(s, e) && s.pending == h
    requires IsTree(large) && Grown(s.tree, large) && StrictlyDescends(large, h, s.sync)
    requires !e.Process? && (e.Accept? ==> h !in s.tree || !AllWell(e.w))
    ensures After(s, e).pending == h && After(s, e).sync == s.sync
  {
    if h in s.tree { AncestorStays(s.tree, large, h, s.tree[s.sync].height); }
  }

  /** A pending checkpoint that has come to lie below the current one is taken as soon as an attempt to
    * accept it gets its answers. */
  lemma PendingIsTaken(states: seq<State>, events: seq<Event>, i: nat, j: nat, h: Hash)
    requires IsRun(states, events) && i <= j < |events| && states[i].pending == h != 0
    requires forall k :: i <= k < j ==> Undisturbed(states, events, k, h)
    requires IsTree(states[j].tree) && StrictlyDescends(states[j].tree, h, states[i].sync)
    requires events[j].Accept? && AllWell(events[j].w)
    ensures states[j + 1].sync == h && states[j + 1].pending == 0
  {
    StaysPending(states, events, i, j, h);
  }

  /** A block that is not indexed and passes the test lies, once it is indexed, below the current
    * checkpoint and below every earlier one. */
  lemma AcceptedBlockDescends(states: seq<State>, events: seq<Event>, i: nat, j: nat, h: Hash, node: Node)
    requires IsRun(states, events) && i <= j < |states| && IsTree(states[j].tree)
    requires states[j].sync in states[j].tree && CanAdd(states[j].tree, h, node) && node.prev.Some?
    requires Passes(states[j], h, node.prev.value)
    ensures
      var tree := states[j].tree[h := node];
      IsTree(tree) && Descends(tree, h, states[i].sync) && Descends(tree, h, states[j].sync)
  {
    var small := states[j].tree;
    var tree := small[h := node];
    AddGrows(small, h, node);
    RunFacts(states, events, i, j);
    DescendsStays(small, tree, node.prev.value, states[j].sync);
    DescendsStays(small, tree, states[j].sync, states[i].sync);
    assert Descends(tree, h, node.prev.value);
    DescendsTransitive(tree, h, node.prev.value, states[j].sync);
    DescendsTransitive(tree, h, states[j].sync, states[i].sync);
  }
}
