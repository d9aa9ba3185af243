/** The Bloom filter of BIP 37 (src/bloom.cpp): what has been inserted is contained forever, and with
  * BLOOM_UPDATE_ALL a filter follows chains of spends on its own, with BLOOM_UPDATE_P2PUBKEY_ONLY those
  * through outputs that pay to keys.
  */
module BloomFilter {
  import opened BitStrings

  type Key = seq<nat>

  /** The seeded hash functions, before reduction to the size of the filter. */
  type Hashes = (nat, Key) -> nat

  const UPDATE_ALL: nat := 1
  const UPDATE_P2PUBKEY_ONLY: nat := 2

  // ---------------------------------------------------------------- bits

  predicate BitSet(data: seq<Byte>, n: nat)
    requires n < 8 * |data|
  {
    data[n / 8][n % 8]
  }

  function Index(hash: Hashes, size: nat, i: nat, key: Key): (n: nat)
    requires size > 0
    ensures n < 8 * size
  {
    hash(i, key) % (8 * size)
  }

  /** All the bits of a key are set. */
  predicate Marked(hash: Hashes, funcs: nat, data: seq<Byte>, key: Key)
    requires data != []
  {
    forall i: nat :: i < funcs ==> BitSet(data, Index(hash, |data|, i, key))
  }

  /** A key is marked when the bit that each of the hash functions gives it is set: the functions differ by
    * their number, and are reduced to the bits of the filter. */
  lemma MarkedMeans(hash: Hashes, funcs: nat, data: seq<Byte>, key: Key)
    requires data != []
    ensures Marked(hash, funcs, data, key) <==>
      forall i: nat :: i < funcs ==>
        var n := hash(i, key) % (8 * |data|);
        data[n / 8][n % 8]
  {
    if Marked(hash, funcs, data, key) {
      forall i: nat | i < funcs ensures BitSet(data, hash(i, key) % (8 * |data|)) {
        assert BitSet(data, Index(hash, |data|, i, key));
      }
    }
  }

  /** Bit n is one of the bits of a key. */
  ghost predicate BitOf(hash: Hashes, funcs: nat, size: nat, key: Key, n: nat)
    requires size > 0
  {
    exists i: nat :: i < funcs && Index(hash, size, i, key) == n
  }

  /** No bit has been cleared. */
  ghost predicate Grows(data: seq<Byte>, data': seq<Byte>) {
    |data| == |data'| && forall n: nat :: n < 8 * |data| && BitSet(data, n) ==> BitSet(data', n)
  }

  lemma MarkedStays(hash: Hashes, funcs: nat, data: seq<Byte>, data': seq<Byte>, key: Key)
    requires data != [] && Grows(data, data') && Marked(hash, funcs, data, key)
    ensures data' != [] && Marked(hash, funcs, data', key)
  {
  }

  lemma SetBit(data: seq<Byte>, n: nat)
    requires n < 8 * |data|
    ensures
      var data' := data[n / 8 := data[n / 8][n % 8 := true]];
      |data'| == |data| && forall m: nat :: m < 8 * |data| ==> (BitSet(data', m) <==> m == n || BitSet(data, m))
  {
    var data' := data[n / 8 := data[n / 8][n % 8 := true]];
    forall m: nat | m < 8 * |data| ensures BitSet(data', m) <==> m == n || BitSet(data, m) {
      if m / 8 == n / 8 && m % 8 == n % 8 { assert m == n; }
    }
  }

  // ---------------------------------------------------------------- transactions

  /** An output: the data its script pushes, and whether the script pays to keys. */
  datatype Output = Output(pushes: seq<Key>, paysToKeys: bool)

  /** An input: the serialized outpoint it spends, and the data its script pushes. */
  datatype Input = Input(prevout: Key, pushes: seq<Key>)

  /** A transaction: its hash as a key, the serialized outpoint of each output, outputs and inputs. */
  datatype Tx = Tx(hash: Key, outpoint: nat -> Key, outputs: seq<Output>, inputs: seq<Input>)

  predicate AnyMarked(hash: Hashes, funcs: nat, data: seq<Byte>, pushes: seq<Key>)
    requires data != []
  {
    exists j :: 0 <= j < |pushes| && pushes[j] != [] && Marked(hash, funcs, data, pushes[j])
  }

  /** Something about a transaction is in the filter. */
  predicate Matches(hash: Hashes, funcs: nat, data: seq<Byte>, tx: Tx)
    requires data != []
  {
    || Marked(hash, funcs, data, tx.hash)
    || (exists i :: 0 <= i < |tx.outputs| && AnyMarked(hash, funcs, data, tx.outputs[i].pushes))
    || (exists i :: 0 <= i < |tx.inputs| && InputMatches(hash, funcs, data, tx.inputs[i]))
  }

  predicate InputMatches(hash: Hashes, funcs: nat, data: seq<Byte>, input: Input)
    requires data != []
  {
    Marked(hash, funcs, data, input.prevout) || AnyMarked(hash, funcs, data, input.pushes)
  }

  /** The flags ask for a matched output to be inserted. */
  predicate Follows(flags: nat, output: Output) {
    flags % 4 == UPDATE_ALL || (flags % 4 == UPDATE_P2PUBKEY_ONLY && output.paysToKeys)
  }

  /** Of the first `count` outputs, those that matched and are to be followed are in the filter. */
  ghost predicate FollowsMatched(hash: Hashes, funcs: nat, flags: nat, data: seq<Byte>, data': seq<Byte>, tx: Tx,
                                 count: nat)
    requires data != [] && data' != [] && count <= |tx.outputs|
  {
    forall i :: 0 <= i < count && Follows(flags, tx.outputs[i]) ==>
      (AnyMarked(hash, funcs, data, tx.outputs[i].pushes) ==> Marked(hash, funcs, data', tx.outpoint(i)))
  }

  /** A bit of the outpoint of an output that matches and is to be followed. */
  ghost predicate FollowedBit(hash: Hashes, funcs: nat, flags: nat, data: seq<Byte>, tx: Tx, n: nat)
    requires data != []
  {
    exists i :: 0 <= i < |tx.outputs| && Follows(flags, tx.outputs[i])
      && AnyMarked(hash, funcs, data, tx.outputs[i].pushes) && BitOf(hash, funcs, |data|, tx.outpoint(i), n)
  }

  /** No other bit has been set. */
  ghost predicate OnlyFollowed(hash: Hashes, funcs: nat, flags: nat, data: seq<Byte>, data': seq<Byte>, tx: Tx)
    requires data' != [] && |data| == |data'|
  {
    forall n: nat :: n < 8 * |data| && BitSet(data', n) ==>
      BitSet(data, n) || FollowedBit(hash, funcs, flags, data', tx, n)
  }

  class Filter {
    const hash: Hashes
    const nHashFuncs: nat
    const nFlags: nat
    var vData: seq<Byte>
    var isFull: bool
    var isEmpty: bool

    /** The flags do not contradict the bits. */
    ghost predicate Valid()
      reads this
    {
      && vData != [] && nHashFuncs > 0
      && (isFull ==> forall n: nat :: n < 8 * |vData| ==> BitSet(vData, n))
      && (isEmpty ==> forall n: nat :: n < 8 * |vData| ==> !BitSet(vData, n))
    }

    ghost predicate Has(key: Key)
      reads this
      requires vData != []
    {
      Marked(hash, nHashFuncs, vData, key)
    }

    constructor (hash: Hashes, nHashFuncs: nat, nFlags: nat, size: nat)
      requires size > 0 && nHashFuncs > 0
      ensures Valid() && this.hash == hash && this.nHashFuncs == nHashFuncs && this.nFlags == nFlags
      ensures vData == seq(size, _ => ZeroByte())
    {
      this.hash, this.nHashFuncs, this.nFlags := hash, nHashFuncs, nFlags;
      vData, isFull, isEmpty := seq(size, _ => ZeroByte()), false, false;
    }

    /** Sets the bits of a key, and no others. */
    method Insert(key: Key)
      requires Valid()
      modifies this`vData, this`isEmpty
      ensures Valid() && Grows(old(vData), vData) && Has(key)
      ensures forall n: nat :: n < 8 * |vData| && BitSet(vData, n) ==>
        BitSet(old(vData), n) || BitOf(hash, nHashFuncs, |vData|, key, n)
    {
      if isFull { return; }
      var i := 0;
      while i < nHashFuncs
        invariant 0 <= i <= nHashFuncs && |vData| == |old(vData)| && Grows(old(vData), vData)
        invariant forall j: nat :: j < i ==> BitSet(vData, Index(hash, |vData|, j, key))
        invariant forall n: nat :: n < 8 * |vData| && BitSet(vData, n) ==>
                    BitSet(old(vData), n) || exists j: nat :: j < i && Index(hash, |vData|, j, key) == n
      {
        var n := Index(hash, |vData|, i, key);
        SetBit(vData, n);
        vData := vData[n / 8 := vData[n / 8][n % 8 := true]];
        i := i + 1;
      }
      isEmpty := false;
    }

    /** True exactly when all the bits of the key are set. */
    method Contains(key: Key) returns (r: bool)
      requires Valid()
      ensures r <==> Has(key)
    {
      if isFull { return true; }
      if isEmpty {
        assert !BitSet(vData, Index(hash, |vData|, 0, key));
        return false;
      }
      var i := 0;
      while i < nHashFuncs
        invariant 0 <= i <= nHashFuncs
        invariant forall j: nat :: j < i ==> BitSet(vData, Index(hash, |vData|, j, key))
      {
        var n := Index(hash, |vData|, i, key);
        if !vData[n / 8][n % 8] { return false; }
        i := i + 1;
      }
      return true;
    }

    /** Makes the flags exact. */
    method UpdateEmptyFull()
      requires Valid()
      modifies this`isFull, this`isEmpty
      ensures Valid()
      ensures isFull <==> forall n: nat :: n < 8 * |vData| ==> BitSet(vData, n)
      ensures isEmpty <==> forall n: nat :: n < 8 * |vData| ==> !BitSet(vData, n)
    {
      var full, empty := true, true;
      var i := 0;
      while i < |vData|
        invariant 0 <= i <= |vData|
        invariant full <==> forall n: nat :: n < 8 * i ==> BitSet(vData, n)
        invariant empty <==> forall n: nat :: n < 8 * i ==> !BitSet(vData, n)
      {
        ByteBits(vData, i);
        full := full && vData[i] == seq(8, _ => true);
        empty := empty && vData[i] == ZeroByte();
        i := i + 1;
      }
      isFull, isEmpty := full, empty;
    }

    /** The first nonempty push that the filter contains, if there is one. */
    method AnyContained(pushes: seq<Key>) returns (r: bool)
      requires Valid()
      ensures r <==> AnyMarked(hash, nHashFuncs, vData, pushes)
    {
      var j := 0;
      while j < |pushes|
        invariant 0 <= j <= |pushes|
        invariant forall k :: 0 <= k < j ==> pushes[k] == [] || !Marked(hash, nHashFuncs, vData, pushes[k])
      {
        if pushes[j] != [] {
          var c := Contains(pushes[j]);
          if c { return true; }
        }
        j := j + 1;
      }
      return false;
    }

    /** Whether a transaction concerns the filter, adding the matched outputs that the flags follow and
      * nothing else. Whatever matched before still does. */
    method IsRelevantAndUpdate(tx: Tx) returns (r: bool)
      requires Valid()
      modifies this`vData, this`isEmpty
      ensures Valid() && Grows(old(vData), vData)
      ensures Matches(hash, nHashFuncs, old(vData), tx) ==> r
      ensures r ==> Matches(hash, nHashFuncs, vData, tx)
      ensures FollowsMatched(hash, nHashFuncs, nFlags, old(vData), vData, tx, |tx.outputs|)
      ensures OnlyFollowed(hash, nHashFuncs, nFlags, old(vData), vData, tx)
      ensures (forall i :: 0 <= i < |tx.outputs| ==> !Follows(nFlags, tx.outputs[i])) ==> vData == old(vData)
      ensures nFlags % 4 == 1 ==>
        forall i :: 0 <= i < |tx.outputs| && AnyMarked(hash, nHashFuncs, old(vData), tx.outputs[i].pushes) ==>
          Has(tx.outpoint(i))
      ensures nFlags % 4 == 2 ==>
        forall i :: 0 <= i < |tx.outputs| && tx.outputs[i].paysToKeys ==>
          (AnyMarked(hash, nHashFuncs, old(vData), tx.outputs[i].pushes) ==> Has(tx.outpoint(i)))
      ensures nFlags % 4 == 0 || nFlags % 4 == 3 ==> vData == old(vData)
    {
      if isFull {
        FullMarks(hash, nHashFuncs, vData, tx.hash);
        forall i | 0 <= i < |tx.outputs| ensures Has(tx.outpoint(i)) {
          FullMarks(hash, nHashFuncs, vData, tx.outpoint(i));
        }
        return true;
      }
      if isEmpty {
        EmptyMatches(hash, nHashFuncs, vData, tx);
        return false;
      }
      var found := Contains(tx.hash);
      var more := MatchOutputs(tx);
      if found || more { return true; }
      r := MatchInputs(tx);
    }

    method MatchOutputs(tx: Tx) returns (found: bool)
      requires Valid()
      modifies this`vData, this`isEmpty
      ensures Valid() && Grows(old(vData), vData)
      ensures !found ==>
        forall i :: 0 <= i < |tx.outputs| ==> !AnyMarked(hash, nHashFuncs, old(vData), tx.outputs[i].pushes)
      ensures found ==> exists i :: 0 <= i < |tx.outputs| && AnyMarked(hash, nHashFuncs, vData, tx.outputs[i].pushes)
      ensures FollowsMatched(hash, nHashFuncs, nFlags, old(vData), vData, tx, |tx.outputs|)
      ensures OnlyFollowed(hash, nHashFuncs, nFlags, old(vData), vData, tx)
      ensures (forall i :: 0 <= i < |tx.outputs| ==> !Follows(nFlags, tx.outputs[i])) ==> vData == old(vData)
      ensures !found ==> vData == old(vData)
    {
      found := false;
      var i := 0;
      while i < |tx.outputs|
        invariant 0 <= i <= |tx.outputs| && Valid()
        invariant Matched(hash, nHashFuncs, nFlags, old(vData), vData, tx, i, found)
      {
        ghost var before := vData;
        var c := AnyContained(tx.outputs[i].pushes);
        if c && Follows(nFlags, tx.outputs[i]) { Insert(tx.outpoint(i)); }
        MatchedNext(hash, nHashFuncs, nFlags, old(vData), before, vData, tx, i, found, c);
        found := found || c;
        i := i + 1;
      }
    }

    method MatchInputs(tx: Tx) returns (r: bool)
      requires Valid()
      ensures r <==> exists i :: 0 <= i < |tx.inputs| && InputMatches(hash, nHashFuncs, vData, tx.inputs[i])
    {
      var i := 0;
      while i < |tx.inputs|
        invariant 0 <= i <= |tx.inputs|
        invariant forall j :: 0 <= j < i ==> !InputMatches(hash, nHashFuncs, vData, tx.inputs[j])
      {
        var c := Contains(tx.inputs[i].prevout);
        if c { return true; }
        c := AnyContained(tx.inputs[i].pushes);
        if c { return true; }
        i := i + 1;
      }
      return false;
    }
  }

  // ---------------------------------------------------------------- facts about bits

  lemma ByteBits(data: seq<Byte>, i: nat)
    requires i < |data|
    ensures data[i] == seq(8, _ => true) <==> forall n: nat :: 8 * i <= n < 8 * (i + 1) ==> BitSet(data, n)
    ensures data[i] == ZeroByte() <==> forall n: nat :: 8 * i <= n < 8 * (i + 1) ==> !BitSet(data, n)
  {
    forall k: nat | k < 8 ensures BitSet(data, 8 * i + k) == data[i][k] {}
    forall n: nat | 8 * i <= n < 8 * (i + 1) ensures BitSet(data, n) == data[i][n - 8 * i] {}
  }

  lemma FullMarks(hash: Hashes, funcs: nat, data: seq<Byte>, key: Key)
    requires data != [] && forall n: nat :: n < 8 * |data| ==> BitSet(data, n)
    ensures Marked(hash, funcs, data, key)
  {
  }

  lemma EmptyMatches(hash: Hashes, funcs: nat, data: seq<Byte>, tx: Tx)
    requires data != [] && funcs > 0 && forall n: nat :: n < 8 * |data| ==> !BitSet(data, n)
    ensures !Matches(hash, funcs, data, tx)
    ensures forall i :: 0 <= i < |tx.outputs| ==> !AnyMarked(hash, funcs, data, tx.outputs[i].pushes)
  {
    forall key: Key ensures !Marked(hash, funcs, data, key) { assert !BitSet(data, Index(hash, |data|, 0, key)); }
  }

  lemma AnyMarkedStays(hash: Hashes, funcs: nat, data: seq<Byte>, data': seq<Byte>, pushes: seq<Key>)
    requires data != [] && Grows(data, data')
    ensures data' != [] && (AnyMarked(hash, funcs, data, pushes) ==> AnyMarked(hash, funcs, data', pushes))
  {
    if AnyMarked(hash, funcs, data, pushes) {
      var j :| 0 <= j < |pushes| && pushes[j] != [] && Marked(hash, funcs, data, pushes[j]);
      MarkedStays(hash, funcs, data, data', pushes[j]);
    }
  }

  lemma KeepsMarks(hash: Hashes, funcs: nat, data: seq<Byte>, data': seq<Byte>, tx: Tx)
    requires data != [] && Grows(data, data')
    ensures forall i :: 0 <= i < |tx.outputs| && AnyMarked(hash, funcs, data, tx.outputs[i].pushes) ==>
              AnyMarked(hash, funcs, data', tx.outputs[i].pushes)
    ensures forall i :: 0 <= i < |tx.outputs| && Marked(hash, funcs, data, tx.outpoint(i)) ==>
      Marked(hash, funcs, data', tx.outpoint(i))
  {
    forall i | 0 <= i < |tx.outputs| { AnyMarkedStays(hash, funcs, data, data', tx.outputs[i].pushes); }
  }

  /** Inserting the outpoint of a matched output sets only bits that are followed. */
  lemma FollowedNext(hash: Hashes, funcs: nat, flags: nat, data: seq<Byte>, data': seq<Byte>, data'': seq<Byte>, tx: Tx,
                     i: nat)
    requires data' != [] && |data| == |data'| && Grows(data', data'')
    requires OnlyFollowed(hash, funcs, flags, data, data', tx)
    requires i < |tx.outputs| && Follows(flags, tx.outputs[i]) && AnyMarked(hash, funcs, data', tx.outputs[i].pushes)
    requires forall n: nat :: n < 8 * |data''| && BitSet(data'', n) ==>
      BitSet(data', n) || BitOf(hash, funcs, |data''|, tx.outpoint(i), n)
    ensures OnlyFollowed(hash, funcs, flags, data, data'', tx)
  {
    KeepsMarks(hash, funcs, data', data'', tx);
    forall n: nat | n < 8 * |data| && BitSet(data'', n) && !BitSet(data, n)
      ensures FollowedBit(hash, funcs, flags, data'', tx, n)
    {
      if BitSet(data', n) {
        var j :| 0 <= j < |tx.outputs| && Follows(flags, tx.outputs[j])
          && AnyMarked(hash, funcs, data', tx.outputs[j].pushes) && BitOf(hash, funcs, |data'|, tx.outpoint(j), n);
        assert AnyMarked(hash, funcs, data'', tx.outputs[j].pushes);
      }
    }
  }

  /** What is known after the first `count` outputs. */
  ghost predicate Matched(hash: Hashes, funcs: nat, flags: nat, data: seq<Byte>, data': seq<Byte>, tx: Tx, count: nat,
                          found: bool) {
    && data != [] && count <= |tx.outputs| && Grows(data, data')
    && (!found ==>
          data' == data && forall j :: 0 <= j < count ==> !AnyMarked(hash, funcs, data, tx.outputs[j].pushes))
    && (found ==> exists j :: 0 <= j < count && AnyMarked(hash, funcs, data', tx.outputs[j].pushes))
    && FollowsMatched(hash, funcs, flags, data, data', tx, count)
    && OnlyFollowed(hash, funcs, flags, data, data', tx)
    && ((forall j :: 0 <= j < count ==> !Follows(flags, tx.outputs[j])) ==> data' == data)
  }

  /** One more output, with its outpoint inserted if it matched and is to be followed. */
  lemma MatchedNext(hash: Hashes, funcs: nat, flags: nat, data: seq<Byte>, data': seq<Byte>, data'': seq<Byte>, tx: Tx,
                    i: nat, found: bool, c: bool)
    requires Matched(hash, funcs, flags, data, data', tx, i, found) && i < |tx.outputs|
    requires c <==> AnyMarked(hash, funcs, data', tx.outputs[i].pushes)
    requires !(c && Follows(flags, tx.outputs[i])) ==> data'' == data'
    requires c && Follows(flags, tx.outputs[i]) ==>
      && Grows(data', data'') && Marked(hash, funcs, data'', tx.outpoint(i))
      && forall n: nat :: n < 8 * |data''| && BitSet(data'', n) ==>
           BitSet(data', n) || BitOf(hash, funcs, |data''|, tx.outpoint(i), n)
    ensures Matched(hash, funcs, flags, data, data'', tx, i + 1, found || c)
  {
    KeepsMarks(hash, funcs, data', data'', tx);
    AnyMarkedStays(hash, funcs, data, data', tx.outputs[i].pushes);
    if c && Follows(flags, tx.outputs[i]) { FollowedNext(hash, funcs, flags, data, data', data'', tx, i); }
  }

  // ---------------------------------------------------------------- histories

  datatype Event = InsertKey(key: Key) | RefreshFlags | See(tx: Tx)

  /** What one event guarantees, between the bits before and after it. */
  ghost predicate Guarantees(hash: Hashes, funcs: nat, flags: nat, e: Event, data: seq<Byte>, data': seq<Byte>,
                             r: bool) {
    && data != [] && Grows(data, data')
    && match e
       case InsertKey(key) => Marked(hash, funcs, data', key)
       case RefreshFlags => data' == data
       case See(tx) =>
         && (Matches(hash, funcs, data, tx) ==> r)
         && (r ==> Matches(hash, funcs, data', tx))
         && FollowsMatched(hash, funcs, flags, data, data', tx, |tx.outputs|)
         && OnlyFollowed(hash, funcs, flags, data, data', tx)
  }

  /** The bits through a run of events, and the answer to each. */
  ghost predicate History(hash: Hashes, funcs: nat, flags: nat, events: seq<Event>, datas: seq<seq<Byte>>,
                          results: seq<bool>) {
    && |datas| == |events| + 1 && |results| == |events|
    && forall i :: 0 <= i < |events| ==> Guarantees(hash, funcs, flags, events[i], datas[i], datas[i + 1], results[i])
  }

  /** Any run of the filter is such a history. */
  method Run(f: Filter, events: seq<Event>) returns (results: seq<bool>, ghost datas: seq<seq<Byte>>)
    requires f.Valid()
    modifies f
    ensures f.Valid() && History(f.hash, f.nHashFuncs, f.nFlags, events, datas, results)
    ensures datas[0] == old(f.vData) && datas[|events|] == f.vData
  {
    results, datas := [], [f.vData];
    var i := 0;
    while i < |events|
      invariant 0 <= i <= |events| && f.Valid() && |datas| == i + 1 && |results| == i
      invariant datas[0] == old(f.vData) && datas[i] == f.vData
      invariant forall j :: 0 <= j < i ==>
        Guarantees(f.hash, f.nHashFuncs, f.nFlags, events[j], datas[j], datas[j + 1], results[j])
    {
      var r := Happen(f, events[i]);
      results, datas := results + [r], datas + [f.vData];
      i := i + 1;
    }
  }

  method Happen(f: Filter, e: Event) returns (r: bool)
    requires f.Valid()
    modifies f
    ensures f.Valid() && Guarantees(f.hash, f.nHashFuncs, f.nFlags, e, old(f.vData), f.vData, r)
  {
    match e {
      case InsertKey(key) =>
        f.Insert(key);
        r := true;
      case RefreshFlags =>
        f.UpdateEmptyFull();
        r := true;
      case See(tx) =>
        r := f.IsRelevantAndUpdate(tx);
    }
  }

  lemma {:induction false} BitsOnlyGrow(hash: Hashes, funcs: nat, flags: nat, events: seq<Event>,
                                        datas: seq<seq<Byte>>, results: seq<bool>, i: nat, j: nat)
    requires History(hash, funcs, flags, events, datas, results) && i <= j <= |events| && datas[i] != []
    ensures Grows(datas[i], datas[j])
    decreases j
  {
    if i < j {
      BitsOnlyGrow(hash, funcs, flags, events, datas, results, i, j - 1);
      assert Guarantees(hash, funcs, flags, events[j - 1], datas[j - 1], datas[j], results[j - 1]);
    }
  }

  lemma HistoryAt(hash: Hashes, funcs: nat, flags: nat, events: seq<Event>, datas: seq<seq<Byte>>, results: seq<bool>,
                  i: nat)
    requires History(hash, funcs, flags, events, datas, results) && i < |events|
    ensures Guarantees(hash, funcs, flags, events[i], datas[i], datas[i + 1], results[i])
  {
  }

  lemma MarkedForever(hash: Hashes, funcs: nat, flags: nat, events: seq<Event>, datas: seq<seq<Byte>>,
                      results: seq<bool>, i: nat, j: nat, key: Key)
    requires History(hash, funcs, flags, events, datas, results) && i <= j <= |events|
    requires datas[i] != [] && Marked(hash, funcs, datas[i], key)
    ensures datas[j] != [] && Marked(hash, funcs, datas[j], key)
  {
    BitsOnlyGrow(hash, funcs, flags, events, datas, results, i, j);
    MarkedStays(hash, funcs, datas[i], datas[j], key);
  }

  /** An inserted key is contained forever after. */
  lemma ContainedForever(hash: Hashes, funcs: nat, flags: nat, events: seq<Event>, datas: seq<seq<Byte>>,
                         results: seq<bool>,
                         i: nat, j: nat, key: Key)
    requires History(hash, funcs, flags, events, datas, results)
    requires i < j <= |events| && events[i] == InsertKey(key)
    ensures datas[j] != [] && Marked(hash, funcs, datas[j], key)
  {
    HistoryAt(hash, funcs, flags, events, datas, results, i);
    MarkedForever(hash, funcs, flags, events, datas, results, i + 1, j, key);
  }

  ghost predicate SpendsOf(spender: Tx, spent: Tx, i: nat) {
    exists k :: 0 <= k < |spender.inputs| && spender.inputs[k].prevout == spent.outpoint(i)
  }

  lemma FollowedAtOnce(hash: Hashes, funcs: nat, flags: nat, e: Event, data: seq<Byte>, data': seq<Byte>, r: bool,
                       i: nat)
    requires Guarantees(hash, funcs, flags, e, data, data', r) && e.See? && i < |e.tx.outputs|
    requires Follows(flags, e.tx.outputs[i]) && AnyMarked(hash, funcs, data, e.tx.outputs[i].pushes)
    ensures data' != [] && Marked(hash, funcs, data', e.tx.outpoint(i))
  {
  }

  lemma FollowedStays(hash: Hashes, funcs: nat, flags: nat, events: seq<Event>, datas: seq<seq<Byte>>,
                      results: seq<bool>, j: nat, i: nat, k: nat)
    requires History(hash, funcs, flags, events, datas, results)
    requires j < k <= |events| && events[j].See? && i < |events[j].tx.outputs|
    requires Follows(flags, events[j].tx.outputs[i])
    requires datas[j] != [] && AnyMarked(hash, funcs, datas[j], events[j].tx.outputs[i].pushes)
    ensures datas[k] != [] && Marked(hash, funcs, datas[k], events[j].tx.outpoint(i))
  {
    HistoryAt(hash, funcs, flags, events, datas, results, j);
    FollowedAtOnce(hash, funcs, flags, events[j], datas[j], datas[j + 1], results[j], i);
    MarkedForever(hash, funcs, flags, events, datas, results, j + 1, k, events[j].tx.outpoint(i));
  }

  /** A transaction that spends a matched output is relevant, however much later, when the flags follow
    * the output: with BLOOM_UPDATE_ALL always, with BLOOM_UPDATE_P2PUBKEY_ONLY if it pays to keys. */
  lemma SpendIsSeen(hash: Hashes, funcs: nat, flags: nat, events: seq<Event>, datas: seq<seq<Byte>>, results: seq<bool>,
                    j: nat, i: nat, k: nat)
    requires History(hash, funcs, flags, events, datas, results)
    requires j < k < |events| && events[j].See? && events[k].See? && i < |events[j].tx.outputs|
    requires Follows(flags, events[j].tx.outputs[i])
    requires datas[j] != [] && AnyMarked(hash, funcs, datas[j], events[j].tx.outputs[i].pushes)
    requires SpendsOf(events[k].tx, events[j].tx, i)
    ensures results[k]
  {
    var out := events[j].tx.outpoint(i);
    FollowedStays(hash, funcs, flags, events, datas, results, j, i, k);
    var n :| 0 <= n < |events[k].tx.inputs| && events[k].tx.inputs[n].prevout == out;
    assert InputMatches(hash, funcs, datas[k], events[k].tx.inputs[n]);
    assert Guarantees(hash, funcs, flags, events[k], datas[k], datas[k + 1], results[k]);
  }

  /** `spender` spends an output of `spent` that the flags follow and that pushes something in the filter. */
  ghost predicate Link(hash: Hashes, funcs: nat, flags: nat, data: seq<Byte>, spent: Tx, spender: Tx) {
    && data != []
    && exists i: nat :: i < |spent.outputs| && Follows(flags, spent.outputs[i])
         && AnyMarked(hash, funcs, data, spent.outputs[i].pushes) && SpendsOf(spender, spent, i)
  }

  /** A chain of transactions, at the given places of a history: each one spends an output of the one
    * before it that the filter matched when it saw it. */
  ghost predicate Chain(hash: Hashes, funcs: nat, flags: nat, events: seq<Event>, datas: seq<seq<Byte>>, at: seq<nat>) {
    && |datas| == |events| + 1
    && (forall m :: 0 <= m < |at| ==> at[m] < |events| && events[at[m]].See?)
    && forall m :: 0 <= m < |at| - 1 ==>
         at[m] < at[m + 1] && Link(hash, funcs, flags, datas[at[m]], events[at[m]].tx, events[at[m + 1]].tx)
  }

  /** Every transaction of a chain is relevant, the first one included. */
  lemma ChainIsSeen(hash: Hashes, funcs: nat, flags: nat, events: seq<Event>, datas: seq<seq<Byte>>, results: seq<bool>,
                    at: seq<nat>, m: nat)
    requires History(hash, funcs, flags, events, datas, results)
    requires Chain(hash, funcs, flags, events, datas, at) && |at| >= 2 && m < |at|
    ensures results[at[m]]
  {
    if m > 0 {
      var j, k := at[m - 1], at[m];
      assert j < k && Link(hash, funcs, flags, datas[j], events[j].tx, events[k].tx);
      var i: nat :| i < |events[j].tx.outputs| && Follows(flags, events[j].tx.outputs[i])
                    && AnyMarked(hash, funcs, datas[j], events[j].tx.outputs[i].pushes)
                    && SpendsOf(events[k].tx, events[j].tx, i);
      SpendIsSeen(hash, funcs, flags, events, datas, results, j, i, k);
    } else {
      var j := at[0];
      assert j < at[1] && Link(hash, funcs, flags, datas[j], events[j].tx, events[at[1]].tx);
      assert Guarantees(hash, funcs, flags, events[j], datas[j], datas[j + 1], results[j]);
    }
  }

  /** An output is matched when it pushes any key that was inserted before; each link of a chain may
    * rest on a key of its own. */
  lemma InsertedPushMatches(hash: Hashes, funcs: nat, flags: nat, events: seq<Event>, datas: seq<seq<Byte>>,
                            results: seq<bool>, first: nat, key: Key, j: nat, pushes: seq<Key>)
    requires History(hash, funcs, flags, events, datas, results)
    requires first < j <= |events| && events[first] == InsertKey(key) && key != [] && key in pushes
    ensures datas[j] != [] && AnyMarked(hash, funcs, datas[j], pushes)
  {
    ContainedForever(hash, funcs, flags, events, datas, results, first, j, key);
    var n :| 0 <= n < |pushes| && pushes[n] == key;
  }
}
