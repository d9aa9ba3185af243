/** The Keccak sponge: as FIPS 202 defines it on bit strings (sections 4, 5.1 and 5.2, without the
  * SHA-3 suffix), and the streaming engine of src/keccak.c that computes it. The bits of a byte are
  * listed from the least significant one up.
  */
module KeccakSponge {
  import opened KeccakPlain
  import opened KeccakFast
  import opened Pieces
  import opened BitStrings

  // ---------------------------------------------------------------- the sponge on bits

  function Zero(): Lanes { seq(25, _ => seq(64, _ => false)) }

  /** The state with a block of bits added to its first lanes. */
  function AddBlock(s: Lanes, bits: seq<bool>): Lanes {
    seq(25, i requires 0 <= i < 25 => if 64 * i + 64 <= |bits| then Xor(s[i], bits[64 * i..64 * i + 64]) else s[i])
  }

  function Absorb(p: seq<bool>, rate: nat): Lanes
    requires rate > 0
    decreases |p|
  {
    if |p| < rate then Zero()
    else Permute(AddBlock(Absorb(p[..|p| - rate], rate), p[|p| - rate..]))
  }

  /** pad10*1: a one, the least number of zeros, a one. */
  function Pad(rate: nat, m: int): seq<bool>
    requires rate > 0
  {
    [true] + Zeros((-m - 2) % rate) + [true]
  }

  function StateBits(s: Lanes): seq<bool> { seq(1600, i requires 0 <= i < 1600 => s[i / 64][i % 64]) }

  /** Absorbing a block adds its bits to the first bits of the state, which is read in the order of section
    * 3.1.3 of FIPS 202. */
  lemma AddingIsXor(s: Lanes, bits: seq<bool>, i: nat)
    requires |bits| % 64 == 0 && |bits| <= 1600 && i < 1600
    ensures StateBits(AddBlock(s, bits))[i] == (StateBits(s)[i] != (i < |bits| && bits[i]))
    ensures StateBits(s)[i] == s[i / 64][i % 64]
  {
    var k := i / 64;
    assert i == 64 * k + i % 64;
    if i < |bits| {
      assert 64 * k + 64 <= |bits|;
      assert bits[64 * k..64 * k + 64][i % 64] == bits[i];
    } else {
      assert 64 * k + 64 > |bits|;
    }
  }

  predicate Rate(lim: nat) { lim == 72 || lim == 104 || lim == 136 || lim == 144 }

  function DigestSize(lim: nat): nat
    requires Rate(lim)
  {
    (200 - lim) / 2
  }

  /** KECCAK[c] with rate 8 * lim and capacity c = 16 * DigestSize(lim), cut to DigestSize(lim) bytes. */
  function Keccak(lim: nat, message: seq<bool>): seq<bool>
    requires Rate(lim)
  {
    StateBits(Absorb(message + Pad(8 * lim, |message|), 8 * lim))[..8 * DigestSize(lim)]
  }

  /** The last bits of a message that does not end on a byte: the upper n bits of `ub`, low bit first. */
  function Extra(ub: Byte, n: nat): seq<bool>
    requires n < 8
  {
    ub[8 - n..]
  }

  // ---------------------------------------------------------------- blocks of bytes

  ghost predicate Sized(blocks: seq<seq<Byte>>, lim: nat) { forall i :: 0 <= i < |blocks| ==> |blocks[i]| == lim }

  ghost function AbsorbBlocks(blocks: seq<seq<Byte>>): Lanes {
    if blocks == [] then Zero()
    else Permute(AddBlock(AbsorbBlocks(blocks[..|blocks| - 1]), BitsOf(blocks[|blocks| - 1])))
  }

  lemma {:induction false} FlatBlocks(blocks: seq<seq<Byte>>, lim: nat)
    requires Sized(blocks, lim)
    ensures |Flat(blocks)| == |blocks| * lim
  {
    if blocks != [] {
      FlatBlocks(blocks[..|blocks| - 1], lim);
      OneMoreTime(|blocks|, lim);
    }
  }

  lemma OneMoreTime(x: nat, y: nat)
    requires x > 0
    ensures (x - 1) * y + y == x * y
  {
  }

  /** Absorbing whole blocks one by one is absorbing their bits. */
  lemma {:induction false} AbsorbIsBlockwise(blocks: seq<seq<Byte>>, lim: nat)
    requires Sized(blocks, lim) && lim > 0
    ensures Absorb(BitsOf(Flat(blocks)), 8 * lim) == AbsorbBlocks(blocks)
  {
    if blocks != [] {
      var front, last := blocks[..|blocks| - 1], blocks[|blocks| - 1];
      AbsorbIsBlockwise(front, lim);
      BitsOfJoin(Flat(front), last);
      var p, q := BitsOf(Flat(front)), BitsOf(last);
      assert BitsOf(Flat(blocks)) == p + q;
      assert (p + q)[..|p|] == p && (p + q)[|p|..] == q;
    }
  }

  // ---------------------------------------------------------------- padding

  /** The bytes that the last call feeds, given how many wait in the buffer. */
  function LastBytes(lim: nat, ptr: nat, ub: Byte, n: nat): (tmp: seq<Byte>)
    requires ptr < lim && n < 8
    ensures |tmp| == if ptr == lim - 1 then (if n == 7 then 1 + lim else 1) else lim - ptr
  {
    var eb := seq(8, i requires 0 <= i < 8 => if i < n then ub[8 - n + i] else i == n);
    var zero := seq(8, _ => false);
    var top := seq(8, i => i == 7);
    if ptr == lim - 1 then
      if n == 7 then [eb] + seq(lim - 1, _ => zero) + [top] else [eb[7 := true]]
    else
      [eb] + seq(lim - ptr - 2, _ => zero) + [top]
  }

  /** They are the extra bits, a one, zeros, and a one in the very last place. */
  lemma {:induction false} LastBits(lim: nat, ptr: nat, ub: Byte, n: nat, k: nat)
    requires ptr < lim && n < 8 && k < 8 * |LastBytes(lim, ptr, ub, n)|
    ensures
      var tmp := LastBytes(lim, ptr, ub, n);
      BitsOf(tmp)[k] == if k < n then Extra(ub, n)[k] else k == n || k == 8 * |tmp| - 1
    ensures n < 8 * |LastBytes(lim, ptr, ub, n)| - 1
  {
  }

  lemma PadCount(a: int, j: nat, q: nat, rate: nat)
    requires rate > 0 && j < rate && a + j == q * rate
    ensures (-a) % rate == j
  {
    var r, d := (-a) % rate, (-a) / rate;
    assert -a == d * rate + r;
    assert j - r == (d + q) * rate;
    if d + q > 0 { TimesAtLeast(d + q, rate); } else if d + q < 0 { TimesAtLeast(-(d + q), rate); }
  }

  lemma TimesAtLeast(x: int, y: int)
    requires x >= 1 && y >= 0
    ensures x * y >= y
  {
  }

  /** Padding in bytes is pad10*1 on bits. */
  lemma PaddingIsPad(blocks: seq<seq<Byte>>, tail: seq<Byte>, lim: nat, ub: Byte, n: nat)
    requires Sized(blocks, lim) && |tail| < lim && n < 8
    ensures
      var fed := Flat(blocks) + tail;
      var message := BitsOf(fed) + Extra(ub, n);
      BitsOf(fed + LastBytes(lim, |tail|, ub, n)) == message + Pad(8 * lim, |message|)
  {
    var fed, tmp := Flat(blocks) + tail, LastBytes(lim, |tail|, ub, n);
    var extra := Extra(ub, n);
    var m := |BitsOf(fed) + extra|;
    assert |fed| == |blocks| * lim + |tail| by { FlatBlocks(blocks, lim); }
    LastBits(lim, |tail|, ub, n, 0);
    PaddedLength(|blocks|, |tail|, |tmp|, lim, n);
    LastIsPad(lim, |tail|, ub, n, Pad(8 * lim, m));
    BitsOfJoin(fed, tmp);
    JoinAssoc(BitsOf(fed), extra, Pad(8 * lim, m));
  }

  lemma LastIsPad(lim: nat, ptr: nat, ub: Byte, n: nat, pad: seq<bool>)
    requires ptr < lim && n < 8
    requires
      var j := 8 * |LastBytes(lim, ptr, ub, n)| - n - 2;
      j >= 0 && pad == [true] + Zeros(j) + [true]
    ensures BitsOf(LastBytes(lim, ptr, ub, n)) == Extra(ub, n) + pad
  {
    var tmp := LastBytes(lim, ptr, ub, n);
    forall k | 0 <= k < 8 * |tmp| ensures BitsOf(tmp)[k] == (Extra(ub, n) + pad)[k] { LastBits(lim, ptr, ub, n, k); }
  }

  lemma PaddedLength(q: nat, tail: nat, tmp: nat, lim: nat, n: nat)
    requires tail < lim && n < 8
    requires tmp == if tail == lim - 1 then (if n == 7 then 1 + lim else 1) else lim - tail
    ensures var m := 8 * (q * lim + tail) + n; (-m - 2) % (8 * lim) == 8 * tmp - n - 2
  {
    var m := 8 * (q * lim + tail) + n;
    var q' := q + if tail + tmp == lim then 1 else 2;
    assert m + 2 + (8 * tmp - n - 2) == q' * (8 * lim) by {
      assert 8 * (q * lim + tail + tmp) == 8 * (q' * lim);
    }
    PadCount(m + 2, 8 * tmp - n - 2, q', 8 * lim);
  }

  // ---------------------------------------------------------------- the streaming engine

  /** Eight bytes as a lane, the least significant byte first. */
  function LaneOf(bytes: seq<Byte>, i: nat): Word
    requires 8 * i + 8 <= |bytes|
  {
    seq(64, z requires 0 <= z < 64 => bytes[8 * i + z / 8][z % 8])
  }

  lemma LaneBits(bytes: seq<Byte>, i: nat)
    requires 8 * i + 8 <= |bytes|
    ensures LaneOf(bytes, i) == BitsOf(bytes)[64 * i..64 * i + 64]
  {
    forall z | 0 <= z < 64 ensures LaneOf(bytes, i)[z] == BitsOf(bytes)[64 * i + z] {
      assert (64 * i + z) / 8 == 8 * i + z / 8 && (64 * i + z) % 8 == z % 8;
    }
  }

  /** Byte j of the state, as it is written out. */
  function ByteOf(s: seq<Word>, j: nat): Byte
    requires j < 8 * |s|
  {
    seq(8, z requires 0 <= z < 8 => s[j / 8][j % 8 * 8 + z])
  }

  /** Adding a block to the stored lanes adds it to the lanes they stand for. */
  lemma AddBlockFlip(s: Lanes, bits: seq<bool>)
    ensures Flip(Between, AddBlock(s, bits)) == AddBlock(Flip(Between, s), bits)
  {
    forall i | 0 <= i < 25 ensures Flip(Between, AddBlock(s, bits))[i] == AddBlock(Flip(Between, s), bits)[i] {
      if 64 * i + 64 <= |bits| { XorNot(s[i], bits[64 * i..64 * i + 64]); }
    }
  }

  /** The stored lanes are the blocks absorbed, with six lanes complemented. A proof that needs the
    * equation mentions `Look`; the buffering code, which does not, never unfolds it. The same holds
    * for `Permuted`. */
  ghost predicate Holds(wide: Lanes, blocks: seq<seq<Byte>>) {
    forall k: nat :: Look(k) ==> Flip(Between, wide) == AbsorbBlocks(blocks)
  }

  ghost predicate Permuted(before: Lanes, after: Lanes) {
    forall k: nat :: Look(k) ==> Flip(Between, after) == Permute(Flip(Between, before))
  }

  class Context {
    const wide: array<Word>
    const buf: array<Byte>
    var ptr: nat
    var lim: nat
    ghost var blocks: seq<seq<Byte>>

    ghost predicate Valid()
      reads this, wide, buf
    {
      && wide.Length == 25 && buf.Length == 144
      && Rate(lim) && ptr < lim
      && Sized(blocks, lim)
      && Holds(wide[..], blocks)
    }

    /** Everything fed since the start: the absorbed blocks and the bytes that wait. */
    ghost function Fed(): seq<Byte>
      reads this, buf
      requires ptr <= buf.Length
    {
      Flat(blocks) + buf[..ptr]
    }

    constructor (outSize: nat)
      requires outSize == 224 || outSize == 256 || outSize == 384 || outSize == 512
      ensures Valid() && Fed() == [] && lim == 200 - outSize / 4
      ensures fresh(wide) && fresh(buf)
    {
      wide := new Word[25](_ => seq(64, _ => false));
      buf := new Byte[144](_ => seq(8, _ => false));
      new;
      Init(outSize);
    }

    method Init(outSize: nat)
      requires wide.Length == 25 && buf.Length == 144
      requires outSize == 224 || outSize == 256 || outSize == 384 || outSize == 512
      modifies this, wide
      ensures Valid() && Fed() == [] && lim == 200 - outSize / 4
    {
      forall i | 0 <= i < 25 { wide[i] := seq(64, _ => false); }
      var ones: Word := seq(64, _ => true);
      wide[1] := ones;
      wide[2] := ones;
      wide[8] := ones;
      wide[12] := ones;
      wide[17] := ones;
      wide[20] := ones;
      ptr := 0;
      lim := 200 - outSize / 4;
      blocks := [];
      HoldsZero(wide[..]);
    }

    /** Adds a full buffer to the lanes and permutes them. */
    method Compress()
      requires wide.Length == 25 && buf.Length == 144 && Rate(lim) && ptr == lim && Sized(blocks, lim)
      requires Holds(wide[..], blocks)
      modifies this, wide
      ensures Valid() && ptr == 0 && lim == old(lim)
      ensures blocks == old(blocks) + [buf[..lim]]
    {
      AbsorbBuffer();
      ptr := 0;
      blocks := blocks + [buf[..lim]];
    }

    method AbsorbBuffer()
      requires wide.Length == 25 && buf.Length == 144 && Rate(lim) && Holds(wide[..], blocks)
      modifies wide
      ensures Holds(wide[..], blocks + [buf[..lim]])
    {
      ghost var before: Lanes := wide[..];
      InputBuf();
      PermuteLanes();
      HoldsNext(before, wide[..], blocks, buf[..lim]);
    }

    method PermuteLanes()
      requires wide.Length == 25
      modifies wide
      ensures Permuted(old(wide[..]), wide[..])
    {
      KeccakF(wide);
    }

    method InputBuf()
      requires wide.Length == 25 && buf.Length == 144 && Rate(lim)
      modifies wide
      ensures wide[..] == AddBlock(old(wide[..]), BitsOf(buf[..lim]))
    {
      ghost var before: Lanes := wide[..];
      forall i | 0 <= i < lim / 8 { wide[i] := Xor(wide[i], LaneOf(buf[..lim], i)); }
      AddLanes(before, wide[..], buf[..lim]);
    }

    /** Copies bytes behind those that wait. */
    method Fill(data: seq<Byte>)
      requires ptr + |data| <= buf.Length
      modifies this`ptr, buf
      ensures ptr == old(ptr) + |data| && buf[..ptr] == old(buf[..ptr]) + data
    {
      forall i | 0 <= i < |data| { buf[ptr + i] := data[i]; }
      ptr := ptr + |data|;
    }

    method Core(data: seq<Byte>)
      requires Valid()
      modifies this, wide, buf
      ensures Valid() && lim == old(lim) && Fed() == old(Fed()) + data
    {
      if |data| < lim - ptr {
        Fill(data);
        return;
      }
      var rest := data;
      while |rest| > 0
        invariant Valid() && lim == old(lim) && Fed() + rest == old(Fed()) + data
      {
        var clen := if lim - ptr > |rest| then |rest| else lim - ptr;
        Feed(rest[..clen]);
        assert rest == rest[..clen] + rest[clen..];
        rest := rest[clen..];
      }
    }

    method Feed(data: seq<Byte>)
      requires Valid() && |data| <= lim - ptr
      modifies this, wide, buf
      ensures Valid() && lim == old(lim) && Fed() == old(Fed()) + data
    {
      ghost var before, tail := blocks, buf[..ptr];
      Fill(data);
      assert Flat(before) + (tail + data) == Flat(before) + tail + data;
      if ptr == lim {
        FlatJoin(before, tail + data);
        Compress();
        assert blocks == before + [tail + data];
        assert Fed() == Flat(blocks);
      }
    }

    /** Feeds the padding, which always ends on a block. */
    method Finish(ub: Byte, n: nat)
      requires Valid() && n < 8
      modifies this, wide, buf
      ensures Valid() && lim == old(lim) && ptr == 0
      ensures Flat(blocks) == old(Fed()) + LastBytes(lim, old(ptr), ub, n)
    {
      ghost var before, count := blocks, ptr;
      Core(LastBytes(lim, ptr, ub, n));
      FlatBlocks(before, lim);
      FlatBlocks(blocks, lim);
      EndsOnBlock(|before|, |blocks|, count, ptr, |LastBytes(lim, count, ub, n)|, lim);
      assert buf[..ptr] == [];
    }

    method Uncomplement()
      requires wide.Length == 25
      modifies wide
      ensures wide[..] == Flip(Between, old(wide[..]))
    {
      wide[1] := Not(wide[1]);
      wide[2] := Not(wide[2]);
      wide[8] := Not(wide[8]);
      wide[12] := Not(wide[12]);
      wide[17] := Not(wide[17]);
      wide[20] := Not(wide[20]);
    }

    method Squeeze() returns (dst: seq<Byte>)
      requires Valid()
      modifies wide
      ensures BitsOf(dst) == StateBits(AbsorbBlocks(blocks))[..8 * DigestSize(lim)]
    {
      Reveal(wide[..], blocks);
      Uncomplement();
      dst := Output(wide[..], DigestSize(lim));
    }

    /** Ends the message with the upper n bits of `ub`; the context then starts over. */
    method Close(ub: Byte, n: nat) returns (dst: seq<Byte>)
      requires Valid() && n < 8
      modifies this, wide, buf
      ensures BitsOf(dst) == Keccak(old(lim), BitsOf(old(Fed())) + Extra(ub, n))
      ensures Valid() && Fed() == [] && lim == old(lim)
    {
      ghost var before, tail := blocks, buf[..ptr];
      Finish(ub, n);
      dst := Squeeze();
      DigestIsKeccak(before, tail, blocks, lim, ub, n);
      Init(8 * DigestSize(lim));
    }
  }

  lemma HoldsZero(s: Lanes)
    requires forall i :: 0 <= i < 25 ==> s[i] == seq(64, _ => Complemented(Between, i))
    ensures Holds(s, [])
  {
    forall i | 0 <= i < 25 ensures Flip(Between, s)[i] == Zero()[i] {
      assert forall z :: 0 <= z < 64 ==> Flip(Between, s)[i][z] == Zero()[i][z];
    }
  }

  lemma AddLanes(before: Lanes, after: Lanes, bytes: seq<Byte>)
    requires |bytes| % 8 == 0
    requires forall i :: 0 <= i < 25 ==>
      after[i] == if 8 * i + 8 <= |bytes| then Xor(before[i], LaneOf(bytes, i)) else before[i]
    ensures after == AddBlock(before, BitsOf(bytes))
  {
    forall i | 0 <= i < 25 ensures after[i] == AddBlock(before, BitsOf(bytes))[i] {
      if 8 * i + 8 <= |bytes| { LaneBits(bytes, i); }
    }
  }

  lemma HoldsNext(before: Lanes, after: Lanes, blocks: seq<seq<Byte>>, block: seq<Byte>)
    requires Holds(before, blocks)
    requires Permuted(AddBlock(before, BitsOf(block)), after)
    ensures Holds(after, blocks + [block])
  {
    assert Look(0);
    AddBlockFlip(before, BitsOf(block));
    assert (blocks + [block])[..|blocks|] == blocks;
  }

  lemma Reveal(wide: Lanes, blocks: seq<seq<Byte>>)
    requires Holds(wide, blocks)
    ensures Flip(Between, wide) == AbsorbBlocks(blocks)
  {
    assert Look(0);
  }

  /** The first d bytes of the state, eight from each lane. */
  function Output(s: Lanes, d: nat): (dst: seq<Byte>)
    requires d <= 200
    ensures BitsOf(dst) == StateBits(s)[..8 * d]
  {
    var dst := seq(d, j requires 0 <= j < d => ByteOf(s, j));
    OutputBits(s, d, dst);
    dst
  }

  lemma OutputBits(s: Lanes, d: nat, dst: seq<Byte>)
    requires d <= 200 && |dst| == d && forall j :: 0 <= j < d ==> dst[j] == ByteOf(s, j)
    ensures BitsOf(dst) == StateBits(s)[..8 * d]
  {
    forall i | 0 <= i < 8 * d ensures BitsOf(dst)[i] == StateBits(s)[i] {
      var j, z := i / 8, i % 8;
      assert dst[j] == ByteOf(s, j);
      assert i / 64 == j / 8 && i % 64 == j % 8 * 8 + z;
    }
  }

  lemma EndsOnBlock(before: nat, after: nat, count: nat, ptr: nat, tmp: nat, lim: nat)
    requires count < lim && ptr < lim && before * lim + count + tmp == after * lim + ptr
    requires tmp == lim - count || tmp == 2 * lim - count
    ensures ptr == 0
  {
    var d := after - before;
    assert d * lim + ptr == count + tmp;
    if d > 2 { TimesAtLeast(d - 2, lim); }
  }

  lemma DigestIsKeccak(before: seq<seq<Byte>>, tail: seq<Byte>, blocks: seq<seq<Byte>>, lim: nat, ub: Byte, n: nat)
    requires Rate(lim) && Sized(before, lim) && |tail| < lim && n < 8 && Sized(blocks, lim)
    requires Flat(blocks) == Flat(before) + tail + LastBytes(lim, |tail|, ub, n)
    ensures StateBits(AbsorbBlocks(blocks))[..8 * DigestSize(lim)]
      == Keccak(lim, BitsOf(Flat(before) + tail) + Extra(ub, n))
  {
    PaddingIsPad(before, tail, lim, ub, n);
    AbsorbIsBlockwise(blocks, lim);
  }

  /** However a message is cut into pieces, empty ones included, the engine computes KECCAK of the
    * whole. */
  method HashPieces(outSize: nat, pieces: seq<seq<Byte>>, ub: Byte, n: nat) returns (dst: seq<Byte>)
    requires outSize == 224 || outSize == 256 || outSize == 384 || outSize == 512
    requires n < 8
    ensures BitsOf(dst) == Keccak(200 - outSize / 4, BitsOf(Flat(pieces)) + Extra(ub, n))
  {
    var kc := new Context(outSize);
    var i := 0;
    while i < |pieces|
      invariant 0 <= i <= |pieces| && kc.Valid() && kc.lim == 200 - outSize / 4
      invariant kc.Fed() == Flat(pieces[..i])
      invariant fresh(kc) && fresh(kc.wide) && fresh(kc.buf)
    {
      FlatNext(pieces, i);
      kc.Core(pieces[i]);
      i := i + 1;
    }
    FlatAll(pieces);
    dst := kc.Close(ub, n);
  }
}
