/** The streaming BLAKE-512 and BLAKE-384 engine (src/blake.c): buffering, the two-word bit counter
  * with its borrow, and padding, around a compression function of which nothing is assumed. The bits
  * of a byte are listed from the most significant one down.
  */
module Blake {
  import opened BitStrings
  import opened Pieces
  import opened Numbers

  const TWO128: nat := 0x1_0000_0000_0000_0000_0000_0000_0000_0000

  /** The compression function sees the chain value, the low and high word of the counter and the
    * 1024 bits of a block. */
  datatype Engine<!H> = Engine(iv: H, compress: (H, nat, nat, seq<bool>) -> H, encode: (H, nat) -> seq<Byte>)

  // ---------------------------------------------------------------- the plain hash

  /** The low w bits of a number, the most significant first. */
  function NumberBits(x: nat, w: nat): (bits: seq<bool>)
    ensures |bits| == w
  {
    seq(w, i requires 0 <= i < w => BitAt(x, w - 1 - i))
  }

  /** A message of whole bytes and the upper n bits of one more. */
  function Message(bytes: seq<Byte>, ub: Byte, n: nat): (bits: seq<bool>)
    requires n < 8
    ensures |bits| == 8 * |bytes| + n
  {
    BitsOf(bytes) + ub[..n]
  }

  /** A one, zeros, a one for BLAKE-512 or a zero for BLAKE-384, and the length in 128 bits. */
  function Padded(message: seq<bool>, size: nat): seq<bool> {
    message + [true] + Zeros((894 - |message|) % 1024) + [size == 8] + NumberBits(|message|, 128)
  }

  function Compress<H>(e: Engine<H>, h: H, t: nat, block: seq<bool>): H {
    e.compress(h, t % TWO64, t / TWO64 % TWO64, block)
  }

  /** The counter for the block that ends at bit `end` of a padded message of `length` bits: the bits
    * of the message hashed so far, or zero when the block holds none. */
  function Counter(length: nat, end: nat): nat
    requires end >= 1024
  {
    if end - 1024 >= length then 0 else if end <= length then end else length
  }

  function Chain<H>(e: Engine<H>, padded: seq<bool>, length: nat): H
    decreases |padded|
  {
    if |padded| < 1024 then e.iv
    else
      var cut := |padded| - 1024;
      Compress(e, Chain(e, padded[..cut], length), Counter(length, |padded|), padded[cut..])
  }

  function Hash<H>(e: Engine<H>, message: seq<bool>, size: nat): seq<Byte> {
    e.encode(Chain(e, Padded(message, size), |message|), size)
  }

  // ---------------------------------------------------------------- running the counter

  /** Whole blocks of bytes, with the counter advanced before each one from `t` on. */
  function Run<H>(e: Engine<H>, h: H, t: nat, bytes: seq<Byte>): H
    decreases |bytes|
  {
    if |bytes| < 128 then h
    else
      var cut := |bytes| - 128;
      Compress(e, Run(e, h, t, bytes[..cut]), (t + 8 * |bytes|) % TWO128, BitsOf(bytes[cut..]))
  }

  lemma RunNext<H>(e: Engine<H>, h: H, t: nat, bytes: seq<Byte>, block: seq<Byte>)
    requires |block| == 128
    ensures Run(e, h, t, bytes + block)
      == Compress(e, Run(e, h, t, bytes), (t + 8 * |bytes + block|) % TWO128, BitsOf(block))
  {
    var b := bytes + block;
    assert b[..|b| - 128] == bytes && b[|b| - 128..] == block;
  }

  /** A counter that wraps at 2^128 looks the same to the compression function. */
  lemma CompressWraps<H>(e: Engine<H>, h: H, t: nat, block: seq<bool>)
    ensures Compress(e, h, t % TWO128, block) == Compress(e, h, t, block)
  {
    WordsOf(t);
  }

  lemma WordsOf(t: nat)
    ensures t % TWO128 % TWO64 == t % TWO64
    ensures t % TWO128 / TWO64 % TWO64 == t / TWO64 % TWO64
  {
    var q, r := t / TWO128, t % TWO128;
    var r1, r0 := r / TWO64, r % TWO64;
    Quotient(t, TWO64, q * TWO64 + r1, r0);
    Quotient(q * TWO64 + r1, TWO64, q, r1);
    Quotient(r, TWO64, r1, r0);
  }

  /** The plain hash on blocks that hold nothing but message is a run from zero. */
  lemma {:induction false} ChainIsRun<H>(e: Engine<H>, bytes: seq<Byte>, length: nat)
    requires |bytes| % 128 == 0 && 8 * |bytes| <= length
    ensures Chain(e, BitsOf(bytes), length) == Run(e, e.iv, 0, bytes)
    decreases |bytes|
  {
    if |bytes| >= 128 {
      var front, block := bytes[..|bytes| - 128], bytes[|bytes| - 128..];
      assert bytes == front + block;
      ChainIsRun(e, front, length);
      ChainNext(e, front, block, length);
      RunNext(e, e.iv, 0, front, block);
      CompressWraps(e, Run(e, e.iv, 0, front), 8 * |bytes|, BitsOf(block));
    }
  }

  lemma ChainNext<H>(e: Engine<H>, bytes: seq<Byte>, block: seq<Byte>, length: nat)
    requires |block| == 128
    ensures Chain(e, BitsOf(bytes + block), length)
      == Compress(e, Chain(e, BitsOf(bytes), length), Counter(length, 8 * |bytes| + 1024), BitsOf(block))
  {
    BitsOfJoin(bytes, block);
    var p, q := BitsOf(bytes), BitsOf(block);
    assert (p + q)[..|p|] == p && (p + q)[|p|..] == q;
  }

  // ---------------------------------------------------------------- the two-word counter

  function Total(t0: nat, t1: nat): nat { t1 * TWO64 + t0 }

  /** What each full block does to the counter: add 1024 to the low word and carry. */
  function Advance(t0: nat, t1: nat): (nat, nat) {
    var low := (t0 + 1024) % TWO64;
    (low, if low < 1024 then (t1 + 1) % TWO64 else t1)
  }

  lemma AdvanceCounts(t0: nat, t1: nat)
    requires t0 < TWO64 && t1 < TWO64
    ensures Advance(t0, t1).0 < TWO64 && Advance(t0, t1).1 < TWO64
    ensures Total(Advance(t0, t1).0, Advance(t0, t1).1) == (Total(t0, t1) + 1024) % TWO128
  {
    var (u0, u1) := Advance(t0, t1);
    if t0 + 1024 < TWO64 {
      assert u0 == t0 + 1024;
      Small(Total(u0, u1));
    } else {
      assert u0 == t0 + 1024 - TWO64;
      if t1 + 1 < TWO64 { Small(Total(u0, u1)); } else { Small(u0); Once(u0); }
    }
  }

  lemma Small(x: nat)
    requires x < TWO128
    ensures x % TWO128 == x
  {
  }

  lemma Once(x: nat)
    requires x < TWO128
    ensures (x + TWO128) % TWO128 == x
  {
  }

  /** How the last call sets the counter back, so that the next advance lands on the right number. */
  function SetBack(t0: nat, t1: nat, bitLen: nat): (nat, nat) {
    if bitLen == 0 then (TWO64 - 1024, TWO64 - 1)
    else if t0 == 0 then (TWO64 - 1024 + bitLen, (t1 + TWO64 - 1) % TWO64)
    else ((t0 + TWO64 - (1024 - bitLen)) % TWO64, t1)
  }

  /** After the borrow, one advance gives the number of message bits, or zero for pure padding. */
  lemma SetBackThenAdvance(t0: nat, t1: nat, bitLen: nat)
    requires t0 < TWO64 && t1 < TWO64 && t0 % 1024 == 0 && bitLen < 1024
    ensures var (s0, s1) := SetBack(t0, t1, bitLen);
      s0 < TWO64 && s1 < TWO64 && Advance(s0, s1) == if bitLen == 0 then (0, 0) else (t0 + bitLen, t1)
  {
    assert t0 > 0 ==> t0 >= 1024;
    assert t0 <= TWO64 - 1024;
  }

  // ---------------------------------------------------------------- the length field

  function Be64(x: nat): (b: seq<Byte>)
    ensures |b| == 8
  {
    seq(8, j requires 0 <= j < 8 => ByteBits(x, j))
  }

  function ByteBits(x: nat, j: nat): Byte
    requires j < 8
  {
    NumberBits(x, 64)[8 * j..8 * j + 8]
  }

  lemma Be64Bits(x: nat)
    ensures BitsOf(Be64(x)) == NumberBits(x, 64)
  {
    forall i | 0 <= i < 64 ensures BitsOf(Be64(x))[i] == NumberBits(x, 64)[i] {
      assert Be64(x)[i / 8][i % 8] == NumberBits(x, 64)[8 * (i / 8) + i % 8];
    }
  }

  lemma Power64()
    ensures Power2(64) == TWO64
  {
    assert Power2(4) == 16;
    PowerSum(4, 4);
    PowerSum(8, 8);
    PowerSum(16, 16);
    PowerSum(32, 32);
  }

  /** The two words of the counter, written one after the other, are the length in 128 bits. */
  lemma LengthField(length: nat, th: nat, tl: nat)
    requires th < TWO64 && tl < TWO64 && Total(tl, th) == length % TWO128
    ensures NumberBits(th, 64) + NumberBits(tl, 64) == NumberBits(length, 128)
  {
    var q := length / TWO128;
    assert length == q * TWO128 + Total(tl, th);
    forall i | 0 <= i < 128 ensures (NumberBits(th, 64) + NumberBits(tl, 64))[i] == NumberBits(length, 128)[i] {
      FieldBit(q, th, tl, 127 - i);
    }
  }

  lemma FieldBit(q: nat, th: nat, tl: nat, k: nat)
    requires th < TWO64 && tl < TWO64 && k < 128
    ensures BitAt(q * TWO128 + Total(tl, th), k) == if k < 64 then BitAt(tl, k) else BitAt(th, k - 64)
  {
    Power128();
    LowBit(q, Total(tl, th), 128, k);
    if k < 64 { LowTotal(th, tl, k); } else { HighBit(th, tl, k - 64); }
  }

  lemma Power128()
    ensures Power2(128) == TWO128
  {
    Power64();
    PowerSum(64, 64);
  }

  lemma LowTotal(th: nat, tl: nat, k: nat)
    requires tl < TWO64 && k < 64
    ensures BitAt(Total(tl, th), k) == BitAt(tl, k)
  {
    Power64();
    LowBit(th, tl, 64, k);
  }

  lemma HighBit(th: nat, tl: nat, k: nat)
    requires tl < TWO64
    ensures BitAt(Total(tl, th), 64 + k) == BitAt(th, k)
  {
    Power64();
    PowerSum(64, k);
    DivDiv(Total(tl, th), TWO64, Power2(k));
    Quotient(Total(tl, th), TWO64, th, tl);
  }

  // ---------------------------------------------------------------- what the last call feeds

  /** The byte that ends the message: its last n bits and a one. */
  function Stop(ub: Byte, n: nat): Byte
    requires n < 8
  {
    seq(8, i requires 0 <= i < 8 => if i < n then ub[i] else i == n)
  }

  /** A byte with its lowest bit set, for BLAKE-512. */
  function Mark(b: Byte, size: nat): Byte { if size == 8 then b[7 := true] else b }

  /** A block's bytes from `ptr` up to the length field. */
  function OneBlock(ptr: nat, ub: Byte, n: nat, size: nat): (b: seq<Byte>)
    requires 8 * ptr + n <= 894 && n < 8
    ensures |b| == 112 - ptr
  {
    seq(112 - ptr, k requires 0 <= k < 112 - ptr => OneByte(ptr, ub, n, size, k))
  }

  function OneByte(ptr: nat, ub: Byte, n: nat, size: nat, k: nat): Byte
    requires n < 8
  {
    var b := if k == 0 then Stop(ub, n) else ZeroByte();
    if ptr + k == 111 then Mark(b, size) else b
  }

  function StopBlock(ptr: nat, ub: Byte, n: nat): (b: seq<Byte>)
    requires ptr < 128 && n < 8
    ensures |b| == 128 - ptr
  {
    [Stop(ub, n)] + seq(127 - ptr, _ => ZeroByte())
  }

  function PadBlock(size: nat): (b: seq<Byte>)
    ensures |b| == 112
  {
    seq(112, k requires 0 <= k < 112 => PadByte(size, k))
  }

  function PadByte(size: nat, k: nat): Byte { if k == 111 then Mark(ZeroByte(), size) else ZeroByte() }

  lemma OneBlockBits(ptr: nat, ub: Byte, n: nat, size: nat)
    requires 8 * ptr + n <= 894 && n < 8
    ensures BitsOf(OneBlock(ptr, ub, n, size)) == ub[..n] + [true] + Zeros(894 - 8 * ptr - n) + [size == 8]
  {
    var b := OneBlock(ptr, ub, n, size);
    var p := ub[..n] + [true] + Zeros(894 - 8 * ptr - n) + [size == 8];
    assert |p| == 8 * (112 - ptr);
    forall i | 0 <= i < |p| ensures BitsOf(b)[i] == p[i] {}
  }

  lemma TwoBlockBits(ptr: nat, ub: Byte, n: nat, size: nat)
    requires ptr < 128 && n < 8
    ensures BitsOf(StopBlock(ptr, ub, n)) == ub[..n] + [true] + Zeros(1023 - 8 * ptr - n)
    ensures BitsOf(PadBlock(size)) == Zeros(895) + [size == 8]
  {
    var b, p := StopBlock(ptr, ub, n), ub[..n] + [true] + Zeros(1023 - 8 * ptr - n);
    assert |p| == 8 * (128 - ptr);
    forall i | 0 <= i < |p| ensures BitsOf(b)[i] == p[i] {}
    var c, q := PadBlock(size), Zeros(895) + [size == 8];
    forall i | 0 <= i < |q| ensures BitsOf(c)[i] == q[i] {}
  }

  /** Everything the last call feeds, after `ptr` pending bytes. */
  function LastBytes(ptr: nat, ub: Byte, n: nat, size: nat, th: nat, tl: nat): (b: seq<Byte>)
    requires ptr < 128 && n < 8
  {
    (if 8 * ptr + n <= 894 then OneBlock(ptr, ub, n, size)
      else StopBlock(ptr, ub, n) + PadBlock(size)) + Be64(th) + Be64(tl)
  }

  /** It completes the message to the padded message, which ends on a block. */
  lemma LastCompletes(done: seq<Byte>, tail: seq<Byte>, ub: Byte, n: nat, size: nat, th: nat, tl: nat)
    requires |done| % 128 == 0 && |tail| < 128 && n < 8 && th < TWO64 && tl < TWO64
    requires Total(tl, th) == (8 * |done + tail| + n) % TWO128
    ensures BitsOf(done + tail + LastBytes(|tail|, ub, n, size, th, tl)) == Padded(Message(done + tail, ub, n), size)
  {
    var fed, ptr := done + tail, |tail|;
    var length := 8 * |fed| + n;
    var zeros := Zeros((894 - length) % 1024);
    FillLength(|done|, ptr, n);
    LengthField(length, th, tl);
    LastBits(ptr, ub, n, size, th, tl, zeros);
    PaddedBits(fed, LastBytes(ptr, ub, n, size, th, tl), ub, n, size, zeros, NumberBits(length, 128));
  }

  lemma PaddedBits(fed: seq<Byte>, last: seq<Byte>, ub: Byte, n: nat, size: nat, zeros: seq<bool>, field: seq<bool>)
    requires n < 8 && BitsOf(last) == ub[..n] + [true] + zeros + [size == 8] + field
    requires zeros == Zeros((894 - (8 * |fed| + n)) % 1024) && field == NumberBits(8 * |fed| + n, 128)
    ensures BitsOf(fed + last) == Padded(Message(fed, ub, n), size)
  {
    BitsOfJoin(fed, last);
    Regroup(BitsOf(fed), ub[..n], [true], zeros, [size == 8], field);
  }

  lemma LastBits(ptr: nat, ub: Byte, n: nat, size: nat, th: nat, tl: nat, zeros: seq<bool>)
    requires ptr < 128 && n < 8 && th < TWO64 && tl < TWO64
    requires zeros == Zeros(if 8 * ptr + n <= 894 then 894 - 8 * ptr - n else 1918 - 8 * ptr - n)
    ensures BitsOf(LastBytes(ptr, ub, n, size, th, tl))
         == ub[..n] + [true] + zeros + [size == 8] + (NumberBits(th, 64) + NumberBits(tl, 64))
  {
    Be64Bits(th);
    Be64Bits(tl);
    var field := Be64(th) + Be64(tl);
    BitsOfJoin(Be64(th), Be64(tl));
    var first := if 8 * ptr + n <= 894 then OneBlock(ptr, ub, n, size) else StopBlock(ptr, ub, n) + PadBlock(size);
    FirstBits(ptr, ub, n, size, zeros, first);
    assert LastBytes(ptr, ub, n, size, th, tl) == first + field;
    BitsOfJoin(first, field);
  }

  lemma FirstBits(ptr: nat, ub: Byte, n: nat, size: nat, zeros: seq<bool>, first: seq<Byte>)
    requires ptr < 128 && n < 8
    requires zeros == Zeros(if 8 * ptr + n <= 894 then 894 - 8 * ptr - n else 1918 - 8 * ptr - n)
    requires first == if 8 * ptr + n <= 894 then OneBlock(ptr, ub, n, size) else StopBlock(ptr, ub, n) + PadBlock(size)
    ensures BitsOf(first) == ub[..n] + [true] + zeros + [size == 8]
  {
    if 8 * ptr + n <= 894 {
      OneBlockBits(ptr, ub, n, size);
    } else {
      TwoBlockBits(ptr, ub, n, size);
      BitsOfJoin(StopBlock(ptr, ub, n), PadBlock(size));
      assert zeros == Zeros(1023 - 8 * ptr - n) + Zeros(895);
    }
  }

  lemma FillLength(done: nat, ptr: nat, n: nat)
    requires done % 128 == 0 && ptr < 128 && n < 8
    ensures (894 - (8 * (done + ptr) + n)) % 1024 ==
      if 8 * ptr + n <= 894 then 894 - 8 * ptr - n else 1918 - 8 * ptr - n
  {
  }

  lemma Regroup<T>(a: seq<T>, b: seq<T>, c: seq<T>, d: seq<T>, x: seq<T>, y: seq<T>)
    ensures a + (b + c + d + x + y) == a + b + c + d + x + y
  {
  }

  // ---------------------------------------------------------------- the engine

  /** The counter and the chain value are those of the blocks compressed since they were `base` and
    * `start`. A proof that needs this mentions `Look`; the buffering code never unfolds it. */
  ghost predicate Stands<H>(e: Engine<H>, h: H, t0: nat, t1: nat, start: H, base: nat, done: seq<Byte>) {
    forall k: nat :: Look(k) ==>
      && t0 < TWO64 && t1 < TWO64
      && Total(t0, t1) == (base + 8 * |done|) % TWO128
      && h == Run(e, start, base, done)
  }

  /** The counter is set so that it comes out right for the last block of the message. */
  ghost predicate Closing<H>(e: Engine<H>, h: H, base: nat, ptr: nat, n: nat, th: nat, tl: nat, blocks: seq<Byte>) {
    forall k: nat :: Look(k) ==>
      && h == Run(e, e.iv, 0, blocks)
      && th < TWO64 && tl < TWO64 && Total(tl, th) == (8 * |blocks| + (8 * ptr + n)) % TWO128
      && (base + 1024) % TWO128 == if 8 * ptr + n == 0 then 0 else Total(tl, th)
  }

  ghost predicate Closed<H>(e: Engine<H>, h: H, message: seq<bool>, size: nat) {
    forall k: nat :: Look(k) ==> h == Chain(e, Padded(message, size), |message|)
  }

  lemma StandsNext<H>(e: Engine<H>, h: H, t0: nat, t1: nat, start: H, base: nat, done: seq<Byte>, block: seq<Byte>)
    requires Stands(e, h, t0, t1, start, base, done) && |block| == 128
    ensures
      var (u0, u1) := Advance(t0, t1);
      Stands(e, e.compress(h, u0, u1, BitsOf(block)), u0, u1, start, base, done + block)
  {
    assert Look(0);
    var (u0, u1) := Advance(t0, t1);
    AdvanceCounts(t0, t1);
    Wrap(base, 8 * |done|, 1024);
    TotalWords(u0, u1);
    RunNext(e, start, base, done, block);
  }

  class Context<!H> {
    const e: Engine<H>
    var h: H
    var T0: nat
    var T1: nat
    const buf: array<Byte>
    var ptr: nat
    /** The blocks compressed since the chain value was `start` and the counter was `base`. */
    ghost var done: seq<Byte>
    ghost var start: H
    ghost var base: nat

    ghost predicate Consistent()
      reads this
    {
      && buf.Length == 128 && ptr < 128 && |done| % 128 == 0
      && Stands(e, h, T0, T1, start, base, done)
    }

    /** Between calls the blocks are those of the message so far. */
    ghost predicate Valid()
      reads this
    {
      Consistent() && start == e.iv && base == 0
    }

    ghost function Fed(): seq<Byte>
      reads this, buf
      requires ptr <= buf.Length
    {
      done + buf[..ptr]
    }

    constructor (e: Engine<H>)
      ensures Valid() && Fed() == [] && this.e == e && fresh(buf)
    {
      this.e := e;
      h, T0, T1, ptr := e.iv, 0, 0, 0;
      buf := new Byte[128](_ => seq(8, _ => false));
      done, start, base := [], e.iv, 0;
    }

    /** Copies bytes behind those that wait. */
    method Fill(data: seq<Byte>)
      requires ptr + |data| <= buf.Length
      modifies this`ptr, buf
      ensures ptr == old(ptr) + |data| && buf[..ptr] == old(buf[..ptr]) + data
    {
      forall i | 0 <= i < |data| { buf[ptr + i] := data[i]; }
      ptr := ptr + |data|;
    }

    /** Advances the counter over a full buffer and compresses it. */
    method CompressBuffer()
      requires buf.Length == 128 && |done| % 128 == 0 && Stands(e, h, T0, T1, start, base, done)
      modifies this`T0, this`T1, this`h, this`done
      ensures |done| % 128 == 0 && Stands(e, h, T0, T1, start, base, done) && done == old(done) + buf[..]
    {
      StandsNext(e, h, T0, T1, start, base, done, buf[..]);
      T0 := (T0 + 1024) % TWO64;
      if T0 < 1024 { T1 := (T1 + 1) % TWO64; }
      h := e.compress(h, T0, T1, BitsOf(buf[..]));
      done := done + buf[..];
    }

    method Update(data: seq<Byte>)
      requires Consistent()
      modifies this`h, this`T0, this`T1, this`ptr, this`done, buf
      ensures Consistent() && Fed() == old(Fed()) + data
    {
      if |data| < 128 - ptr {
        Fill(data);
        return;
      }
      var rest := data;
      while |rest| > 0
        invariant Consistent() && Fed() + rest == old(Fed()) + data
      {
        var clen := if 128 - ptr > |rest| then |rest| else 128 - ptr;
        Feed(rest[..clen]);
        assert rest == rest[..clen] + rest[clen..];
        rest := rest[clen..];
      }
    }

    method Feed(data: seq<Byte>)
      requires Consistent() && |data| <= 128 - ptr
      modifies this`h, this`T0, this`T1, this`ptr, this`done, buf
      ensures Consistent() && Fed() == old(Fed()) + data
    {
      ghost var before, tail := done, buf[..ptr];
      Fill(data);
      assert before + (tail + data) == before + tail + data;
      if ptr == 128 {
        assert buf[..] == buf[..128];
        CompressBuffer();
        ptr := 0;
      }
    }

    /** Ends the message with the upper n bits of `ub`. */
    method Close(ub: Byte, n: nat, size: nat) returns (dst: seq<Byte>)
      requires Valid() && n < 8
      modifies this, buf
      ensures dst == Hash(e, Message(old(Fed()), ub, n), size)
    {
      ghost var blocks := done;
      var th, tl := Prepare(n);
      if 8 * ptr + n <= 894 {
        CloseOne(ub, n, size, th, tl, blocks);
      } else {
        CloseTwo(ub, n, size, th, tl, blocks);
      }
      assert Look(0);
      dst := e.encode(h, size);
    }

    /** Takes the length down and sets the counter back. */
    method Prepare(n: nat) returns (th: nat, tl: nat)
      requires Valid() && n < 8
      modifies this`T0, this`T1, this`done, this`start, this`base
      ensures Consistent() && done == [] && |old(done)| % 128 == 0
      ensures Closing(e, h, base, ptr, n, th, tl, old(done))
    {
      var bitLen := 8 * ptr + n;
      LengthCounted(e, h, T0, T1, done, bitLen);
      StandsRun(e, h, T0, T1, e.iv, 0, done);
      tl, th := T0 + bitLen, T1;
      SetCounterBack(bitLen);
    }

    method CloseOne(ub: Byte, n: nat, size: nat, th: nat, tl: nat, ghost blocks: seq<Byte>)
      requires Consistent() && done == [] && n < 8 && |blocks| % 128 == 0 && 8 * ptr + n <= 894
      requires Closing(e, h, base, ptr, n, th, tl, blocks)
      modifies this, buf
      ensures Closed(e, h, Message(blocks + old(buf[..ptr]), ub, n), size)
    {
      ClosedByOne(e, h, base, blocks, buf[..ptr], ub, n, size, th, tl);
      Single(OneBlock(ptr, ub, n, size) + Be64(th) + Be64(tl));
    }

    method CloseTwo(ub: Byte, n: nat, size: nat, th: nat, tl: nat, ghost blocks: seq<Byte>)
      requires Consistent() && done == [] && n < 8 && |blocks| % 128 == 0 && 8 * ptr + n > 894
      requires Closing(e, h, base, ptr, n, th, tl, blocks)
      modifies this, buf
      ensures Closed(e, h, Message(blocks + old(buf[..ptr]), ub, n), size)
    {
      ClosedByTwo(e, h, base, blocks, buf[..ptr], ub, n, size, th, tl);
      TwoBlocks(StopBlock(ptr, ub, n), PadBlock(size) + Be64(th) + Be64(tl));
    }

    method Single(bytes: seq<Byte>)
      requires Consistent() && done == [] && ptr + |bytes| == 128
      modifies this, buf
      ensures h == Compress(e, old(h), (old(base) + 1024) % TWO128, BitsOf(old(buf[..ptr]) + bytes))
    {
      Final(bytes);
    }

    method TwoBlocks(first: seq<Byte>, second: seq<Byte>)
      requires Consistent() && done == [] && ptr + |first| == 128 && |second| == 128
      modifies this, buf
      ensures
        var t := (old(base) + 1024) % TWO128;
        h == Compress(e, Compress(e, old(h), t, BitsOf(old(buf[..ptr]) + first)), 0, BitsOf(second))
    {
      Final(first);
      T0, T1 := TWO64 - 1024, TWO64 - 1;
      Rebase();
      FinalBlock(second);
    }

    /** The block after the end of the message, for which the counter comes out as zero. */
    method FinalBlock(block: seq<Byte>)
      requires Consistent() && done == [] && ptr == 0 && |block| == 128 && base == TWO128 - 1024
      modifies this`h, this`T0, this`T1, this`ptr, this`done, buf
      ensures h == Compress(e, old(h), 0, BitsOf(block))
    {
      assert buf[..ptr] + block == block;
      Final(block);
    }

    /** The counter as the last call sets it, and the ghost state to match. */
    method SetCounterBack(bitLen: nat)
      requires Consistent() && bitLen < 1024 && T0 % 1024 == 0
      modifies this`T0, this`T1, this`done, this`start, this`base
      ensures Consistent() && done == [] && start == h
      ensures h == old(h) && (base + 1024) % TWO128 == if bitLen == 0 then 0 else Total(old(T0) + bitLen, old(T1))
    {
      assert Look(0);
      SetBackThenAdvance(T0, T1, bitLen);
      if bitLen == 0 {
        T0 := TWO64 - 1024;
        T1 := TWO64 - 1;
      } else if T0 == 0 {
        T0 := TWO64 - 1024 + bitLen;
        T1 := (T1 + TWO64 - 1) % TWO64;
      } else {
        T0 := (T0 + TWO64 - (1024 - bitLen)) % TWO64;
      }
      AdvanceCounts(T0, T1);
      Rebase();
    }

    ghost method Rebase()
      requires buf.Length == 128 && ptr < 128 && T0 < TWO64 && T1 < TWO64
      modifies this`done, this`start, this`base
      ensures Consistent() && done == [] && start == h && base == Total(T0, T1)
    {
      done, start, base := [], h, Total(T0, T1);
      Small(base);
    }

    /** Feeds the rest of exactly one block. */
    method Final(bytes: seq<Byte>)
      requires Consistent() && done == [] && ptr + |bytes| == 128
      modifies this`h, this`T0, this`T1, this`ptr, this`done, buf
      ensures ptr == 0
      ensures h == Compress(e, old(h), (base + 1024) % TWO128, BitsOf(old(buf[..ptr]) + bytes))
    {
      ghost var block := buf[..ptr] + bytes;
      assert Fed() == buf[..ptr];
      assert h == start by { assert Look(0); }
      Update(bytes);
      assert done == block by { assert done + buf[..ptr] == block; }
      assert Look(0);
      RunNext(e, start, base, [], block);
      assert [] + block == block;
    }
  }

  lemma Wrap(t: nat, a: nat, b: nat)
    ensures ((t + a) % TWO128 + b) % TWO128 == (t + (a + b)) % TWO128
  {
  }

  lemma TotalWords(t0: nat, t1: nat)
    requires t0 < TWO64 && t1 < TWO64
    ensures Total(t0, t1) % TWO64 == t0 && Total(t0, t1) / TWO64 % TWO64 == t1
  {
  }

  lemma {:induction false} LengthCounted<H>(e: Engine<H>, h: H, t0: nat, t1: nat, blocks: seq<Byte>, bitLen: nat)
    requires Stands(e, h, t0, t1, e.iv, 0, blocks) && |blocks| % 128 == 0 && bitLen < 1024
    ensures t0 < TWO64 && t1 < TWO64 && t0 % 1024 == 0 && t0 + bitLen < TWO64
    ensures Total(t0 + bitLen, t1) == (8 * |blocks| + bitLen) % TWO128
  {
    StandsFacts(e, h, t0, t1, e.iv, 0, blocks);
    CountFacts(t0, t1, |blocks|, bitLen);
  }

  lemma StandsFacts<H>(e: Engine<H>, h: H, t0: nat, t1: nat, start: H, base: nat, done: seq<Byte>)
    requires Stands(e, h, t0, t1, start, base, done)
    ensures t0 < TWO64 && t1 < TWO64 && Total(t0, t1) == (base + 8 * |done|) % TWO128
  {
    assert Look(0);
  }

  lemma StandsRun<H>(e: Engine<H>, h: H, t0: nat, t1: nat, start: H, base: nat, done: seq<Byte>)
    requires Stands(e, h, t0, t1, start, base, done)
    ensures h == Run(e, start, base, done)
  {
    assert Look(0);
  }

  lemma CountFacts(t0: nat, t1: nat, count: nat, bitLen: nat)
    requires t0 < TWO64 && t1 < TWO64 && count % 128 == 0 && bitLen < 1024
    requires Total(t0, t1) == (0 + 8 * count) % TWO128
    ensures t0 % 1024 == 0 && t0 + bitLen < TWO64
    ensures Total(t0 + bitLen, t1) == (8 * count + bitLen) % TWO128
  {
    WholeBlocks(t0, t1, count);
    RoomBelow(t0, bitLen);
    MoreBits(t0, t1, 8 * count, bitLen);
  }

  lemma RoomBelow(t0: nat, bitLen: nat)
    requires t0 < TWO64 && t0 % 1024 == 0 && bitLen < 1024
    ensures t0 + bitLen < TWO64
  {
  }

  lemma MoreBits(t0: nat, t1: nat, bits: nat, more: nat)
    requires t1 < TWO64 && t0 + more < TWO64 && Total(t0, t1) == bits % TWO128
    ensures Total(t0 + more, t1) == (bits + more) % TWO128
  {
    var q := bits / TWO128;
    Quotient(bits + more, TWO128, q, Total(t0 + more, t1));
  }

  lemma WholeBlocks(t0: nat, t1: nat, count: nat)
    requires t0 < TWO64 && count % 128 == 0 && Total(t0, t1) == 8 * count % TWO128
    ensures t0 % 1024 == 0
  {
    var q, c := 8 * count / TWO128, count / 128;
    BlockMultiple(t0, c - q * 0x40_0000_0000_0000_0000_0000_0000_0000 - t1 * 0x40_0000_0000_0000);
  }

  lemma BlockMultiple(x: int, k: int)
    requires x == 1024 * k
    ensures x % 1024 == 0
  {
  }

  /** The block that holds the end of the message. */
  lemma LastMessageBlock<H>(e: Engine<H>, blocks: seq<Byte>, block: seq<Byte>, length: nat, t: nat)
    requires |blocks| % 128 == 0 && |block| == 128 && 8 * |blocks| <= length < 8 * |blocks| + 1024
    requires t == if length == 8 * |blocks| then 0 else length % TWO128
    ensures Chain(e, BitsOf(blocks + block), length) == Compress(e, Run(e, e.iv, 0, blocks), t, BitsOf(block))
  {
    ChainNext(e, blocks, block, length);
    ChainIsRun(e, blocks, length);
    CompressWraps(e, Run(e, e.iv, 0, blocks), length, BitsOf(block));
  }

  lemma ClosedByOne<H>(e: Engine<H>, h: H, base: nat, blocks: seq<Byte>, tail: seq<Byte>, ub: Byte, n: nat,
                       size: nat, th: nat, tl: nat)
    requires |blocks| % 128 == 0 && |tail| < 128 && n < 8 && 8 * |tail| + n <= 894
    requires Closing(e, h, base, |tail|, n, th, tl, blocks)
    ensures
      var block := tail + (OneBlock(|tail|, ub, n, size) + Be64(th) + Be64(tl));
      Closed(e, Compress(e, h, (base + 1024) % TWO128, BitsOf(block)), Message(blocks + tail, ub, n), size)
  {
    assert Look(0);
    var last := OneBlock(|tail|, ub, n, size) + Be64(th) + Be64(tl);
    Fits(|blocks|, |tail|, n);
    LastCompletes(blocks, tail, ub, n, size, th, tl);
    assert blocks + tail + last == blocks + (tail + last);
    LastMessageBlock(e, blocks, tail + last, 8 * |blocks + tail| + n, (base + 1024) % TWO128);
  }

  lemma ClosedByTwo<H>(e: Engine<H>, h: H, base: nat, blocks: seq<Byte>, tail: seq<Byte>, ub: Byte, n: nat,
                       size: nat, th: nat, tl: nat)
    requires |blocks| % 128 == 0 && |tail| < 128 && n < 8 && 8 * |tail| + n > 894
    requires Closing(e, h, base, |tail|, n, th, tl, blocks)
    ensures
      var h1 := Compress(e, h, (base + 1024) % TWO128, BitsOf(tail + StopBlock(|tail|, ub, n)));
      Closed(e, Compress(e, h1, 0, BitsOf(PadBlock(size) + Be64(th) + Be64(tl))), Message(blocks + tail, ub, n), size)
  {
    assert Look(0);
    var first, second := tail + StopBlock(|tail|, ub, n), PadBlock(size) + Be64(th) + Be64(tl);
    var length := 8 * |blocks + tail| + n;
    Fits(|blocks|, |tail|, n);
    PaddedByTwo(blocks, tail, ub, n, size, th, tl);
    LastMessageBlock(e, blocks, first, length, (base + 1024) % TWO128);
    ChainNext(e, blocks + first, second, length);
  }

  lemma PaddedByTwo(blocks: seq<Byte>, tail: seq<Byte>, ub: Byte, n: nat, size: nat, th: nat, tl: nat)
    requires |blocks| % 128 == 0 && |tail| < 128 && n < 8 && 8 * |tail| + n > 894 && th < TWO64 && tl < TWO64
    requires Total(tl, th) == (8 * |blocks + tail| + n) % TWO128
    ensures BitsOf(blocks + (tail + StopBlock(|tail|, ub, n)) + (PadBlock(size) + Be64(th) + Be64(tl)))
      == Padded(Message(blocks + tail, ub, n), size)
  {
    LastCompletes(blocks, tail, ub, n, size, th, tl);
    Grouped(blocks, tail, StopBlock(|tail|, ub, n), PadBlock(size), Be64(th), Be64(tl));
  }

  lemma Grouped<T>(a: seq<T>, b: seq<T>, c: seq<T>, d: seq<T>, x: seq<T>, y: seq<T>)
    ensures a + b + (c + d + x + y) == a + (b + c) + (d + x + y)
  {
  }

  lemma Fits(blocks: nat, tail: nat, n: nat)
    requires tail < 128 && n < 8
    ensures 8 * (blocks + tail) + n == 8 * blocks + (8 * tail + n) < 8 * blocks + 1024
  {
  }

  /** However a message is cut into pieces, empty ones included, the engine computes the plain hash. */
  method HashPieces<H>(e: Engine<H>, pieces: seq<seq<Byte>>, ub: Byte, n: nat, size: nat) returns (dst: seq<Byte>)
    requires n < 8
    ensures dst == Hash(e, Message(Flat(pieces), ub, n), size)
  {
    var sc := new Context(e);
    var i := 0;
    while i < |pieces|
      invariant 0 <= i <= |pieces| && sc.Valid() && sc.Fed() == Flat(pieces[..i]) && fresh(sc) && fresh(sc.buf)
    {
      FlatNext(pieces, i);
      sc.Update(pieces[i]);
      i := i + 1;
    }
    FlatAll(pieces);
    dst := sc.Close(ub, n, size);
  }
}
