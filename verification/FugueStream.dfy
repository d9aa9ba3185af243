/** The streaming Fugue-512 engine (src/fugue.c): words are taken in lazily, so that the last one is
  * still pending when the message ends, and the digest is that of the plain rounds on the padded
  * message.
  */
module FugueStream {
  import opened FugueRounds
  import opened Pieces
  import opened Numbers

  /** The word operations, the initial state and the coding of words: `push` shifts a byte in from the
    * right, `unpack` writes a word out. */
  datatype Engine<!W> = Engine(ops: Ops<W>, iv: seq<W>, zero: W, push: (W, bv8) -> W, unpack: W -> seq<bv8>)

  // ---------------------------------------------------------------- the plain hash

  function Pack<W>(e: Engine<W>, bytes: seq<bv8>): W {
    if bytes == [] then e.zero else e.push(Pack(e, bytes[..|bytes| - 1]), bytes[|bytes| - 1])
  }

  /** The state after whole words of four bytes. */
  function Absorb<W>(e: Engine<W>, bytes: seq<bv8>): (s: seq<W>)
    requires |e.iv| == 36
    ensures |s| == 36
    decreases |bytes|
  {
    if |bytes| < 4 then e.iv
    else Round(e.ops, Absorb(e, bytes[..|bytes| - 4]), Pack(e, bytes[|bytes| - 4..]))
  }

  function ZeroBytes(n: nat): seq<bv8> { seq(n, _ => 0) }

  /** The upper n bits of a byte. */
  function TopBits(ub: bv8, n: nat): bv8
    requires n < 8
  {
    ub & !(0xFF >> n)
  }

  function Power256(n: nat): (p: nat)
    ensures p > 0
  {
    if n == 0 then 1 else 256 * Power256(n - 1)
  }

  function ByteAt(x: nat, i: nat): bv8 { (x / Power256(i) % 256) as bv8 }

  /** A number in eight bytes, the most significant first. */
  function Length64(x: nat): (b: seq<bv8>)
    ensures |b| == 8
  {
    seq(8, i requires 0 <= i < 8 => ByteAt(x, 7 - i))
  }

  /** The number that base 256 digits stand for, the most significant first. */
  ghost function Base256(digits: seq<nat>): nat {
    if digits == [] then 0 else 256 * Base256(digits[..|digits| - 1]) + digits[|digits| - 1]
  }

  /** The eight bytes are the digits of the number, modulo 2^64. */
  lemma LengthBytes(x: nat) returns (digits: seq<nat>)
    ensures |digits| == 8 && Base256(digits) == x % TWO64
    ensures forall i :: 0 <= i < 8 ==> digits[i] < 256 && Length64(x)[i] == digits[i] as bv8
  {
    digits := seq(8, i requires 0 <= i < 8 => x / Power256(7 - i) % 256);
    AllBytes(x, digits);
  }

  lemma AllBytes(x: nat, digits: seq<nat>)
    requires |digits| == 8 && forall i :: 0 <= i < 8 ==> digits[i] == x / Power256(7 - i) % 256
    ensures Base256(digits) == x % TWO64
  {
    LeadingBytes(x, digits, 8);
    assert digits[..8] == digits;
    EightBytes();
  }

  lemma EightBytes()
    ensures Power256(0) == 1 && Power256(8) == TWO64
  {
    assert Power256(2) == 0x10000;
    assert Power256(4) == 0x1_0000_0000;
    assert Power256(6) == 0x1_0000_0000_0000;
  }

  lemma {:induction false} LeadingBytes(x: nat, digits: seq<nat>, k: nat)
    requires k <= 8 == |digits| && forall i :: 0 <= i < 8 ==> digits[i] == x / Power256(7 - i) % 256
    ensures Base256(digits[..k]) == x / Power256(8 - k) % Power256(k)
  {
    if k > 0 {
      LeadingBytes(x, digits, k - 1);
      assert digits[..k][..k - 1] == digits[..k - 1];
      NextByte(x, Power256(8 - k), Power256(k - 1));
    }
  }

  /** A byte more of a number. */
  lemma NextByte(x: nat, p: nat, q: nat)
    requires p > 0 && q > 0
    ensures 256 * (x / (256 * p) % q) + x / p % 256 == x / p % (256 * q)
  {
    var y := x / p;
    DivDiv(x, p, 256);
    assert x / (256 * p) == y / 256;
    var z := y / 256;
    Recombine(y, z, q, z / q, z % q);
  }

  lemma Recombine(y: nat, z: nat, q: nat, a: nat, r: nat)
    requires z == y / 256 && z == q * a + r && r < q
    ensures y % (256 * q) == 256 * r + y % 256
  {
    assert 256 * (q * a) == 256 * q * a;
    LessProduct(256, q, y % 256, r);
    Quotient(y, 256 * q, a, 256 * r + y % 256);
  }

  /** The message, its extra bits, zeros up to a whole word, and its length in bits. */
  function Padded(message: seq<bv8>, ub: bv8, n: nat): seq<bv8>
    requires n < 8
  {
    var m := message + if n > 0 then [TopBits(ub, n)] else [];
    m + ZeroBytes((4 - |m| % 4) % 4) + Length64((8 * |message| + n) % TWO64)
  }

  function Turns<W>(f: Ops<W>, s: seq<W>, n: nat): (r: seq<W>)
    requires |s| == 36
    ensures |r| == 36
    decreases n, |s|
  {
    if n == 0 then s else Turn(f, Turns(f, s, n - 1))
  }

  function Spread<W>(f: Ops<W>, s: seq<W>, i: nat, j: nat, k: nat): (r: seq<W>)
    requires |s| == 36 && 4 < i < j < k < 36
    ensures |r| == 36
  {
    s[4 := f.xor(s[4], s[0])][i := f.xor(s[i], s[0])][j := f.xor(s[j], s[0])][k := f.xor(s[k], s[0])]
  }

  function Quarter<W>(f: Ops<W>, s: seq<W>, i: nat, j: nat, k: nat, n: nat): (r: seq<W>)
    requires |s| == 36 && 4 < i < j < k < 36 && n <= 36
    ensures |r| == 36
  {
    Mix(f, Ror(Spread(f, s, i, j, k), n))
  }

  function Last<W>(f: Ops<W>, s: seq<W>, n: nat): (r: seq<W>)
    requires |s| == 36
    ensures |r| == 36
    decreases n, |s|
  {
    if n == 0 then s
    else
      var a := Quarter(f, Last(f, s, n - 1), 9, 18, 27, 9);
      var b := Quarter(f, a, 10, 18, 27, 9);
      var c := Quarter(f, b, 10, 19, 27, 9);
      Quarter(f, c, 10, 19, 28, 8)
  }

  /** Four words in a row. */
  function Group<W>(e: Engine<W>, s: seq<W>, i: nat): seq<bv8>
    requires |s| == 36 && i + 4 <= 36
  {
    e.unpack(s[i]) + e.unpack(s[i + 1]) + e.unpack(s[i + 2]) + e.unpack(s[i + 3])
  }

  function Output<W>(e: Engine<W>, s: seq<W>): seq<bv8>
    requires |s| == 36
  {
    Group(e, s, 1) + Group(e, s, 9) + Group(e, s, 18) + Group(e, s, 27)
  }

  /** The digest is four groups of four words, one from each quarter of the state: from the second word on in
    * the first quarter, and from the first word on in the others. */
  lemma OutputGroups<W>(e: Engine<W>, s: seq<W>)
    requires |s| == 36 && forall i :: 0 <= i < 36 ==> |e.unpack(s[i])| == 4
    ensures |Output(e, s)| == 64
    ensures Output(e, s)[..16] == Group(e, s, 1) && Output(e, s)[16..32] == Group(e, s, 9)
    ensures Output(e, s)[32..48] == Group(e, s, 18) && Output(e, s)[48..] == Group(e, s, 27)
  {
    Parts(Group(e, s, 1), Group(e, s, 9), Group(e, s, 18), Group(e, s, 27));
  }

  lemma Parts<T>(a: seq<T>, b: seq<T>, c: seq<T>, d: seq<T>)
    requires |a| == |b| == |c| == |d| == 16
    ensures
      var w := a + b + c + d;
      |w| == 64 && w[..16] == a && w[16..32] == b && w[32..48] == c && w[48..] == d
  {
  }

  lemma Joined<T>(x: seq<T>, a: seq<T>, b: seq<T>, c: seq<T>, d: seq<T>)
    ensures x + (a + b + c + d) == x + a + b + c + d
  {
  }

  /** Word r of a group is word i + r of the state. */
  lemma GroupWord<W>(e: Engine<W>, s: seq<W>, i: nat, r: nat)
    requires |s| == 36 && i + 4 <= 36 && r < 4 && forall k :: 0 <= k < 36 ==> |e.unpack(s[k])| == 4
    ensures |Group(e, s, i)| == 16 && Group(e, s, i)[4 * r..4 * r + 4] == e.unpack(s[i + r])
  {
    FourWords(e.unpack(s[i]), e.unpack(s[i + 1]), e.unpack(s[i + 2]), e.unpack(s[i + 3]));
  }

  lemma FourWords<T>(a: seq<T>, b: seq<T>, c: seq<T>, d: seq<T>)
    requires |a| == |b| == |c| == |d| == 4
    ensures
      var w := a + b + c + d;
      |w| == 16 && w[0..4] == a && w[4..8] == b && w[8..12] == c && w[12..16] == d
  {
  }

  function Squeeze<W>(e: Engine<W>, s: seq<W>): seq<bv8>
    requires |s| == 36
  {
    Output(e, Spread(e.ops, Last(e.ops, Turns(e.ops, s, 32), 13), 9, 18, 27))
  }

  /** Fugue-512 of a message of whole bytes and n more bits, on plain rounds. */
  function Fugue<W>(e: Engine<W>, message: seq<bv8>, ub: bv8, n: nat): seq<bv8>
    requires |e.iv| == 36 && n < 8
  {
    Squeeze(e, Absorb(e, Padded(message, ub, n)))
  }

  /** The engine on 32-bit words: twenty zero words and the sixteen of the initial value. */
  function Words32(mix: (bv32, bv32, bv32, bv32) -> (bv32, bv32, bv32, bv32), iv: seq<bv32>): (e: Engine<bv32>)
    requires |iv| == 16
    ensures |e.iv| == 36
  {
    Engine(Ops((a, b) => Xor32(a, b), mix), seq(20, _ => 0) + iv, 0, (p, b) => Push32(p, b), w => Unpack32(w))
  }

  function Xor32(a: bv32, b: bv32): bv32 { a ^ b }
  function Push32(p: bv32, b: bv8): bv32 { (p << 8) | b as bv32 }
  function Unpack32(w: bv32): seq<bv8> {
    [(w >> 24) as bv8, ((w >> 16) & 0xFF) as bv8, ((w >> 8) & 0xFF) as bv8, (w & 0xFF) as bv8]
  }

  /** On those words a message word is four bytes, the most significant first. */
  lemma FourBytes(mix: (bv32, bv32, bv32, bv32) -> (bv32, bv32, bv32, bv32), iv: seq<bv32>, a: bv8, b: bv8, c: bv8,
                  d: bv8)
    requires |iv| == 16
    ensures Pack(Words32(mix, iv), [a, b, c, d]) == (a as bv32 << 24) | (b as bv32 << 16) | (c as bv32 << 8) | d as bv32
    ensures Unpack32(Pack(Words32(mix, iv), [a, b, c, d])) == [a, b, c, d]
  {
    var e := Words32(mix, iv);
    assert [a, b, c, d][..3] == [a, b, c] && [a, b, c][..2] == [a, b] && [a, b][..1] == [a] && [a][..0] == [];
    assert Pack(e, [a]) == Push32(0, a);
    assert Pack(e, [a, b]) == Push32(Push32(0, a), b);
    assert Pack(e, [a, b, c]) == Push32(Push32(Push32(0, a), b), c);
    Shifted(a, b, c, d);
  }

  lemma Shifted(a: bv8, b: bv8, c: bv8, d: bv8)
    ensures
      var w := Push32(Push32(Push32(Push32(0, a), b), c), d);
      w == (a as bv32 << 24) | (b as bv32 << 16) | (c as bv32 << 8) | d as bv32 && Unpack32(w) == [a, b, c, d]
  {
  }

  // ---------------------------------------------------------------- what the last call feeds

  /** The bytes that the last call feeds when `plen` bytes are pending: `bits` is the counter, and
    * `junk` stands for the four bytes of the buffer that are never set. */
  function CloseBytes(plen: nat, ub: bv8, n: nat, bits: nat, junk: seq<bv8>): seq<bv8>
    requires plen <= 4 && n < 8
  {
    if plen == 0 && n == 0 then Length64(bits) + junk
    else if plen < 4 || n != 0 then
      var p := if plen == 4 then 0 else plen;
      [TopBits(ub, n)] + ZeroBytes(3 - p) + Length64(bits) + junk
    else Length64(bits) + junk
  }

  lemma TopOfNone(ub: bv8)
    ensures TopBits(ub, 0) == 0
  {
  }

  /** They complete the message to the padded message, with the junk behind it. */
  lemma CloseCompletes(done: seq<bv8>, tail: seq<bv8>, ub: bv8, n: nat, junk: seq<bv8>)
    requires |done| % 4 == 0 && |tail| <= 4 && n < 8
    ensures
      var fed := done + tail;
      fed + CloseBytes(|tail|, ub, n, (8 * |fed| + n) % TWO64, junk) == Padded(fed, ub, n) + junk
  {
    if n > 0 { CloseWithBits(done, tail, ub, n, junk); } else { CloseWithoutBits(done, tail, ub, junk); }
  }

  lemma CloseWithBits(done: seq<bv8>, tail: seq<bv8>, ub: bv8, n: nat, junk: seq<bv8>)
    requires |done| % 4 == 0 && |tail| <= 4 && 0 < n < 8
    ensures
      var fed := done + tail;
      fed + CloseBytes(|tail|, ub, n, (8 * |fed| + n) % TWO64, junk) == Padded(fed, ub, n) + junk
  {
    var fed := done + tail;
    var fill := if |tail| == 4 then 3 else 3 - |tail|;
    var top, zeros, count := TopBits(ub, n), ZeroBytes(fill), Length64((8 * |fed| + n) % TWO64);
    FillLength(|done|, |tail|);
    ExtraCompletes(fed, top, zeros, count, junk);
    assert Padded(fed, ub, n) == fed + [top] + zeros + count;
    assert CloseBytes(|tail|, ub, n, (8 * |fed| + n) % TWO64, junk) == [top] + zeros + count + junk;
  }

  lemma CloseWithoutBits(done: seq<bv8>, tail: seq<bv8>, ub: bv8, junk: seq<bv8>)
    requires |done| % 4 == 0 && |tail| <= 4
    ensures
      var fed := done + tail;
      fed + CloseBytes(|tail|, ub, 0, 8 * |fed| % TWO64, junk) == Padded(fed, ub, 0) + junk
  {
    var fed := done + tail;
    FillLength(|done|, |tail|);
    assert fed + [] == fed;
    var z := ZeroBytes((4 - |fed| % 4) % 4);
    if 0 < |tail| < 4 {
      TopOfNone(ub);
      assert [TopBits(ub, 0)] + ZeroBytes(3 - |tail|) == z;
    } else {
      assert z == [];
    }
    ZerosComplete(fed, z, Length64(8 * |fed| % TWO64), junk);
  }

  lemma FillLength(done: nat, tail: nat)
    requires done % 4 == 0 && tail <= 4
    ensures (4 - (done + tail) % 4) % 4 == if tail == 0 then 0 else 4 - tail
    ensures (4 - (done + tail + 1) % 4) % 4 == if tail == 4 then 3 else 3 - tail
  {
  }

  lemma ExtraCompletes<T>(fed: seq<T>, b: T, z: seq<T>, count: seq<T>, junk: seq<T>)
    ensures fed + ([b] + z + count + junk) == fed + [b] + z + count + junk
  {
  }

  lemma ZerosComplete<T>(fed: seq<T>, z: seq<T>, count: seq<T>, junk: seq<T>)
    ensures fed + (z + count + junk) == fed + z + count + junk
    ensures z == [] ==> fed + (count + junk) == fed + z + count + junk
  {
  }

  lemma PaddedLength(message: seq<bv8>, ub: bv8, n: nat)
    requires n < 8
    ensures |Padded(message, ub, n)| % 4 == 0
  {
    var m := message + if n > 0 then [TopBits(ub, n)] else [];
    RoundUp(|m|);
  }

  lemma RoundUp(n: nat)
    ensures (n + (4 - n % 4) % 4 + 8) % 4 == 0
  {
  }

  // ---------------------------------------------------------------- the engine

  /** How far the names are turned: twelve words back for each word taken in. */
  function Off(shift: nat): (off: nat)
    requires shift < 3
    ensures off < 36
  {
    if shift == 0 then 0 else if shift == 1 then 24 else 12
  }

  class Context<!W> {
    const e: Engine<W>
    const S: array<W>
    var partial: W
    var partialLen: nat
    var roundShift: nat
    var bitCount: nat
    ghost var done: seq<bv8>
    ghost var tail: seq<bv8>

    ghost predicate Valid()
      reads this, S
    {
      Consistent() && bitCount == 8 * |done + tail| % TWO64
    }

    ghost predicate Consistent()
      reads this, S
    {
      && S.Length == 36 && |e.iv| == 36 && roundShift < 3
      && |done| % 4 == 0 && |tail| == partialLen <= 4
      && partial == Pack(e, tail)
      && Stands(e, S[..], roundShift, done)
    }

    /** Everything fed since the start. */
    ghost function Fed(): seq<bv8>
      reads this
    {
      done + tail
    }

    constructor (e: Engine<W>)
      requires |e.iv| == 36
      ensures Valid() && Fed() == [] && this.e == e && fresh(S)
    {
      this.e := e;
      S := new W[36](i requires 0 <= i < 36 => e.iv[i]);
      partial, partialLen, roundShift, bitCount := e.zero, 0, 0, 0;
      done, tail := [], [];
      new;
      assert View(S[..], 0) == e.iv;
    }

    method Init()
      requires S.Length == 36 && |e.iv| == 36
      modifies this, S
      ensures Valid() && Fed() == []
    {
      forall i | 0 <= i < 36 { S[i] := e.iv[i]; }
      partial, partialLen, roundShift, bitCount := e.zero, 0, 0, 0;
      done, tail := [], [];
      assert View(S[..], 0) == e.iv;
    }

    /** One pass through the switch: takes the word in and turns the names. */
    method TakeIn(rshift: nat, q: W, ghost word: seq<bv8>) returns (next: nat)
      requires S.Length == 36 && |e.iv| == 36 && rshift < 3 && |word| == 4 && q == Pack(e, word)
      requires Stands(e, S[..], rshift, done)
      modifies S
      ensures next < 3 && Stands(e, S[..], next, done + word)
    {
      ghost var before := S[..];
      if rshift == 0 {
        Case0(e.ops, S, q);
        next := 1;
      } else if rshift == 1 {
        Case1(e.ops, S, q);
        next := 2;
      } else {
        Case2(e.ops, S, q);
        next := 0;
      }
      StandsNext(e, before, rshift, S[..], next, done, word);
    }

    /** Shifts bytes into a pending word. */
    method Shift(p: W, bytes: seq<bv8>, ghost before: seq<bv8>) returns (q: W)
      requires p == Pack(e, before)
      ensures q == Pack(e, before + bytes)
    {
      q := p;
      var i := 0;
      assert before + bytes[..0] == before;
      while i < |bytes|
        invariant 0 <= i <= |bytes| && q == Pack(e, before + bytes[..i])
      {
        PackNext(e, before, bytes, i);
        q := e.push(q, bytes[i]);
        i := i + 1;
      }
      assert bytes[..i] == bytes;
    }

    /** Takes data in; a word stays pending after any byte was fed. An empty piece leaves the context as
      * it was, except that it takes a full pending word into the state. */
    method Core(data: seq<bv8>)
      requires Valid()
      modifies this, S
      ensures Valid() && Fed() == old(Fed()) + data
      ensures data != [] ==> partialLen > 0
      ensures data == [] && old(partialLen) == 4 ==> done == old(Fed()) && tail == [] && partialLen == 0
      ensures data == [] && old(partialLen) < 4 ==>
        done == old(done) && tail == old(tail) && roundShift == old(roundShift) && S[..] == old(S[..])
    {
      CountNext(|Fed()|, |data|);
      bitCount := (bitCount + 8 * |data|) % TWO64;
      Take(data);
    }

    method Take(data: seq<bv8>)
      requires Consistent()
      modifies this`partial, this`partialLen, this`roundShift, this`done, this`tail, S
      ensures Consistent() && Fed() == old(Fed()) + data
      ensures data != [] ==> partialLen > 0
      ensures data == [] && old(partialLen) == 4 ==> done == old(Fed()) && tail == [] && partialLen == 0
      ensures data == [] && old(partialLen) < 4 ==>
        done == old(done) && tail == old(tail) && roundShift == old(roundShift) && S[..] == old(S[..])
    {
      JoinAssoc(done, tail, data);
      var p, rest, word := Enter(data);
      if partialLen < 4 && |rest| == 0 {
        partial, partialLen, tail := p, partialLen + |data|, word;
        return;
      }
      JoinAssoc(done, word, rest);
      var rshift;
      rest, rshift := Words(p, rest, word);
      Leave(rest, rshift);
      assert data == [] ==> done + tail == done;
    }

    /** Fills the pending word up, as far as the data goes. */
    method Enter(data: seq<bv8>) returns (p: W, rest: seq<bv8>, ghost word: seq<bv8>)
      requires Consistent()
      ensures p == Pack(e, word) && word + rest == tail + data
      ensures if partialLen < 4 && rest == [] then |word| == partialLen + |data| <= 4 else |word| == 4
      ensures rest == [] ==> word == tail + data
      ensures partialLen == 4 ==> rest == data
    {
      p, rest, word := partial, data, tail;
      if partialLen < 4 {
        var count := if |data| < 4 - partialLen then |data| else 4 - partialLen;
        p := Shift(p, data[..count], tail);
        word, rest := tail + data[..count], data[count..];
      }
    }

    /** The loop around the switch, from a full word on. */
    method Words(p0: W, data: seq<bv8>, ghost word: seq<bv8>) returns (rest: seq<bv8>, rshift: nat)
      requires S.Length == 36 && |e.iv| == 36 && roundShift < 3 && |done| % 4 == 0
      requires Stands(e, S[..], roundShift, done)
      requires |word| == 4 && p0 == Pack(e, word)
      modifies this`done, S
      ensures |done| % 4 == 0 && rshift < 3 && Stands(e, S[..], rshift, done)
      ensures done + rest == old(done) + word + data && |rest| <= 4 && (data != [] <==> rest != [])
    {
      var p := p0;
      rest, rshift := data, roundShift;
      ghost var w, whole := word, done + word + data;
      while true
        invariant rshift < 3 && |done| % 4 == 0 && Stands(e, S[..], rshift, done)
        invariant |w| == 4 && p == Pack(e, w) && done + w + rest == whole
        invariant data != [] <==> rest != []
        decreases |rest|
      {
        rshift := TakeIn(rshift, p, w);
        done := done + w;
        if |rest| <= 4 { break; }
        p := Pack(e, rest[..4]);
        Cut(done, rest, 4);
        w, rest := rest[..4], rest[4..];
      }
    }

    /** Keeps what is left as the pending word. */
    method Leave(rest: seq<bv8>, rshift: nat)
      requires S.Length == 36 && |e.iv| == 36 && |done| % 4 == 0 && |rest| <= 4
      requires rshift < 3 && Stands(e, S[..], rshift, done)
      modifies this`partial, this`partialLen, this`roundShift, this`tail
      ensures Consistent() && tail == rest
    {
      assert [] + rest == rest;
      partialLen, tail := |rest|, rest;
      partial := Shift(e.zero, rest, []);
      roundShift := rshift;
    }

    /** Pads, mixes the plain state to the end and writes it out; the context then starts over. */
    method Close(ub: bv8, n: nat, junk: seq<bv8>) returns (dst: seq<bv8>)
      requires Valid() && n < 8 && |junk| == 4
      modifies this, S
      ensures dst == Fugue(e, old(Fed()), ub, n)
      ensures Valid() && Fed() == []
    {
      ghost var fed := Fed();
      var s := Finish(ub, n, junk);
      s := LastRounds(s);
      s := AddFirst(s, 9, 18, 27);
      dst := Write(s);
      Init();
    }

    /** Feeds the padding and copies the state out, turned back to its own names. */
    method Finish(ub: bv8, n: nat, junk: seq<bv8>) returns (s: seq<W>)
      requires Valid() && n < 8 && |junk| == 4
      modifies this, S
      ensures S.Length == 36 && |e.iv| == 36 && s == Absorb(e, Padded(old(Fed()), ub, n))
    {
      FeedPadding(ub, n, junk);
      var rms := roundShift * 12;
      s := S[36 - rms..] + S[..36 - rms];
      CopiedOut(e, S[..], roundShift, done, s);
    }

    method FeedPadding(ub: bv8, n: nat, junk: seq<bv8>)
      requires Valid() && n < 8 && |junk| == 4
      modifies this, S
      ensures Valid() && done == Padded(old(Fed()), ub, n)
    {
      ghost var padded := Padded(Fed(), ub, n);
      var bytes := CloseBytes(partialLen, ub, n, (bitCount + n) % TWO64, junk);
      PaddingFed(done, tail, bitCount, ub, n, junk);
      Core(bytes);
      OnlyJunkPending(done, tail, padded, junk);
    }

    method LastRounds(s: seq<W>) returns (r: seq<W>)
      requires |s| == 36
      ensures r == Last(e.ops, Turns(e.ops, s, 32), 13)
    {
      r := s;
      var i := 0;
      while i < 32
        invariant 0 <= i <= 32 && r == Turns(e.ops, s, i)
      {
        r := TurnStep(r);
        i := i + 1;
      }
      ghost var mixed := r;
      i := 0;
      while i < 13
        invariant 0 <= i <= 13 && |r| == 36 && r == Last(e.ops, mixed, i)
      {
        r := CloseStep(r, 9, 18, 27, 9);
        r := CloseStep(r, 10, 18, 27, 9);
        r := CloseStep(r, 10, 19, 27, 9);
        r := CloseStep(r, 10, 19, 28, 8);
        i := i + 1;
      }
    }

    method TurnStep(s: seq<W>) returns (r: seq<W>)
      requires |s| == 36
      ensures r == Turn(e.ops, s)
    {
      r := s[33..] + s[..33];
      r := MixColumns(r);
      r := MixFirst(r);
    }

    /** A quarter of a closing round, word by word. */
    method CloseStep(s: seq<W>, i: nat, j: nat, k: nat, n: nat) returns (r: seq<W>)
      requires |s| == 36 && 4 < i < j < k < 36 && n <= 36
      ensures r == Quarter(e.ops, s, i, j, k, n)
    {
      r := AddFirst(s, i, j, k);
      r := r[36 - n..] + r[..36 - n];
      r := MixFirst(r);
    }

    /** Adds the first word to four others, one after the other. */
    method AddFirst(s: seq<W>, i: nat, j: nat, k: nat) returns (r: seq<W>)
      requires |s| == 36 && 4 < i < j < k < 36
      ensures r == Spread(e.ops, s, i, j, k)
    {
      r := s;
      r := r[4 := e.ops.xor(r[4], r[0])];
      r := r[i := e.ops.xor(r[i], r[0])];
      r := r[j := e.ops.xor(r[j], r[0])];
      r := r[k := e.ops.xor(r[k], r[0])];
    }

    /** CMIX36 on the first words, one after the other. */
    method MixColumns(s: seq<W>) returns (r: seq<W>)
      requires |s| == 36
      ensures r == Cmix(e.ops, s)
    {
      r := s;
      r := r[0 := e.ops.xor(r[0], r[4])];
      r := r[1 := e.ops.xor(r[1], r[5])];
      r := r[2 := e.ops.xor(r[2], r[6])];
      r := r[18 := e.ops.xor(r[18], r[4])];
      r := r[19 := e.ops.xor(r[19], r[5])];
      r := r[20 := e.ops.xor(r[20], r[6])];
    }

    method MixFirst(s: seq<W>) returns (r: seq<W>)
      requires |s| == 36
      ensures r == Mix(e.ops, s)
    {
      var (a, b, c, d) := e.ops.mix(s[0], s[1], s[2], s[3]);
      r := [a, b, c, d] + s[4..];
    }

    /** Writes out the sixteen words of the digest: four from each quarter of the state. */
    method Write(s: seq<W>) returns (dst: seq<bv8>)
      requires |s| == 36
      ensures dst == Output(e, s)
    {
      dst := e.unpack(s[1]) + e.unpack(s[2]) + e.unpack(s[3]) + e.unpack(s[4]);
      Joined(dst, e.unpack(s[9]), e.unpack(s[10]), e.unpack(s[11]), e.unpack(s[12]));
      dst := dst + e.unpack(s[9]) + e.unpack(s[10]) + e.unpack(s[11]) + e.unpack(s[12]);
      Joined(dst, e.unpack(s[18]), e.unpack(s[19]), e.unpack(s[20]), e.unpack(s[21]));
      dst := dst + e.unpack(s[18]) + e.unpack(s[19]) + e.unpack(s[20]) + e.unpack(s[21]);
      Joined(dst, e.unpack(s[27]), e.unpack(s[28]), e.unpack(s[29]), e.unpack(s[30]));
      dst := dst + e.unpack(s[27]) + e.unpack(s[28]) + e.unpack(s[29]) + e.unpack(s[30]);
    }
  }

  lemma CountNext(n: nat, more: nat)
    ensures (8 * n % TWO64 + 8 * more) % TWO64 == 8 * (n + more) % TWO64
  {
  }

  lemma Cut<T>(a: seq<T>, b: seq<T>, n: nat)
    requires n <= |b|
    ensures a + b[..n] + b[n..] == a + b
  {
    assert b == b[..n] + b[n..];
  }

  /** The stored words, under their turned names, are the plain state after `done`. A proof that needs
    * the equation mentions `Look`; the buffering code, which does not, never unfolds it. */
  ghost predicate Stands<W>(e: Engine<W>, s: seq<W>, shift: nat, done: seq<bv8>)
    requires |s| == 36 && |e.iv| == 36 && shift < 3
  {
    forall k: nat :: Look(k) ==> View(s, Off(shift)) == Absorb(e, done)
  }

  lemma StandsNext<W>(e: Engine<W>, s: seq<W>, shift: nat, after: seq<W>, next: nat, done: seq<bv8>, word: seq<bv8>)
    requires |s| == 36 && |e.iv| == 36 && shift < 3 && Stands(e, s, shift, done) && |after| == 36 && next < 3 &&
      |word| == 4
    requires View(after, Off(next)) == Round(e.ops, View(s, Off(shift)), Pack(e, word))
    ensures Stands(e, after, next, done + word)
  {
    assert Look(0);
    AbsorbNext(e, done, word);
  }

  lemma PackNext<W>(e: Engine<W>, before: seq<bv8>, bytes: seq<bv8>, i: nat)
    requires i < |bytes|
    ensures Pack(e, before + bytes[..i + 1]) == e.push(Pack(e, before + bytes[..i]), bytes[i])
  {
    var b := before + bytes[..i + 1];
    assert b[..|b| - 1] == before + bytes[..i];
  }

  lemma AbsorbNext<W>(e: Engine<W>, done: seq<bv8>, word: seq<bv8>)
    requires |e.iv| == 36 && |word| == 4
    ensures Absorb(e, done + word) == Round(e.ops, Absorb(e, done), Pack(e, word))
  {
    var b := done + word;
    assert b[..|b| - 4] == done && b[|b| - 4..] == word;
  }

  lemma PaddingFed(done: seq<bv8>, tail: seq<bv8>, bitCount: nat, ub: bv8, n: nat, junk: seq<bv8>)
    requires |done| % 4 == 0 && |tail| <= 4 && n < 8 && bitCount == 8 * |done + tail| % TWO64
    ensures
      var bytes := CloseBytes(|tail|, ub, n, (bitCount + n) % TWO64, junk);
      bytes != [] && done + tail + bytes == Padded(done + tail, ub, n) + junk
    ensures |Padded(done + tail, ub, n)| % 4 == 0
  {
    assert (bitCount + n) % TWO64 == (8 * |done + tail| + n) % TWO64;
    CloseCompletes(done, tail, ub, n, junk);
    PaddedLength(done + tail, ub, n);
  }

  /** Laziness at work: what is still pending after the last call is the junk, so that it never
    * reaches the state. */
  lemma OnlyJunkPending(done: seq<bv8>, tail: seq<bv8>, padded: seq<bv8>, junk: seq<bv8>)
    requires |done| % 4 == 0 && 0 < |tail| <= 4 && |padded| % 4 == 0 && |junk| == 4
    requires done + tail == padded + junk
    ensures done == padded
  {
    assert |tail| == 4;
    assert (done + tail)[..|done|] == done && (padded + junk)[..|padded|] == padded;
  }

  lemma CopiedOut<W>(e: Engine<W>, stored: seq<W>, shift: nat, done: seq<bv8>, s: seq<W>)
    requires |stored| == 36 && |e.iv| == 36 && shift < 3 && Stands(e, stored, shift, done)
    requires s == stored[36 - shift * 12..] + stored[..36 - shift * 12]
    ensures s == Absorb(e, done)
  {
    assert Look(0);
    assert forall k :: 0 <= k < 36 ==> s[k] == View(stored, Off(shift))[k];
  }

  /** However a message is cut into pieces, and whatever the unset bytes are, the digest is that of
    * the whole message. */
  method HashPieces<W>(e: Engine<W>, pieces: seq<seq<bv8>>, ub: bv8, n: nat, junk: seq<bv8>) returns (dst: seq<bv8>)
    requires |e.iv| == 36 && n < 8 && |junk| == 4
    ensures dst == Fugue(e, Flat(pieces), ub, n)
  {
    var sc := new Context(e);
    var i := 0;
    while i < |pieces|
      invariant 0 <= i <= |pieces| && sc.Valid() && sc.Fed() == Flat(pieces[..i]) && fresh(sc) && fresh(sc.S)
    {
      FlatNext(pieces, i);
      sc.Core(pieces[i]);
      i := i + 1;
    }
    FlatAll(pieces);
    dst := sc.Close(ub, n, junk);
  }
}
