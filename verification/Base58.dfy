/** Base58 (src/base58.h): the codec on byte strings and C strings, its checksum layer and addresses.
  * Big numbers are the integers themselves; the checksum is a function of which nothing is assumed
  * but that it has four bytes.
  */
module Base58 {
  import opened Numerals
  import opened Pieces

  type Bytes = seq<nat>

  // ---------------------------------------------------------------- the alphabet

  /** Digits: 1 to 9, A to Z without I and O, a to z without l. */
  function DigitChar(d: nat): char
    requires d < 58
  {
    if d < 9 then Offset('1', d)
    else if d < 17 then Offset('A', d - 9)
    else if d < 22 then Offset('J', d - 17)
    else if d < 33 then Offset('P', d - 22)
    else if d < 44 then Offset('a', d - 33)
    else Offset('m', d - 44)
  }

  function Offset(c: char, n: nat): char
    requires n < 30 && c as int < 128
  {
    (c as int + n) as char
  }

  function CharDigit(c: char): (d: Option<nat>)
    ensures d.Some? ==> d.value < 58
  {
    var x := c as int;
    if '1' <= c <= '9' then Some(x - '1' as int)
    else if 'A' <= c <= 'H' then Some(x - 'A' as int + 9)
    else if 'J' <= c <= 'N' then Some(x - 'J' as int + 17)
    else if 'P' <= c <= 'Z' then Some(x - 'P' as int + 22)
    else if 'a' <= c <= 'k' then Some(x - 'a' as int + 33)
    else if 'm' <= c <= 'z' then Some(x - 'm' as int + 44)
    else None
  }

  /** The digits in their order. */
  lemma AlphabetInOrder(d: nat)
    requires d < 58
    ensures d < 9 ==> DigitChar(d) == "123456789"[d]
    ensures 9 <= d < 17 ==> DigitChar(d) == "ABCDEFGH"[d - 9]
    ensures 17 <= d < 22 ==> DigitChar(d) == "JKLMN"[d - 17]
    ensures 22 <= d < 33 ==> DigitChar(d) == "PQRSTUVWXYZ"[d - 22]
    ensures 33 <= d < 44 ==> DigitChar(d) == "abcdefghijk"[d - 33]
    ensures d >= 44 ==> DigitChar(d) == "mnopqrstuvwxyz"[d - 44]
  {
  }

  lemma CharOfDigit(d: nat)
    requires d < 58
    ensures CharDigit(DigitChar(d)) == Some(d) && !IsSpace(DigitChar(d))
    ensures DigitChar(d) == '1' <==> d == 0
  {
  }

  lemma DigitOfChar(c: char)
    requires CharDigit(c).Some?
    ensures DigitChar(CharDigit(c).value) == c && !IsSpace(c)
  {
  }

  predicate IsSpace(c: char) { c == ' ' || '\t' <= c <= '\r' }

  /** The white space of C: tab, line feed, vertical tab, form feed, carriage return, and space. */
  lemma SpacesAre(c: char)
    ensures IsSpace(c) <==> c as int in {9, 10, 11, 12, 13, 32}
  {
  }

  // ---------------------------------------------------------------- the specification

  function Chars(ds: seq<nat>): (s: string)
    requires AreDigits(58, ds)
    ensures |s| == |ds|
  {
    seq(|ds|, i requires 0 <= i < |ds| => DigitChar(ds[i]))
  }

  predicate InAlphabet(s: string) { forall i :: 0 <= i < |s| ==> CharDigit(s[i]).Some? }

  function DigitsOf(s: string): (ds: seq<nat>)
    requires InAlphabet(s)
    ensures |ds| == |s| && AreDigits(58, ds)
  {
    seq(|s|, i requires 0 <= i < |s| => CharDigit(s[i]).value)
  }

  /** How many zeros a list starts with. */
  function ZeroCount(ds: seq<nat>): (n: nat)
    ensures n <= |ds|
  {
    if ds != [] && ds[0] == 0 then 1 + ZeroCount(ds[1..]) else 0
  }

  function Encoded(v: Bytes): string {
    DigitsFacts(58, Value(256, v));
    Chars(Repeat(0, ZeroCount(v)) + Digits(58, Value(256, v)))
  }

  function SkipSpaces(s: string): string { if s != [] && IsSpace(s[0]) then SkipSpaces(s[1..]) else s }

  /** The longest start of a string that lies in the alphabet. */
  function Body(s: string): (r: string)
    ensures InAlphabet(r) && |r| <= |s| && r == s[..|r|]
  {
    if s != [] && CharDigit(s[0]).Some? then [s[0]] + Body(s[1..]) else []
  }

  function Decoded(s: string): Option<Bytes> {
    var t := SkipSpaces(s);
    var d := Body(t);
    if SkipSpaces(t[|d|..]) != [] then None
    else Some(Repeat(0, ZeroCount(DigitsOf(d))) + Digits(256, Value(58, DigitsOf(d))))
  }

  /** A string without the spaces around it. */
  function Strip(s: string): string { TrimRight(SkipSpaces(s)) }

  function TrimRight(s: string): string {
    if s != [] && IsSpace(s[|s| - 1]) then TrimRight(s[..|s| - 1]) else s
  }

  // ---------------------------------------------------------------- lists with leading zeros

  lemma {:induction false} ZerosFirst(ds: seq<nat>)
    ensures forall i :: 0 <= i < ZeroCount(ds) ==> ds[i] == 0
    ensures ZeroCount(ds) < |ds| ==> ds[ZeroCount(ds)] > 0
  {
    if ds != [] && ds[0] == 0 {
      ZerosFirst(ds[1..]);
      forall i | 0 <= i < ZeroCount(ds) ensures ds[i] == 0 {
        if i > 0 { assert ds[i] == ds[1..][i - 1]; }
      }
    }
  }

  lemma ZeroCountSplit(ds: seq<nat>)
    ensures ds == Repeat(0, ZeroCount(ds)) + ds[ZeroCount(ds)..] && NoLeadingZero(ds[ZeroCount(ds)..])
  {
    ZerosFirst(ds);
    var z := ZeroCount(ds);
    assert ds[..z] == Repeat(0, z);
    assert ds == ds[..z] + ds[z..];
  }

  lemma {:induction false} ZeroCountOf(n: nat, ds: seq<nat>)
    requires NoLeadingZero(ds)
    ensures ZeroCount(Repeat(0, n) + ds) == n
  {
    if n > 0 {
      ZeroCountOf(n - 1, ds);
      assert (Repeat(0, n) + ds)[1..] == Repeat(0, n - 1) + ds;
    }
  }

  /** From base b to base c and back, leading zeros kept: nothing is lost. */
  lemma Rebase(b: nat, c: nat, v: seq<nat>)
    requires b >= 2 && c >= 2 && AreDigits(b, v)
    ensures
      var w := Repeat(0, ZeroCount(v)) + Digits(c, Value(b, v));
      && AreDigits(c, w)
      && Repeat(0, ZeroCount(w)) + Digits(b, Value(c, w)) == v
  {
    var z := ZeroCount(v);
    ZeroCountSplit(v);
    LeadingZeros(b, z, v[z..]);
    var n := Value(b, v[z..]);
    DigitsFacts(c, n);
    LeadingZeros(c, z, Digits(c, n));
    ZeroCountOf(z, Digits(c, n));
    DigitsOfValue(b, v[z..]);
  }

  // ---------------------------------------------------------------- spaces

  lemma {:induction false} BodyOf(s: string, t: string)
    requires InAlphabet(s) && (t == [] || CharDigit(t[0]).None?)
    ensures Body(s + t) == s
  {
    if s != [] {
      assert (s + t)[1..] == s[1..] + t;
      BodyOf(s[1..], t);
    } else {
      assert s + t == t;
    }
  }

  /** The body ends at a character outside the alphabet, or at the end. */
  lemma {:induction false} AfterBody(s: string)
    ensures |Body(s)| < |s| ==> CharDigit(s[|Body(s)|]).None?
  {
    if s != [] && CharDigit(s[0]).Some? { AfterBody(s[1..]); }
  }

  lemma {:induction false} AllSpaces(s: string)
    requires SkipSpaces(s) == []
    ensures forall i :: 0 <= i < |s| ==> IsSpace(s[i])
  {
    if s != [] { AllSpaces(s[1..]); }
  }

  lemma {:induction false} TrimSpaces(d: string, s: string)
    requires InAlphabet(d) && forall i :: 0 <= i < |s| ==> IsSpace(s[i])
    ensures TrimRight(d + s) == d
    decreases |s|
  {
    if s == [] {
      assert d + s == d;
      if d != [] { DigitOfChar(d[|d| - 1]); }
    } else {
      assert (d + s)[..|d + s| - 1] == d + s[..|s| - 1];
      TrimSpaces(d, s[..|s| - 1]);
    }
  }

  /** An accepted string, stripped, is its body. */
  lemma StripIsBody(s: string)
    requires Decoded(s).Some?
    ensures Strip(s) == Body(SkipSpaces(s))
  {
    var t := SkipSpaces(s);
    var d := Body(t);
    AllSpaces(t[|d|..]);
    TrimSpaces(d, t[|d|..]);
    assert t == d + t[|d|..];
  }

  // ---------------------------------------------------------------- the bijection

  lemma CharsRoundTrip(ds: seq<nat>)
    requires AreDigits(58, ds)
    ensures InAlphabet(Chars(ds)) && DigitsOf(Chars(ds)) == ds
    ensures forall i :: 0 <= i < |ds| ==> !IsSpace(Chars(ds)[i])
  {
    forall i | 0 <= i < |ds| ensures CharDigit(Chars(ds)[i]) == Some(ds[i]) && !IsSpace(Chars(ds)[i]) {
      CharOfDigit(ds[i]);
    }
  }

  lemma DigitsRoundTrip(s: string)
    requires InAlphabet(s)
    ensures Chars(DigitsOf(s)) == s
  {
    forall i | 0 <= i < |s| ensures Chars(DigitsOf(s))[i] == s[i] { DigitOfChar(s[i]); }
  }

  /** Decoding undoes encoding, for every byte string. */
  lemma DecodeEncode(v: Bytes)
    requires AreDigits(256, v)
    ensures Decoded(Encoded(v)) == Some(v)
  {
    Rebase(256, 58, v);
    var w := Repeat(0, ZeroCount(v)) + Digits(58, Value(256, v));
    CharsRoundTrip(w);
    var s := Chars(w);
    assert SkipSpaces(s) == s;
    BodyOf(s, []);
    assert s + [] == s;
  }

  /** Encoding undoes decoding, for every accepted string, up to the spaces around it. */
  lemma EncodeDecode(s: string)
    requires Decoded(s).Some?
    ensures AreDigits(256, Decoded(s).value) && Encoded(Decoded(s).value) == Strip(s)
  {
    var d := Body(SkipSpaces(s));
    StripIsBody(s);
    Rebase(58, 256, DigitsOf(d));
    DigitsRoundTrip(d);
  }

  /** Exactly the strings of alphabet characters, with spaces around them, are accepted. */
  lemma AcceptedStrings(s: string)
    ensures Decoded(s).Some? <==> InAlphabet(Strip(s))
  {
    var t := SkipSpaces(s);
    if Decoded(s).Some? {
      StripIsBody(s);
    } else if InAlphabet(Strip(s)) {
      var d := TrimRight(t);
      TrimTail(t);
      var rest := t[|d|..];
      assert t == d + rest;
      if rest != [] { SpaceIsNoDigit(rest[0]); }
      BodyOf(d, rest);
      SpacesSkipped(rest);
    }
  }

  lemma {:induction false} TrimTail(s: string)
    ensures TrimRight(s) <= s && forall i :: |TrimRight(s)| <= i < |s| ==> IsSpace(s[i])
  {
    if s != [] && IsSpace(s[|s| - 1]) { TrimTail(s[..|s| - 1]); }
  }

  lemma {:induction false} SpacesSkipped(s: string)
    requires forall i :: 0 <= i < |s| ==> IsSpace(s[i])
    ensures SkipSpaces(s) == []
  {
    if s != [] { SpacesSkipped(s[1..]); }
  }

  lemma SpaceIsNoDigit(c: char)
    requires IsSpace(c)
    ensures CharDigit(c).None?
  {
  }

  // ---------------------------------------------------------------- the loops

  lemma ReversedNext<T>(s: seq<T>, x: T)
    ensures Reversed(s + [x]) == [x] + Reversed(s)
  {
  }

  /** The string is the number of the bytes in base 58, the most significant digit first, with as many ones
    * in front as there are leading zero bytes. */
  lemma EncodedMeans(v: Bytes)
    requires AreDigits(256, v)
    ensures InAlphabet(Encoded(v)) && Value(58, DigitsOf(Encoded(v))) == Value(256, v)
    ensures ZeroCount(DigitsOf(Encoded(v))) == ZeroCount(v)
  {
    var z, n := ZeroCount(v), Value(256, v);
    DigitsFacts(58, n);
    var ds := Repeat(0, z) + Digits(58, n);
    forall i | 0 <= i < |ds| ensures CharDigit(Chars(ds)[i]) == Some(ds[i]) { CharOfDigit(ds[i]); }
    assert DigitsOf(Chars(ds)) == ds;
    LeadingZeros(58, z, Digits(58, n));
    ZeroCountOf(z, Digits(58, n));
  }

  /** Takes base 58 digits off the number from the right, marks leading zeros, and turns the string
    * around. */
  method EncodeBase58(v: Bytes) returns (str: string)
    requires AreDigits(256, v)
    ensures str == Encoded(v)
  {
    BehindZero(v);
    var bn := FromMpi([0] + v);
    DigitsFacts(58, bn);
    str := TakeDigits(bn);
    str := MarkZeros(v, str, Chars(Digits(58, bn)));
    CharsJoin(Repeat(0, ZeroCount(v)), Digits(58, bn));
    str := Reversed(str);
  }

  lemma CharsJoin(a: seq<nat>, b: seq<nat>)
    requires AreDigits(58, a) && AreDigits(58, b)
    ensures AreDigits(58, a + b) && Chars(a + b) == Chars(a) + Chars(b)
  {
  }

  method TakeDigits(n: nat) returns (str: string)
    requires AreDigits(58, Digits(58, n))
    ensures Reversed(str) == Chars(Digits(58, n))
  {
    var bn := n;
    str := [];
    while bn > 0
      invariant AreDigits(58, Digits(58, bn)) && Chars(Digits(58, n)) == Chars(Digits(58, bn)) + Reversed(str)
    {
      DivSmaller(bn, 58);
      DigitsInRange(58, bn / 58);
      TakeDigit(bn, str);
      str := str + [DigitChar(bn % 58)];
      bn := bn / 58;
    }
  }

  method MarkZeros(v: Bytes, str0: string, ghost core: string) returns (str: string)
    requires Reversed(str0) == core
    ensures Reversed(str) == Chars(Repeat(0, ZeroCount(v))) + core
  {
    str := str0;
    var i := 0;
    assert v[0..] == v;
    assert Chars(Repeat(0, 0)) + core == core;
    while i < |v| && v[i] == 0
      invariant 0 <= i <= |v| && ZeroCount(v) == i + ZeroCount(v[i..])
      invariant Reversed(str) == Chars(Repeat(0, i)) + core
    {
      assert v[i..][1..] == v[i + 1..];
      ReversedNext(str, '1');
      assert Chars(Repeat(0, i + 1)) + core == ['1'] + (Chars(Repeat(0, i)) + core);
      str := str + ['1'];
      i := i + 1;
    }
  }

  lemma BehindZero(v: Bytes)
    ensures FromMpi([0] + v) == Value(256, v)
  {
    assert Repeat(0, 1) == [0];
    LeadingZeros(256, 1, v);
  }

  lemma TakeDigit(bn: nat, str: string)
    requires bn > 0 && AreDigits(58, Digits(58, bn)) && AreDigits(58, Digits(58, bn / 58))
    ensures 0 <= bn % 58 < 58
    ensures Chars(Digits(58, bn)) + Reversed(str) == Chars(Digits(58, bn / 58)) + Reversed(str + [DigitChar(bn % 58)])
  {
    MoveChar(Digits(58, bn / 58), bn % 58, str);
    assert Digits(58, bn) == Digits(58, bn / 58) + [bn % 58];
  }

  lemma MoveChar(front: seq<nat>, d: nat, str: string)
    requires d < 58 && AreDigits(58, front)
    ensures AreDigits(58, front + [d]) &&
      Chars(front + [d]) + Reversed(str) == Chars(front) + Reversed(str + [DigitChar(d)])
  {
    ReversedNext(str, DigitChar(d));
    assert Chars(front + [d]) == Chars(front) + [DigitChar(d)];
    JoinAssoc(Chars(front), [DigitChar(d)], Reversed(str));
  }

  /** Skips spaces, reads digits, allows spaces at the end, and puts the leading zeros back. */
  method DecodeBase58(s: string) returns (r: Option<Bytes>)
    ensures r == Decoded(s)
  {
    var t := SkipBlanks(s);
    var p, bn := ReadDigits(t);
    if p < |t| {
      var rest := SkipBlanks(t[p..]);
      if rest != [] { return None; }
    }
    var tmp := Trimmed(bn);
    var zeros := CountOnes(t, p);
    r := Some(Repeat(0, zeros) + Reversed(tmp));
  }

  method ReadDigits(t: string) returns (p: nat, bn: nat)
    ensures p == |Body(t)| && bn == Value(58, DigitsOf(Body(t)))
  {
    bn, p := 0, 0;
    assert t[0..] == t;
    while p < |t| && CharDigit(t[p]).Some?
      invariant 0 <= p <= |t| && InAlphabet(t[..p]) && Body(t) == t[..p] + Body(t[p..])
      invariant bn == Value(58, DigitsOf(t[..p]))
    {
      DigitsOfNext(t, p);
      BodyNext(t, p);
      bn := bn * 58 + CharDigit(t[p]).value;
      p := p + 1;
    }
    BodyEnds(t, p);
  }

  lemma PrefixNext<T>(s: seq<T>, p: nat)
    requires p < |s|
    ensures s[..p] + [s[p]] == s[..p + 1]
  {
  }

  lemma BodyNext(t: string, p: nat)
    requires p < |t| && InAlphabet(t[..p]) && CharDigit(t[p]).Some? && Body(t) == t[..p] + Body(t[p..])
    ensures Body(t) == t[..p + 1] + Body(t[p + 1..])
  {
    var rest := t[p + 1..];
    assert t[p..][1..] == rest;
    assert Body(t[p..]) == [t[p]] + Body(rest);
    JoinAssoc(t[..p], [t[p]], Body(rest));
    PrefixNext(t, p);
  }

  lemma BodyEnds(t: string, p: nat)
    requires p <= |t| && Body(t) == t[..p] + Body(t[p..]) && (p < |t| ==> CharDigit(t[p]).None?)
    ensures Body(t) == t[..p]
  {
    assert Body(t[p..]) == [];
  }

  lemma DigitsOfNext(t: string, p: nat)
    requires p < |t| && InAlphabet(t[..p]) && CharDigit(t[p]).Some?
    ensures t[..p + 1] == t[..p] + [t[p]] && InAlphabet(t[..p + 1])
    ensures Value(58, DigitsOf(t[..p + 1])) == Value(58, DigitsOf(t[..p])) * 58 + CharDigit(t[p]).value
  {
    assert DigitsOf(t[..p + 1]) == DigitsOf(t[..p]) + [CharDigit(t[p]).value];
    ValueNext(58, DigitsOf(t[..p]), CharDigit(t[p]).value);
  }

  method CountOnes(t: string, ghost p: nat) returns (zeros: nat)
    requires p == |Body(t)|
    ensures zeros == ZeroCount(DigitsOf(Body(t)))
  {
    zeros := 0;
    ghost var ds := DigitsOf(Body(t));
    AfterBody(t);
    assert ds[0..] == ds;
    while zeros < |t| && t[zeros] == '1'
      invariant 0 <= zeros <= p && ZeroCount(ds) == zeros + ZeroCount(ds[zeros..])
    {
      assert CharDigit(t[zeros]) == Some(0);
      assert ds[zeros..][1..] == ds[zeros + 1..];
      zeros := zeros + 1;
    }
    if zeros < p { DigitOfChar(t[zeros]); }
  }

  method SkipBlanks(s: string) returns (t: string)
    ensures t == SkipSpaces(s)
  {
    t := s;
    while t != [] && IsSpace(t[0])
      invariant SkipSpaces(t) == SkipSpaces(s)
      decreases |t|
    {
      t := t[1..];
    }
  }

  /** The number in bytes, the least significant first, without the byte that only carries the sign. */
  function Trimmed(bn: nat): (tmp: Bytes)
    ensures Reversed(tmp) == Digits(256, bn)
  {
    var tmp := Reversed(Mpi(bn));
    var n := |tmp|;
    TrimmedMpi(bn, tmp);
    if n >= 2 && tmp[n - 1] == 0 && tmp[n - 2] >= 0x80 then tmp[..n - 1] else tmp
  }

  lemma {:induction false} TrimmedMpi(bn: nat, tmp: Bytes)
    requires tmp == Reversed(Mpi(bn))
    ensures
      var n := |tmp|;
      Reversed(if n >= 2 && tmp[n - 1] == 0 && tmp[n - 2] >= 0x80 then tmp[..n - 1] else tmp) == Digits(256, bn)
  {
    DigitsStart(256, bn);
    var ds, m := Digits(256, bn), Mpi(bn);
    if ds != [] && ds[0] >= 0x80 {
      assert m == [0] + ds;
      assert Reversed(tmp[..|tmp| - 1]) == ds;
    } else {
      assert Reversed(tmp) == ds;
    }
  }

  // ---------------------------------------------------------------- the checksum

  function CheckEncoded(c: Bytes -> Bytes, v: Bytes): string { Encoded(v + c(v)) }

  function CheckDecoded(c: Bytes -> Bytes, s: string): Option<Bytes> {
    match Decoded(s)
    case None => None
    case Some(v) =>
      if |v| < 4 then None
      else
        var n := |v| - 4;
        if c(v[..n]) != v[n..] then None else Some(v[..n])
  }

  /** A checksum of four bytes. */
  ghost predicate IsChecksum(c: Bytes -> Bytes) {
    forall v :: AreDigits(256, v) ==> |c(v)| == 4 && AreDigits(256, c(v))
  }

  lemma CheckDecodeEncode(c: Bytes -> Bytes, v: Bytes)
    requires IsChecksum(c) && AreDigits(256, v)
    ensures CheckDecoded(c, CheckEncoded(c, v)) == Some(v)
  {
    var w := v + c(v);
    DecodeEncode(w);
    assert w[..|w| - 4] == v && w[|w| - 4..] == c(v);
  }

  lemma CheckEncodeDecode(c: Bytes -> Bytes, s: string)
    requires CheckDecoded(c, s).Some?
    ensures AreDigits(256, CheckDecoded(c, s).value) && CheckEncoded(c, CheckDecoded(c, s).value) == Strip(s)
  {
    EncodeDecode(s);
    var w := Decoded(s).value;
    assert w == w[..|w| - 4] + w[|w| - 4..];
  }

  // ---------------------------------------------------------------- versioned data and addresses

  datatype Data = Data(version: nat, bytes: Bytes)

  datatype Destination = KeyID(id: Bytes) | ScriptID(id: Bytes) | NoDestination

  predicate IsId(id: Bytes) { |id| == 20 && AreDigits(256, id) }

  function Text(c: Bytes -> Bytes, d: Data): string { CheckEncoded(c, [d.version] + d.bytes) }

  /** The data read from a string; without it, or with nothing in it, the data is cleared. */
  function Parsed(c: Bytes -> Bytes, s: string): (Data, bool) {
    match CheckDecoded(c, s)
    case None => (Data(0, []), false)
    case Some(v) => if v == [] then (Data(0, []), false) else (Data(v[0], v[1..]), true)
  }

  const PUBKEY_ADDRESS: nat := 50
  const SCRIPT_ADDRESS: nat := 110
  const PUBKEY_ADDRESS_TEST: nat := 111
  const SCRIPT_ADDRESS_TEST: nat := 196

  predicate IsValid(testNet: bool, d: Data) {
    && |d.bytes| == 20
    && (if testNet then d.version == PUBKEY_ADDRESS_TEST || d.version == SCRIPT_ADDRESS_TEST
        else d.version == PUBKEY_ADDRESS || d.version == SCRIPT_ADDRESS)
  }

  class Address {
    const checksum: Bytes -> Bytes
    const testNet: bool
    var nVersion: nat
    var vchData: Bytes

    ghost function View(): Data
      reads this
    {
      Data(nVersion, vchData)
    }

    constructor (checksum: Bytes -> Bytes, testNet: bool)
      ensures this.checksum == checksum && this.testNet == testNet && View() == Data(0, [])
    {
      this.checksum, this.testNet, nVersion, vchData := checksum, testNet, 0, [];
    }

    method Set(dest: Destination) returns (ok: bool)
      modifies this
      ensures ok <==> !dest.NoDestination?
      ensures !ok ==> View() == old(View())
      ensures ok ==> vchData == dest.id && (dest.KeyID? || dest.ScriptID?)
      ensures dest.KeyID? ==> nVersion == if testNet then PUBKEY_ADDRESS_TEST else PUBKEY_ADDRESS
      ensures dest.ScriptID? ==> nVersion == if testNet then SCRIPT_ADDRESS_TEST else SCRIPT_ADDRESS
    {
      match dest {
        case NoDestination => return false;
        case KeyID(id) =>
          nVersion := if testNet then PUBKEY_ADDRESS_TEST else PUBKEY_ADDRESS;
          vchData := id;
        case ScriptID(id) =>
          nVersion := if testNet then SCRIPT_ADDRESS_TEST else SCRIPT_ADDRESS;
          vchData := id;
      }
      return true;
    }

    method SetString(s: string) returns (ok: bool)
      modifies this
      ensures (View(), ok) == Parsed(checksum, s)
    {
      var ok', decoded := DecodeCheck(s);
      if decoded == [] {
        nVersion, vchData := 0, [];
        return false;
      }
      nVersion, vchData := decoded[0], decoded[1..];
      return true;
    }

    /** The checked bytes, and whether they are right: a string of nothing but its checksum is, with none. */
    method DecodeCheck(s: string) returns (ok: bool, v: Bytes)
      ensures ok <==> CheckDecoded(checksum, s).Some?
      ensures v == if ok then CheckDecoded(checksum, s).value else []
    {
      var r := DecodeBase58(s);
      if r.None? { return false, []; }
      v := r.value;
      if |v| < 4 { return false, []; }
      var n := |v| - 4;
      if checksum(v[..n]) != v[n..] { return false, []; }
      return true, v[..n];
    }

    method ToString() returns (s: string)
      requires nVersion < 256 && AreDigits(256, vchData) && IsChecksum(checksum)
      ensures s == Text(checksum, View())
    {
      var v := [nVersion] + vchData;
      s := EncodeBase58(v + checksum(v));
    }

    method Get() returns (dest: Destination)
      ensures dest.NoDestination? <==> !IsValid(testNet, View())
      ensures dest.KeyID? <==>
        IsValid(testNet, View()) && nVersion == if testNet then PUBKEY_ADDRESS_TEST else PUBKEY_ADDRESS
      ensures !dest.NoDestination? ==> dest.id == vchData
    {
      if !IsValid(testNet, Data(nVersion, vchData)) { return NoDestination; }
      if nVersion == PUBKEY_ADDRESS || nVersion == PUBKEY_ADDRESS_TEST { return KeyID(vchData); }
      return ScriptID(vchData);
    }
  }

  /** Text of versioned data reads back as that data. */
  lemma ParseText(c: Bytes -> Bytes, d: Data)
    requires IsChecksum(c) && d.version < 256 && AreDigits(256, d.bytes)
    ensures Parsed(c, Text(c, d)) == (d, true)
  {
    CheckDecodeEncode(c, [d.version] + d.bytes);
  }

  /** A string that reads as versioned data is, stripped, the text of that data. */
  lemma TextParse(c: Bytes -> Bytes, s: string)
    requires Parsed(c, s).1
    ensures Text(c, Parsed(c, s).0) == Strip(s)
  {
    CheckEncodeDecode(c, s);
    var v := CheckDecoded(c, s).value;
    assert v == [v[0]] + v[1..];
  }

  /** A destination survives the way through an address string and back. */
  method AddressRoundTrip(checksum: Bytes -> Bytes, testNet: bool, dest: Destination)
    returns (s: string, ok: bool, back: Destination)
    requires IsChecksum(checksum) && !dest.NoDestination? && IsId(dest.id)
    ensures ok && back == dest
  {
    var a := new Address(checksum, testNet);
    var done := a.Set(dest);
    s := a.ToString();
    ParseText(checksum, a.View());
    var b := new Address(checksum, testNet);
    ok := b.SetString(s);
    back := b.Get();
  }

  /** A string that is an address is, stripped, the one string for its destination. */
  method StringRoundTrip(checksum: Bytes -> Bytes, testNet: bool, s: string) returns (dest: Destination, again: string)
    requires IsChecksum(checksum)
    ensures !dest.NoDestination? ==> again == Strip(s)
  {
    var a := new Address(checksum, testNet);
    var ok := a.SetString(s);
    dest := a.Get();
    again := [];
    if !dest.NoDestination? {
      TextParse(checksum, s);
      CheckEncodeDecode(checksum, s);
      var b := new Address(checksum, testNet);
      var done := b.Set(dest);
      assert b.View() == a.View();
      again := b.ToString();
    }
  }
}
