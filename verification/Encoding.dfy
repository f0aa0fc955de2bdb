/** Byte-level encodings: UTF-8, and the fixed-width little-endian layout of bincode 1
    (8-byte length prefixes, no padding) that every signed or sealed value of ce-mail uses.
    A Rust `String` is modelled as its sequence of Unicode scalar values. */
module Encoding {

  type byte = b: int | 0 <= b < 256
  type Bytes = seq<byte>

  const U64_LIMIT: nat := 0x1_0000_0000_0000_0000
  type u64 = n: int | 0 <= n < U64_LIMIT

  /** Result of reading one value off the front of a byte string. */
  datatype Parsed<+T> = Parsed(value: T, rest: Bytes) | Malformed

  datatype Option<+T> = None | Some(value: T)

  // ---- little-endian integers ----

  function LittleEndian(n: nat, width: nat): (bs: Bytes)
    ensures |bs| == width
  {
    if width == 0 then [] else [n % 256] + LittleEndian(n / 256, width - 1)
  }

  function FromLittleEndian(bs: Bytes): nat {
    if bs == [] then 0 else bs[0] + 256 * FromLittleEndian(bs[1..])
  }

  function Pow256(width: nat): nat {
    if width == 0 then 1 else 256 * Pow256(width - 1)
  }

  lemma {:induction false} LittleEndianRoundTrip(n: nat, width: nat)
    requires n < Pow256(width)
    ensures FromLittleEndian(LittleEndian(n, width)) == n
  {
    if width > 0 {
      LittleEndianRoundTrip(n / 256, width - 1);
    }
  }

  lemma {:induction false} LittleEndianOf(bs: Bytes)
    ensures LittleEndian(FromLittleEndian(bs), |bs|) == bs
  {
    if bs != [] {
      LittleEndianOf(bs[1..]);
      var low: int, high := bs[0], FromLittleEndian(bs[1..]);
      LowByte(low, high);
      assert FromLittleEndian(bs) == low + 256 * high;
      assert bs == [bs[0]] + bs[1..];
    }
  }

  lemma LowByte(low: int, high: nat)
    requires 0 <= low < 256
    ensures (low + 256 * high) % 256 == low && (low + 256 * high) / 256 == high
  {
  }

  function EncodeU64(n: nat): (bs: Bytes)
    ensures |bs| == 8
  {
    LittleEndian(n, 8)
  }

  /** The value of up to eight bytes, the least significant first. */
  ghost function ByteSum(b: Bytes): nat
    requires |b| == 8
  {
    var b0: int, b1: int, b2: int, b3: int := b[0], b[1], b[2], b[3];
    var b4: int, b5: int, b6: int, b7: int := b[4], b[5], b[6], b[7];
    b0 + 0x100 * b1 + 0x1_0000 * b2 + 0x100_0000 * b3
    + 0x1_0000_0000 * b4 + 0x100_0000_0000 * b5 + 0x1_0000_0000_0000 * b6 + 0x100_0000_0000_0000 * b7
  }

  /** The least significant byte comes first. */
  lemma U64Digits(n: u64)
    ensures ByteSum(EncodeU64(n)) == n
  {
    hide ByteSum;
    var b := EncodeU64(n);
    U64RoundTrip(n, []);
    assert b + [] == b && b[..8] == b;
    EightDigits(b);
  }

  lemma EightDigits(b: Bytes)
    requires |b| == 8
    ensures FromLittleEndian(b) == ByteSum(b)
  {
    var c := b[4..];
    FourBytes(c);
    FourBytes(b[..4]);
    FourThenRest(b);
  }

  lemma FourThenRest(b: Bytes)
    requires |b| == 8
    ensures FromLittleEndian(b) == FromLittleEndian(b[..4]) + 0x1_0000_0000 * FromLittleEndian(b[4..])
  {
    FromConcat(b[..4], b[4..]);
    assert b == b[..4] + b[4..];
    assert Pow256(4) == 0x1_0000_0000;
  }

  lemma {:induction false} FromConcat(a: Bytes, b: Bytes)
    ensures FromLittleEndian(a + b) == FromLittleEndian(a) + Pow256(|a|) * FromLittleEndian(b)
  {
    if a == [] {
      assert a + b == b;
    } else {
      assert (a + b)[1..] == a[1..] + b;
      FromConcat(a[1..], b);
    }
  }

  lemma FourBytes(c: Bytes)
    requires |c| == 4
    ensures var c0: int, c1: int, c2: int, c3: int := c[0], c[1], c[2], c[3];
      FromLittleEndian(c) == c0 + 0x100 * c1 + 0x1_0000 * c2 + 0x100_0000 * c3
  {
    assert c[1..][1..] == c[2..] && c[2..][1..] == c[3..] && c[3..][1..] == [];
    assert FromLittleEndian(c[3..]) == c[3];
    assert FromLittleEndian(c[2..]) == c[2] as int + 0x100 * (c[3] as int);
    assert FromLittleEndian(c[1..]) == c[1] as int + 0x100 * (c[2] as int) + 0x1_0000 * (c[3] as int);
  }

  function DecodeU64(bs: Bytes): (p: Parsed<nat>)
    ensures p.Parsed? ==> |p.rest| + 8 == |bs|
  {
    if |bs| < 8 then Malformed else Parsed(FromLittleEndian(bs[..8]), bs[8..])
  }

  lemma U64RoundTrip(n: nat, rest: Bytes)
    requires n < U64_LIMIT
    ensures DecodeU64(EncodeU64(n) + rest) == Parsed(n, rest)
  {
    assert Pow256(8) == U64_LIMIT by {
      assert Pow256(4) == 0x1_0000_0000;
    }
    LittleEndianRoundTrip(n, 8);
    assert (EncodeU64(n) + rest)[..8] == EncodeU64(n);
  }

  // ---- UTF-8 ----

  function EncodeChar(c: char): (bs: Bytes)
    ensures 1 <= |bs| <= 4
  {
    var n := c as int;
    if n < 0x80 then [n]
    else if n < 0x800 then [0xC0 + n / 64, 0x80 + n % 64]
    else if n < 0x1_0000 then [0xE0 + n / 4096, 0x80 + n / 64 % 64, 0x80 + n % 64]
    else [0xF0 + n / 262144, 0x80 + n / 4096 % 64, 0x80 + n / 64 % 64, 0x80 + n % 64]
  }

  predicate IsContinuation(b: byte) {
    0x80 <= b < 0xC0
  }

  /** Reads one scalar value, refusing overlong forms, surrogates and values past U+10FFFF. */
  function DecodeChar(bs: Bytes): (p: Parsed<char>)
    ensures p.Parsed? ==> |p.rest| < |bs|
  {
    if |bs| >= 1 && bs[0] < 0x80 then
      Parsed(bs[0] as char, bs[1..])
    else if |bs| >= 2 && 0xC2 <= bs[0] < 0xE0 && IsContinuation(bs[1]) then
      var b0: int, b1: int := bs[0], bs[1];
      Parsed(((b0 - 0xC0) * 64 + (b1 - 0x80)) as char, bs[2..])
    else if |bs| >= 3 && 0xE0 <= bs[0] < 0xF0 && IsContinuation(bs[1]) && IsContinuation(bs[2]) then
      var b0: int, b1: int, b2: int := bs[0], bs[1], bs[2];
      var n := (b0 - 0xE0) * 4096 + (b1 - 0x80) * 64 + (b2 - 0x80);
      if 0x800 <= n < 0xD800 || 0xE000 <= n then Parsed(n as char, bs[3..]) else Malformed
    else if |bs| >= 4 && 0xF0 <= bs[0] < 0xF5
            && IsContinuation(bs[1]) && IsContinuation(bs[2]) && IsContinuation(bs[3]) then
      var b0: int, b1: int, b2: int, b3: int := bs[0], bs[1], bs[2], bs[3];
      var n := (b0 - 0xF0) * 262144 + (b1 - 0x80) * 4096 + (b2 - 0x80) * 64 + (b3 - 0x80);
      if 0x1_0000 <= n < 0x11_0000 then Parsed(n as char, bs[4..]) else Malformed
    else
      Malformed
  }

  lemma CharRoundTrip(c: char, rest: Bytes)
    ensures DecodeChar(EncodeChar(c) + rest) == Parsed(c, rest)
  {
    if c as int < 0x800 {
      ShortRoundTrip(c, rest);
    } else if c as int < 0x1_0000 {
      ThreeByteRoundTrip(c, rest);
    } else {
      FourByteRoundTrip(c, rest);
    }
  }

  lemma ShortRoundTrip(c: char, rest: Bytes)
    requires c as int < 0x800
    ensures DecodeChar(EncodeChar(c) + rest) == Parsed(c, rest)
  {
    var e := EncodeChar(c);
    var bs := e + rest;
    assert bs[|e|..] == rest && bs[0] == e[0];
    if c as int >= 0x80 {
      assert bs[1] == e[1] && 0xC2 <= bs[0] < 0xE0;
    }
  }

  lemma ThreeByteRoundTrip(c: char, rest: Bytes)
    requires 0x800 <= c as int < 0x1_0000
    ensures DecodeChar(EncodeChar(c) + rest) == Parsed(c, rest)
  {
    var n, e := c as int, EncodeChar(c);
    var bs := e + rest;
    assert bs[3..] == rest && bs[0] == e[0] && bs[1] == e[1] && bs[2] == e[2];
    TwelveBits(n);
  }

  /** The base-64 digits of a scalar value in the basic plane. */
  lemma TwelveBits(n: nat)
    requires n < 0x1_0000
    ensures n / 4096 < 16
    ensures n == n / 4096 * 4096 + n / 64 % 64 * 64 + n % 64
  {
    assert n / 64 == n / 4096 * 64 + n / 64 % 64;
  }

  /** The base-64 digits of a scalar value outside the basic plane. */
  lemma SixBitDigits(n: nat)
    requires 0x1_0000 <= n < 0x11_0000
    ensures 0 <= n / 262144 < 5
    ensures n == n / 262144 * 262144 + n / 4096 % 64 * 4096 + n / 64 % 64 * 64 + n % 64
  {
    assert n == n / 64 * 64 + n % 64;
    assert n / 64 == n / 4096 * 64 + n / 64 % 64;
    assert n / 4096 == n / 262144 * 64 + n / 4096 % 64;
  }

  lemma FourByteRoundTrip(c: char, rest: Bytes)
    requires c as int >= 0x1_0000
    ensures DecodeChar(EncodeChar(c) + rest) == Parsed(c, rest)
  {
    SixBitDigits(c as int);
    var bs := EncodeChar(c) + rest;
    assert bs[4..] == rest;
    assert bs[0] == EncodeChar(c)[0] && bs[1] == EncodeChar(c)[1];
    assert bs[2] == EncodeChar(c)[2] && bs[3] == EncodeChar(c)[3];
  }

  function Utf8(s: string): Bytes {
    if s == [] then [] else EncodeChar(s[0]) + Utf8(s[1..])
  }

  function DecodeUtf8(bs: Bytes): Option<string>
    decreases |bs|
  {
    if bs == [] then Some([]) else
    match DecodeChar(bs)
    case Malformed => None
    case Parsed(c, rest) =>
      match DecodeUtf8(rest)
      case None => None
      case Some(s) => Some([c] + s)
  }

  lemma {:induction false} Utf8RoundTrip(s: string)
    ensures DecodeUtf8(Utf8(s)) == Some(s)
  {
    if s != [] {
      CharRoundTrip(s[0], Utf8(s[1..]));
      Utf8RoundTrip(s[1..]);
      assert [s[0]] + s[1..] == s;
    }
  }

  /** Every Rust buffer holds at most isize::MAX bytes, so its length fits a u64 prefix. */
  predicate FitsPrefix(s: string) {
    |Utf8(s)| < U64_LIMIT
  }

  // ---- length-prefixed values ----

  function EncodeBytes(bs: Bytes): Bytes {
    EncodeU64(|bs|) + bs
  }

  function DecodeBytes(bs: Bytes): (p: Parsed<Bytes>)
    ensures p.Parsed? ==> |p.rest| < |bs|
  {
    match DecodeU64(bs)
    case Malformed => Malformed
    case Parsed(n, rest) => if n <= |rest| then Parsed(rest[..n], rest[n..]) else Malformed
  }

  lemma BytesRoundTrip(bs: Bytes, rest: Bytes)
    requires |bs| < U64_LIMIT
    ensures DecodeBytes(EncodeBytes(bs) + rest) == Parsed(bs, rest)
  {
    U64RoundTrip(|bs|, bs + rest);
    assert EncodeBytes(bs) + rest == EncodeU64(|bs|) + (bs + rest);
  }

  function EncodeString(s: string): Bytes {
    EncodeBytes(Utf8(s))
  }

  function DecodeString(bs: Bytes): (p: Parsed<string>)
    ensures p.Parsed? ==> |p.rest| < |bs|
  {
    match DecodeBytes(bs)
    case Malformed => Malformed
    case Parsed(text, rest) =>
      match DecodeUtf8(text)
      case None => Malformed
      case Some(s) => Parsed(s, rest)
  }

  lemma StringRoundTrip(s: string, rest: Bytes)
    requires FitsPrefix(s)
    ensures DecodeString(EncodeString(s) + rest) == Parsed(s, rest)
  {
    BytesRoundTrip(Utf8(s), rest);
    Utf8RoundTrip(s);
  }

  function ConcatStrings(ss: seq<string>): Bytes {
    if ss == [] then [] else EncodeString(ss[0]) + ConcatStrings(ss[1..])
  }

  function EncodeStrings(ss: seq<string>): Bytes {
    EncodeU64(|ss|) + ConcatStrings(ss)
  }

  function DecodeCount(bs: Bytes, count: nat): Parsed<seq<string>>
    decreases count
  {
    if count == 0 then Parsed([], bs) else
    match DecodeString(bs)
    case Malformed => Malformed
    case Parsed(s, rest) =>
      match DecodeCount(rest, count - 1)
      case Malformed => Malformed
      case Parsed(ss, rest') => Parsed([s] + ss, rest')
  }

  function DecodeStrings(bs: Bytes): Parsed<seq<string>> {
    match DecodeU64(bs)
    case Malformed => Malformed
    case Parsed(n, rest) => DecodeCount(rest, n)
  }

  lemma {:induction false} CountRoundTrip(ss: seq<string>, rest: Bytes)
    requires forall s :: s in ss ==> FitsPrefix(s)
    ensures DecodeCount(ConcatStrings(ss) + rest, |ss|) == Parsed(ss, rest)
  {
    hide EncodeString, DecodeString, FitsPrefix;
    if ss == [] {
      assert ConcatStrings(ss) + rest == rest;
    } else {
      var tail := ConcatStrings(ss[1..]) + rest;
      var bs := EncodeString(ss[0]) + tail;
      assert ConcatStrings(ss) + rest == bs;
      StringRoundTrip(ss[0], tail);
      assert FitsPrefix(ss[0]);
      CountRoundTrip(ss[1..], rest);
      assert DecodeString(bs) == Parsed(ss[0], tail);
      assert DecodeCount(tail, |ss| - 1) == Parsed(ss[1..], rest);
      assert [ss[0]] + ss[1..] == ss;
    }
  }

  lemma StringsRoundTrip(ss: seq<string>, rest: Bytes)
    requires |ss| < U64_LIMIT && forall s :: s in ss ==> FitsPrefix(s)
    ensures DecodeStrings(EncodeStrings(ss) + rest) == Parsed(ss, rest)
  {
    U64RoundTrip(|ss|, ConcatStrings(ss) + rest);
    CountRoundTrip(ss, rest);
    assert EncodeStrings(ss) + rest == EncodeU64(|ss|) + (ConcatStrings(ss) + rest);
  }
}
