/** Primitive readers over a byte buffer: big-endian words, opaque
    doubles and length-prefixed, 4-byte-padded strings
    (src/binary/mod.rs, `parse_int`, `peek_u32`, `read_u32`, `read_f64`,
    `parse_string`). */
module Bytes {
  import opened Results
  import Utf8

  type u8 = x: int | 0 <= x < 0x100

  const U32_LIMIT: nat := 0x1_0000_0000

  /** The range of an `i64` is `[-I64_LIMIT, I64_LIMIT)`. */
  const I64_LIMIT: int := 0x8000_0000_0000_0000

  /** 2^64: the range of `usize`. */
  const USIZE_LIMIT: nat := 0x1_0000_0000_0000_0000

  /** `v as usize` for a signed value of at most 64 bits: two's complement,
      so a negative value lands in the upper half of the range. */
  function AsUsize(v: int): (u: nat)
    requires -I64_LIMIT <= v < I64_LIMIT
    ensures u < USIZE_LIMIT && u % USIZE_LIMIT == v % USIZE_LIMIT
    ensures v >= 0 ==> u == v
    ensures v < 0 ==> u >= I64_LIMIT
  {
    if v >= 0 then v else USIZE_LIMIT + v
  }

  function Pow256(n: nat): (p: nat)
    ensures p > 0
  {
    if n == 0 then 1 else 256 * Pow256(n - 1)
  }

  /** The unsigned value of `b`, most significant byte first. */
  function BigEndian(b: seq<u8>): nat
  {
    if |b| == 0 then 0 else BigEndian(b[..|b| - 1]) * 256 + b[|b| - 1]
  }

  /** The `n` bytes that spell `v` most significant byte first. */
  function ToBigEndian(v: nat, n: nat): (b: seq<u8>)
    requires v < Pow256(n)
    ensures |b| == n
  {
    if n == 0 then [] else ToBigEndian(v / 256, n - 1) + [v % 256]
  }

  lemma {:induction false} BigEndianBound(b: seq<u8>)
    ensures BigEndian(b) < Pow256(|b|)
  {
    if |b| > 0 {
      BigEndianBound(b[..|b| - 1]);
    }
  }

  /** Reading back what was written gives the value. */
  lemma {:induction false} DecodeEncode(v: nat, n: nat)
    requires v < Pow256(n)
    ensures BigEndian(ToBigEndian(v, n)) == v
  {
    if n > 0 {
      var b := ToBigEndian(v, n);
      assert b[..n - 1] == ToBigEndian(v / 256, n - 1);
      DecodeEncode(v / 256, n - 1);
    }
  }

  /** Writing what was read gives the bytes back. */
  lemma {:induction false} EncodeDecode(b: seq<u8>)
    ensures BigEndian(b) < Pow256(|b|)
    ensures ToBigEndian(BigEndian(b), |b|) == b
  {
    BigEndianBound(b);
    if |b| > 0 {
      var init := b[..|b| - 1];
      var v := BigEndian(b);
      assert v == BigEndian(init) * 256 + b[|b| - 1];
      assert v / 256 == BigEndian(init);
      assert v % 256 == b[|b| - 1];
      EncodeDecode(init);
      assert init + [b[|b| - 1]] == b;
    }
  }

  lemma Pow256Values()
    ensures Pow256(4) == U32_LIMIT
    ensures Pow256(8) == 0x1_0000_0000_0000_0000
  {
  }

  /** The word at the head of `data`, most significant byte first. */
  function TagAt(data: seq<u8>): (v: nat)
    requires |data| >= 4
    ensures v < U32_LIMIT
  {
    BigEndianBound(data[..4]);
    Pow256Values();
    BigEndian(data[..4])
  }

  /** `read_u32` / `parse_int`: the head word and the bytes after it. */
  function ReadU32(data: seq<u8>): (r: Result<(nat, seq<u8>)>)
    ensures r.Ok? <==> |data| >= 4
    ensures r.Ok? ==> r.value == (TagAt(data), data[4..])
  {
    if |data| < 4 then Fail(OutOfBounds)
    else Ok((TagAt(data), data[4..]))
  }

  /** `peek_u32`: the same word as `ReadU32`, nothing consumed. */
  function PeekU32(data: seq<u8>): (r: Result<nat>)
    ensures r.Ok? <==> |data| >= 4
    ensures r.Ok? ==> ReadU32(data) == Ok((r.value, data[4..]))
  {
    if |data| < 4 then Fail(OutOfBounds)
    else Ok(TagAt(data))
  }

  /** What `ReadU32` consumed is exactly the encoding of the word it returned. */
  lemma ReadU32Splits(data: seq<u8>)
    requires |data| >= 4
    ensures TagAt(data) < Pow256(4)
    ensures data == ToBigEndian(TagAt(data), 4) + data[4..]
  {
    Pow256Values();
    EncodeDecode(data[..4]);
    assert data == data[..4] + data[4..];
  }

  /** The word read at offset `at` re-encodes to the four bytes found there. */
  lemma WordAt(data: seq<u8>, at: nat)
    requires at + 4 <= |data|
    ensures TagAt(data[at..]) < Pow256(4)
    ensures ToBigEndian(TagAt(data[at..]), 4) == data[at..at + 4]
  {
    Pow256Values();
    assert data[at..][..4] == data[at..at + 4];
    EncodeDecode(data[at..at + 4]);
  }

  lemma ReadU32Of(v: nat, rest: seq<u8>)
    requires v < U32_LIMIT
    ensures ReadU32(ToBigEndian(v, 4) + rest) == Ok((v, rest))
  {
    Pow256Values();
    var data := ToBigEndian(v, 4) + rest;
    assert data[..4] == ToBigEndian(v, 4);
    DecodeEncode(v, 4);
    assert data[4..] == rest;
  }

  lemma TagAtOf(v: nat, rest: seq<u8>)
    requires v < U32_LIMIT
    ensures |ToBigEndian(v, 4) + rest| >= 4 && TagAt(ToBigEndian(v, 4) + rest) == v
  {
    Pow256Values();
    var data := ToBigEndian(v, 4) + rest;
    assert data[..4] == ToBigEndian(v, 4);
    DecodeEncode(v, 4);
  }

  /** A double, kept as its 64-bit pattern; nothing here interprets it. */
  datatype Float64 = Float64(bits: nat)

  /** The double stored at byte `at` of `buf`. */
  function DoubleAt(buf: seq<u8>, at: nat): (x: Float64)
    requires at + 8 <= |buf|
    ensures x.bits < Pow256(8)
  {
    BigEndianBound(buf[at..at + 8]);
    Float64(BigEndian(buf[at..at + 8]))
  }

  /** `read_f64`: the double at the head and the bytes after it. */
  function ReadF64(data: seq<u8>): (r: Result<(Float64, seq<u8>)>)
    ensures r.Ok? <==> |data| >= 8
    ensures r.Ok? ==> r.value == (DoubleAt(data, 0), data[8..])
  {
    if |data| < 8 then Fail(OutOfBounds)
    else Ok((DoubleAt(data, 0), data[8..]))
  }

  lemma ReadF64Of(x: Float64, rest: seq<u8>)
    requires x.bits < Pow256(8)
    ensures ReadF64(ToBigEndian(x.bits, 8) + rest) == Ok((x, rest))
  {
    var data := ToBigEndian(x.bits, 8) + rest;
    assert data[0..8] == ToBigEndian(x.bits, 8);
    DecodeEncode(x.bits, 8);
    assert data[8..] == rest;
  }

  lemma DoubleAtShift(data: seq<u8>, k: nat)
    requires k <= |data|
    ensures forall at: nat :: k + at + 8 <= |data| ==> DoubleAt(data[k..], at) == DoubleAt(data, k + at)
  {
    forall at: nat | k + at + 8 <= |data|
      ensures DoubleAt(data[k..], at) == DoubleAt(data, k + at)
    {
      assert data[k..][at..at + 8] == data[k + at..k + at + 8];
    }
  }

  /** `n` consecutive doubles, as the value decoder's `for _ in 0..window_count` loops read them. */
  function ReadDoubles(data: seq<u8>, n: nat): (r: Result<(seq<Float64>, seq<u8>)>)
    ensures r.Ok? <==> |data| >= 8 * n
    ensures r.Ok? ==> |r.value.0| == n && r.value.1 == data[8 * n..]
    ensures r.Ok? ==> forall i :: 0 <= i < n ==> r.value.0[i] == DoubleAt(data, 8 * i)
  {
    if n == 0 then Ok(([], data))
    else
      var (x, rest) :- ReadF64(data);
      var (xs, rest2) :- ReadDoubles(rest, n - 1);
      assert rest == data[8..];
      assert x == DoubleAt(data, 0) by { assert data[..8] == data[0..8]; }
      DoubleAtShift(data, 8);
      Ok(([x] + xs, rest2))
  }

  /** `n` consecutive (real, imaginary) pairs of doubles. */
  function ReadPairs(data: seq<u8>, n: nat): (r: Result<(seq<(Float64, Float64)>, seq<u8>)>)
    ensures r.Ok? <==> |data| >= 16 * n
    ensures r.Ok? ==> |r.value.0| == n && r.value.1 == data[16 * n..]
    ensures r.Ok? ==> forall i :: 0 <= i < n ==>
              r.value.0[i] == (DoubleAt(data, 16 * i), DoubleAt(data, 16 * i + 8))
  {
    if n == 0 then Ok(([], data))
    else
      var (re, rest) :- ReadF64(data);
      var (im, rest1) :- ReadF64(rest);
      var (ps, rest2) :- ReadPairs(rest1, n - 1);
      assert rest == data[8..] && rest1 == data[16..];
      assert re == DoubleAt(data, 0) by { assert data[..8] == data[0..8]; }
      assert im == DoubleAt(data, 8) by { assert rest[..8] == data[8..16]; }
      DoubleAtShift(data, 16);
      Ok(([(re, im)] + ps, rest2))
  }

  /** The `n` doubles stored from offset `start` of `buf`. */
  function DoublesFrom(buf: seq<u8>, start: nat, n: nat): (xs: seq<Float64>)
    requires start + 8 * n <= |buf|
    ensures |xs| == n
  {
    seq(n, i requires 0 <= i < n => DoubleAt(buf, start + 8 * i))
  }

  /** The `n` (real, imaginary) pairs stored from offset `start` of `buf`. */
  function PairsFrom(buf: seq<u8>, start: nat, n: nat): (ps: seq<(Float64, Float64)>)
    requires start + 16 * n <= |buf|
    ensures |ps| == n
  {
    seq(n, i requires 0 <= i < n => (DoubleAt(buf, start + 16 * i), DoubleAt(buf, start + 16 * i + 8)))
  }

  /** Reading `n` doubles at offset `start` yields the doubles stored there. */
  lemma ReadDoublesFrom(buf: seq<u8>, start: nat, n: nat)
    requires start <= |buf|
    ensures ReadDoubles(buf[start..], n).Ok? <==> start + 8 * n <= |buf|
    ensures ReadDoubles(buf[start..], n).Ok? ==> ReadDoubles(buf[start..], n).value.0 == DoublesFrom(buf, start, n)
  {
    if start + 8 * n <= |buf| {
      DoubleAtShift(buf, start);
      var xs := ReadDoubles(buf[start..], n).value.0;
      assert forall i :: 0 <= i < n ==> xs[i] == DoublesFrom(buf, start, n)[i];
    }
  }

  /** Reading `n` pairs at offset `start` yields the pairs stored there. */
  lemma ReadPairsFrom(buf: seq<u8>, start: nat, n: nat)
    requires start <= |buf|
    ensures ReadPairs(buf[start..], n).Ok? <==> start + 16 * n <= |buf|
    ensures ReadPairs(buf[start..], n).Ok? ==> ReadPairs(buf[start..], n).value.0 == PairsFrom(buf, start, n)
  {
    if start + 16 * n <= |buf| {
      DoubleAtShift(buf, start);
      var ps := ReadPairs(buf[start..], n).value.0;
      assert forall i :: 0 <= i < n ==> ps[i] == PairsFrom(buf, start, n)[i];
    }
  }

  /** Padding after a string of length `len`: up to the next multiple of
      four, and none when `len` already is one. */
  function Pad(len: nat): nat
  {
    (4 - len % 4) % 4
  }

  lemma PadCases(len: nat)
    ensures len % 4 == 0 ==> Pad(len) == 0
    ensures len % 4 != 0 ==> Pad(len) == 4 - len % 4
  {
  }

  /** `parse_string`: a u32 length `L`, then `L` bytes that must be
      well-formed UTF-8, then `Pad(L)` skipped bytes. */
  function ParseString(data: seq<u8>): (r: Result<(seq<u8>, seq<u8>)>)
    ensures r.Ok? <==>
              |data| >= 4 && var len := TagAt(data);
              |data| >= 4 + len + Pad(len) && Utf8.Valid(data[4..4 + len])
    ensures r.Ok? ==>
              var (s, rest) := r.value;
              && |s| == TagAt(data)
              && s == data[4..4 + |s|]
              && rest == data[4 + |s| + Pad(|s|)..]
              && Utf8.Valid(s)
  {
    var (len, d) :- ReadU32(data);
    PadCases(len);
    if len > |d| then Fail(OutOfBounds)
    else if (assert data[4..4 + len] == d[..len]; !Utf8.Valid(d[..len])) then Fail(Utf8Error)
    else if len % 4 == 0 then Ok((d[..len], d[len..]))
    else if len + 4 - len % 4 > |d| then Fail(OutOfBounds)
    else Ok((d[..len], d[len + 4 - len % 4..]))
  }

  /** A string occupies its length word plus the smallest multiple of four
      that holds its bytes. */
  lemma StringConsumption(data: seq<u8>)
    requires ParseString(data).Ok?
    ensures var (s, rest) := ParseString(data).value;
            && (|data| - |rest|) % 4 == 0
            && 4 + |s| <= |data| - |rest| < 8 + |s|
  {
  }

  /** A string as the format stores it: length word, bytes, zero padding. */
  function EncodeString(s: seq<u8>): (b: seq<u8>)
    requires |s| < U32_LIMIT
    ensures |b| == 4 + |s| + Pad(|s|)
  {
    Pow256Values();
    ToBigEndian(|s|, 4) + s + seq(Pad(|s|), _ => 0)
  }

  /** Parsing an encoded string returns it and exactly what followed it. */
  lemma StringRoundTrip(s: seq<u8>, rest: seq<u8>)
    requires |s| < U32_LIMIT && Utf8.Valid(s)
    ensures ParseString(EncodeString(s) + rest) == Ok((s, rest))
  {
    Pow256Values();
    var pad: seq<u8> := seq(Pad(|s|), _ => 0);
    var data := EncodeString(s) + rest;
    var head := ToBigEndian(|s|, 4);
    var tail := s + pad + rest;
    assert data == head + tail;
    assert |head| == 4;
    assert data[..4] == head by { assert (head + tail)[..|head|] == head; }
    assert data[4..] == tail by { assert (head + tail)[|head|..] == tail; }
    DecodeEncode(|s|, 4);
    assert TagAt(data) == |s|;
    assert data[4..4 + |s|] == tail[..|s|] == s;
    assert data[4 + |s| + Pad(|s|)..] == tail[|s| + Pad(|s|)..] == rest;
    var r := ParseString(data);
    assert r.Ok?;
    assert r.value.0 == s && r.value.1 == rest;
  }

  /** The three padding boundaries the format relies on. */
  lemma PaddingBoundaries()
    ensures Pad(0) == 0 && Pad(1) == 3 && Pad(2) == 2 && Pad(3) == 1
    ensures Pad(4) == 0 && Pad(5) == 3 && Pad(8) == 0
    ensures forall len: nat :: (len + Pad(len)) % 4 == 0 && Pad(len) < 4
  {
  }

  /** The bytes of an ASCII text, one byte per character. */
  function Ascii(s: string): (b: seq<u8>)
    requires forall i :: 0 <= i < |s| ==> s[i] as int < 0x80
    ensures |b| == |s|
  {
    seq(|s|, i requires 0 <= i < |s| => s[i] as int)
  }
}
