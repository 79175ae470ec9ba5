/**
 * The UTF-8 codec of utf.c (the encoding of section 3 of RFC 3629, without
 * the rejection of overlong forms or surrogates): byte-count classifiers,
 * encoding into a byte buffer, decoding with its three failure cases,
 * counting code points, stepping over code points in a NUL-terminated
 * string, and re-encoding a range of a string.
 */
module Utf {
  import opened Wrappers

  type byte = bv8

  /** lit_decode_num_bytes: how long a sequence its lead byte announces (0 for a continuation byte). */
  function DecodeNumBytes(b: byte): (n: nat)
    ensures n <= 4
    ensures n == 0 <==> IsContinuation(b)
  {
    if b & 0xc0 == 0x80 then 0
    else if b & 0xf8 == 0xf0 then 4
    else if b & 0xf0 == 0xe0 then 3
    else if b & 0xe0 == 0xc0 then 2
    else 1
  }

  /** A byte of the form 10xxxxxx. */
  predicate IsContinuation(b: byte) { b & 0xc0 == 0x80 }

  /** A C `int`, as its 32-bit two's complement word. */
  type Int32 = bv32

  const MINUS_ONE: Int32 := 0xffff_ffff

  /** The signed comparison v <= c of the source, for a non-negative constant c. */
  predicate SignedAtMost(v: Int32, c: Int32)
    requires c < 0x8000_0000
  {
    v >= 0x8000_0000 || v <= c
  }

  /** lit_encode_num_bytes: how many bytes the encoding of a code point takes (0 above U+10FFFF). */
  function EncodeNumBytes(v: Int32): (n: nat)
    ensures n == 1 <==> SignedAtMost(v, 0x7f)
    ensures n == 2 <==> 0x7f < v <= 0x7ff
    ensures n == 3 <==> 0x7ff < v <= 0xffff
    ensures n == 4 <==> 0xffff < v <= 0x10ffff
    ensures n == 0 <==> 0x10ffff < v < 0x8000_0000
  {
    if SignedAtMost(v, 0x7f) then 1
    else if v <= 0x7ff then 2
    else if v <= 0xffff then 3
    else if v <= 0x10ffff then 4
    else 0
  }

  /** The values lit_ustring_encode accepts (larger ones reach its UNREACHABLE assertion). */
  predicate Encodable(v: Int32) { SignedAtMost(v, 0x10ffff) }

  /** The bytes lit_ustring_encode writes for a value it accepts. */
  function Encoding(v: Int32): (bs: seq<byte>)
    requires Encodable(v)
    ensures |bs| == EncodeNumBytes(v)
  {
    if SignedAtMost(v, 0x7f) then [(v & 0x7f) as byte]
    else if v <= 0x7ff then
      [(0xc0 | ((v & 0x7c0) >> 6)) as byte, (0x80 | (v & 0x3f)) as byte]
    else if v <= 0xffff then
      [(0xe0 | ((v & 0xf000) >> 12)) as byte, (0x80 | ((v & 0xfc0) >> 6)) as byte,
       (0x80 | (v & 0x3f)) as byte]
    else
      [(0xf0 | ((v & 0x1c0000) >> 18)) as byte, (0x80 | ((v & 0x3f000) >> 12)) as byte,
       (0x80 | ((v & 0xfc0) >> 6)) as byte, (0x80 | (v & 0x3f)) as byte]
  }

  /**
   * lit_ustring_encode: writes the encoding of v at bytes[at..] and returns
   * its length, which is lit_encode_num_bytes(v).
   */
  method Encode(v: Int32, bytes: array<byte>, at: nat) returns (n: nat)
    requires Encodable(v)
    requires at + EncodeNumBytes(v) <= bytes.Length
    modifies bytes
    ensures n == EncodeNumBytes(v) && n >= 1
    ensures bytes[at..at + n] == Encoding(v)
    ensures bytes[..at] == old(bytes[..at]) && bytes[at + n..] == old(bytes[at + n..])
  {
    var e := Encoding(v);
    n := |e|;
    var k := 0;
    while k < n
      invariant 0 <= k <= n
      invariant bytes[at..at + k] == e[..k]
      invariant bytes[..at] == old(bytes[..at]) && bytes[at + n..] == old(bytes[at + n..])
    {
      bytes[at + k] := e[k];
      k := k + 1;
    }
  }

  /** The trailing bytes of a sequence, folded into the lead's payload as lit_ustring_decode does. */
  function Trail(value: Int32, t: seq<byte>): Int32
    decreases |t|
  {
    if t == [] then value
    else if t[0] & 0xc0 != 0x80 then MINUS_ONE
    else Trail((value << 6) | (t[0] & 0x3f) as bv32, t[1..])
  }

  /**
   * The value lit_ustring_decode returns for the `length` bytes `bs`: the code
   * point, or -1 when the lead byte is a continuation or invalid byte, when
   * fewer bytes remain than the sequence needs, or when a trailing byte is
   * not of the form 10xxxxxx.
   */
  function DecodeValue(bs: seq<byte>): Int32
    requires |bs| >= 1
  {
    var b := bs[0];
    if b <= 0x7f then b as bv32
    else
      var (value, remaining) :=
        if b & 0xe0 == 0xc0 then ((b & 0x1f) as bv32, 1)
        else if b & 0xf0 == 0xe0 then ((b & 0x0f) as bv32, 2)
        else if b & 0xf8 == 0xf0 then ((b & 0x07) as bv32, 3)
        else (0, 0);
      if remaining == 0 then MINUS_ONE
      else if remaining > |bs| - 1 then MINUS_ONE
      else Trail(value, bs[1..remaining + 1])
  }

  /** lit_ustring_decode */
  method Decode(bs: seq<byte>) returns (r: Int32)
    requires |bs| >= 1
    ensures r == DecodeValue(bs)
  {
    var b := bs[0];
    if b <= 0x7f {
      return b as bv32;
    }
    var value: bv32;
    var remaining: nat;
    if b & 0xe0 == 0xc0 {
      value, remaining := (b & 0x1f) as bv32, 1;
    } else if b & 0xf0 == 0xe0 {
      value, remaining := (b & 0x0f) as bv32, 2;
    } else if b & 0xf8 == 0xf0 {
      value, remaining := (b & 0x07) as bv32, 3;
    } else {
      return MINUS_ONE;
    }
    if remaining > |bs| - 1 {
      return MINUS_ONE;
    }
    r := FoldTrail(bs, value, remaining);
  }

  /** The loop of lit_ustring_decode over the n trailing bytes after the lead. */
  method FoldTrail(bs: seq<byte>, value: Int32, n: nat) returns (r: Int32)
    requires n < |bs|
    ensures r == Trail(value, bs[1..n + 1])
  {
    r := value;
    var remaining := n;
    var k: nat := 0;
    while remaining > 0
      invariant k + remaining == n
      invariant Trail(r, bs[k + 1..n + 1]) == Trail(value, bs[1..n + 1])
    {
      ghost var t := bs[k + 1..n + 1];
      assert t[0] == bs[k + 1] && t[1..] == bs[k + 2..n + 1];
      k := k + 1;
      remaining := remaining - 1;
      if bs[k] & 0xc0 != 0x80 {
        return MINUS_ONE;
      }
      r := (r << 6) | (bs[k] & 0x3f) as bv32;
    }
  }

  /** A trailing byte anywhere that is not of the form 10xxxxxx makes the fold -1. */
  lemma {:induction false} TrailFails(value: Int32, t: seq<byte>, k: nat)
    requires k < |t| && !IsContinuation(t[k])
    ensures Trail(value, t) == MINUS_ONE
    decreases |t|
  {
    if k > 0 && t[0] & 0xc0 == 0x80 {
      TrailFails((value << 6) | (t[0] & 0x3f) as bv32, t[1..], k - 1);
    }
  }

  /**
   * The three ways decoding fails, each of which yields -1: a bad lead
   * byte, too few bytes, and a bad trailing byte at any position of the
   * sequence.
   */
  lemma DecodeFailures(bs: seq<byte>, k: nat)
    requires |bs| >= 1
    ensures IsContinuation(bs[0]) || bs[0] >= 0xf8 ==> DecodeValue(bs) == MINUS_ONE
    ensures 1 < DecodeNumBytes(bs[0]) && bs[0] < 0xf8 && |bs| < DecodeNumBytes(bs[0]) ==>
              DecodeValue(bs) == MINUS_ONE
    ensures (1 < DecodeNumBytes(bs[0]) && bs[0] < 0xf8 && DecodeNumBytes(bs[0]) <= |bs| &&
             1 <= k < DecodeNumBytes(bs[0]) && !IsContinuation(bs[k])) ==> DecodeValue(bs) == MINUS_ONE
  {
    var n := DecodeNumBytes(bs[0]);
    if 1 < n && bs[0] < 0xf8 && n <= |bs| && 1 <= k < n && !IsContinuation(bs[k]) {
      var b := bs[0];
      var value: bv32 :=
        if b & 0xe0 == 0xc0 then (b & 0x1f) as bv32
        else if b & 0xf0 == 0xe0 then (b & 0x0f) as bv32
        else (b & 0x07) as bv32;
      assert bs[1..n][k - 1] == bs[k];
      TrailFails(value, bs[1..n], k - 1);
    }
  }

  /** Decoding the encoding of a code point gives it back, whatever bytes follow. */
  lemma DecodeEncoding(v: Int32, rest: seq<byte>)
    requires v <= 0x10ffff
    ensures DecodeValue(Encoding(v) + rest) == v
  {
    if v <= 0x7f {
      assert (Encoding(v) + rest)[0] == (v & 0x7f) as byte;
    } else if v <= 0x7ff {
      RoundTrip2(v, rest);
    } else if v <= 0xffff {
      RoundTrip3(v, rest);
    } else {
      RoundTrip4(v, rest);
    }
  }

  lemma RoundTrip2(w: Int32, rest: seq<byte>)
    requires 0x7f < w <= 0x7ff
    ensures DecodeValue(Encoding(w) + rest) == w
  {
    var b0, b1 := (0xc0 | ((w & 0x7c0) >> 6)) as byte, (0x80 | (w & 0x3f)) as byte;
    assert Encoding(w) == [b0, b1];
    Bits2(w);
    Decode2(b0, b1, rest);
  }

  lemma Decode2(b0: byte, b1: byte, rest: seq<byte>)
    requires b0 > 0x7f && b0 & 0xe0 == 0xc0 && b1 & 0xc0 == 0x80
    ensures DecodeValue([b0, b1] + rest) == (((b0 & 0x1f) as bv32) << 6) | (b1 & 0x3f) as bv32
  {
    var bs := [b0, b1] + rest;
    assert bs[0] == b0 && bs[1..2] == [b1];
    assert Trail((b0 & 0x1f) as bv32, [b1]) == Trail((((b0 & 0x1f) as bv32) << 6) | (b1 & 0x3f) as bv32, []);
  }

  lemma Bits2(w: bv32)
    requires 0x7f < w <= 0x7ff
    ensures var b0, b1 := (0xc0 | ((w & 0x7c0) >> 6)) as byte, (0x80 | (w & 0x3f)) as byte;
      b0 > 0x7f && b0 & 0xe0 == 0xc0 && b1 & 0xc0 == 0x80 &&
      ((((b0 & 0x1f) as bv32) << 6) | (b1 & 0x3f) as bv32) == w
  {
  }

  lemma RoundTrip3(w: Int32, rest: seq<byte>)
    requires 0x7ff < w <= 0xffff
    ensures DecodeValue(Encoding(w) + rest) == w
  {
    var b0 := (0xe0 | ((w & 0xf000) >> 12)) as byte;
    var b1 := (0x80 | ((w & 0xfc0) >> 6)) as byte;
    var b2 := (0x80 | (w & 0x3f)) as byte;
    assert Encoding(w) == [b0, b1, b2];
    Bits3(w);
    Decode3(b0, b1, b2, rest);
  }

  lemma Decode3(b0: byte, b1: byte, b2: byte, rest: seq<byte>)
    requires b0 > 0x7f && b0 & 0xe0 != 0xc0 && b0 & 0xf0 == 0xe0 && b1 & 0xc0 == 0x80 && b2 & 0xc0 == 0x80
    ensures DecodeValue([b0, b1, b2] + rest) ==
      (((((b0 & 0x0f) as bv32) << 6) | (b1 & 0x3f) as bv32) << 6) | (b2 & 0x3f) as bv32
  {
    var bs := [b0, b1, b2] + rest;
    assert bs[0] == b0 && bs[1..3] == [b1, b2];
    Trail2((b0 & 0x0f) as bv32, b1, b2);
  }

  /** Folding two trailing bytes. */
  lemma Trail2(v0: bv32, b1: byte, b2: byte)
    requires b1 & 0xc0 == 0x80 && b2 & 0xc0 == 0x80
    ensures Trail(v0, [b1, b2]) == (((v0 << 6) | (b1 & 0x3f) as bv32) << 6) | (b2 & 0x3f) as bv32
  {
    var t := [b1, b2];
    var v1 := (v0 << 6) | (b1 & 0x3f) as bv32;
    assert Trail(v0, t) == Trail(v1, [b2]) by {
      assert t[0] == b1 && t[1..] == [b2];
    }
    Trail1(v1, b2);
  }

  /** Folding one trailing byte. */
  lemma Trail1(v: bv32, b: byte)
    requires b & 0xc0 == 0x80
    ensures Trail(v, [b]) == (v << 6) | (b & 0x3f) as bv32
  {
    assert [b][1..] == [];
  }

  lemma Bits3(w: bv32)
    requires 0x7ff < w <= 0xffff
    ensures var b0, b1, b2 := (0xe0 | ((w & 0xf000) >> 12)) as byte,
                              (0x80 | ((w & 0xfc0) >> 6)) as byte, (0x80 | (w & 0x3f)) as byte;
      b0 > 0x7f && b0 & 0xe0 != 0xc0 && b0 & 0xf0 == 0xe0 && b1 & 0xc0 == 0x80 && b2 & 0xc0 == 0x80 &&
      ((((((b0 & 0x0f) as bv32) << 6) | (b1 & 0x3f) as bv32) << 6) | (b2 & 0x3f) as bv32) == w
  {
  }

  lemma RoundTrip4(w: Int32, rest: seq<byte>)
    requires 0xffff < w <= 0x10ffff
    ensures DecodeValue(Encoding(w) + rest) == w
  {
    var b0 := (0xf0 | ((w & 0x1c0000) >> 18)) as byte;
    var b1 := (0x80 | ((w & 0x3f000) >> 12)) as byte;
    var b2 := (0x80 | ((w & 0xfc0) >> 6)) as byte;
    var b3 := (0x80 | (w & 0x3f)) as byte;
    assert Encoding(w) == [b0, b1, b2, b3];
    Bits4(w);
    Decode4(b0, b1, b2, b3, rest);
  }

  lemma Decode4(b0: byte, b1: byte, b2: byte, b3: byte, rest: seq<byte>)
    requires b0 > 0x7f && b0 & 0xe0 != 0xc0 && b0 & 0xf0 != 0xe0 && b0 & 0xf8 == 0xf0
    requires b1 & 0xc0 == 0x80 && b2 & 0xc0 == 0x80 && b3 & 0xc0 == 0x80
    ensures DecodeValue([b0, b1, b2, b3] + rest) ==
      (((((((b0 & 0x07) as bv32) << 6) | (b1 & 0x3f) as bv32) << 6) | (b2 & 0x3f) as bv32) << 6)
        | (b3 & 0x3f) as bv32
  {
    var bs := [b0, b1, b2, b3] + rest;
    assert bs[0] == b0 && bs[1..4] == [b1, b2, b3];
    var v0 := (b0 & 0x07) as bv32;
    assert [b1, b2, b3][1..] == [b2, b3];
    assert Trail(v0, [b1, b2, b3]) == Trail((v0 << 6) | (b1 & 0x3f) as bv32, [b2, b3]);
    Trail2((v0 << 6) | (b1 & 0x3f) as bv32, b2, b3);
  }

  lemma Bits4(w: bv32)
    requires 0xffff < w <= 0x10ffff
    ensures var b0, b1, b2, b3 := (0xf0 | ((w & 0x1c0000) >> 18)) as byte,
                                  (0x80 | ((w & 0x3f000) >> 12)) as byte,
                                  (0x80 | ((w & 0xfc0) >> 6)) as byte, (0x80 | (w & 0x3f)) as byte;
      b0 > 0x7f && b0 & 0xe0 != 0xc0 && b0 & 0xf0 != 0xe0 && b0 & 0xf8 == 0xf0 &&
      b1 & 0xc0 == 0x80 && b2 & 0xc0 == 0x80 && b3 & 0xc0 == 0x80 &&
      ((((((((b0 & 0x07) as bv32) << 6) | (b1 & 0x3f) as bv32) << 6) | (b2 & 0x3f) as bv32) << 6)
        | (b3 & 0x3f) as bv32) == w
  {
  }

  /** The lead byte of an encoding announces the encoding's length; the other bytes are continuations. */
  lemma LeadAnnouncesLength(v: Int32)
    requires v <= 0x10ffff
    ensures DecodeNumBytes(Encoding(v)[0]) == EncodeNumBytes(v)
    ensures forall k :: 1 <= k < |Encoding(v)| ==> IsContinuation(Encoding(v)[k])
  {
  }

  /** A lead-byte walk from i that never stands on a continuation byte. */
  predicate LeadsAdvance(s: seq<byte>, i: nat)
    decreases |s| - i
  {
    i >= |s| || (DecodeNumBytes(s[i]) > 0 && LeadsAdvance(s, i + DecodeNumBytes(s[i])))
  }

  /** The number of sequences the lead-byte walk from i passes. */
  function CountFrom(s: seq<byte>, i: nat): nat
    requires LeadsAdvance(s, i)
    decreases |s| - i
  {
    if i >= |s| then 0 else 1 + CountFrom(s, i + DecodeNumBytes(s[i]))
  }

  /**
   * lit_ustring_length. On a continuation byte at a lead position the
   * source's index stops advancing and the loop never ends, so the
   * lead-byte walk must be well-formed.
   */
  method UStringLength(s: seq<byte>) returns (length: nat)
    requires LeadsAdvance(s, 0)
    ensures length == CountFrom(s, 0)
  {
    length := 0;
    var i := 0;
    while i < |s|
      invariant LeadsAdvance(s, i)
      invariant length + CountFrom(s, i) == CountFrom(s, 0)
      decreases |s| - i
    {
      i := i + DecodeNumBytes(s[i]);
      length := length + 1;
    }
  }

  predicate CodePoints(cps: seq<Int32>) { forall k :: 0 <= k < |cps| ==> cps[k] <= 0x10ffff }

  /** The concatenated encodings of a list of code points. */
  function EncodeAll(cps: seq<Int32>): seq<byte>
    requires CodePoints(cps)
  {
    if cps == [] then [] else Encoding(cps[0]) + EncodeAll(cps[1..])
  }

  lemma {:induction false} WalkShift(a: seq<byte>, b: seq<byte>, j: nat)
    requires LeadsAdvance(b, j)
    ensures LeadsAdvance(a + b, |a| + j) && CountFrom(a + b, |a| + j) == CountFrom(b, j)
    decreases |b| - j
  {
    if j < |b| {
      assert (a + b)[|a| + j] == b[j];
      WalkShift(a, b, j + DecodeNumBytes(b[j]));
    }
  }

  /** Counting the code points of an encoded list gives the number of code points encoded. */
  lemma {:induction false} CountEncodeAll(cps: seq<Int32>)
    requires CodePoints(cps)
    ensures LeadsAdvance(EncodeAll(cps), 0) && CountFrom(EncodeAll(cps), 0) == |cps|
  {
    if cps != [] {
      var e := Encoding(cps[0]);
      var rest := EncodeAll(cps[1..]);
      CountEncodeAll(cps[1..]);
      LeadAnnouncesLength(cps[0]);
      WalkShift(e, rest, 0);
      assert (e + rest)[0] == e[0];
    }
  }

  /** The index of the terminating NUL of a C string. */
  function NulIndex(s: seq<byte>): (i: nat)
    requires 0 in s
    ensures i < |s| && s[i] == 0
    ensures forall j :: 0 <= j < i ==> s[j] != 0
  {
    if s[0] == 0 then 0 else
      assert 0 in s[1..];
      1 + NulIndex(s[1..])
  }

  /** One step of lit_uchar_offset: up to four bytes forward, stopping at the first non-continuation byte. */
  function Step(s: seq<byte>, off: nat): (next: nat)
    requires 0 in s && off < NulIndex(s)
    ensures off < next <= off + 4 && next <= NulIndex(s)
    ensures forall j :: off < j < next ==> IsContinuation(s[j])
    ensures !IsContinuation(s[next]) || next == off + 4
  {
    if !IsContinuation(s[off + 1]) then off + 1
    else if !IsContinuation(s[off + 2]) then off + 2
    else if !IsContinuation(s[off + 3]) then off + 3
    else off + 4
  }

  /** Where stepping `index` code points forward from `off` ends, stopping at the NUL. */
  function OffsetFrom(s: seq<byte>, off: nat, index: int): (r: nat)
    requires 0 in s && off <= NulIndex(s)
    ensures off <= r <= NulIndex(s)
    decreases index
  {
    if index <= 0 || s[off] == 0 then off else OffsetFrom(s, Step(s, off), index - 1)
  }

  /** lit_uchar_offset: the byte offset of code point `index`, never past the terminating NUL. */
  method UCharOffset(s: seq<byte>, index: int) returns (offset: nat)
    requires 0 in s
    ensures offset == OffsetFrom(s, 0, index)
    ensures offset <= NulIndex(s)
  {
    offset := 0;
    var k := index;
    while k > 0 && s[offset] != 0
      invariant offset <= NulIndex(s)
      invariant OffsetFrom(s, offset, k) == OffsetFrom(s, 0, index)
    {
      if !IsContinuation(s[offset + 1]) {
        offset := offset + 1;
      } else if !IsContinuation(s[offset + 2]) {
        offset := offset + 2;
      } else if !IsContinuation(s[offset + 3]) {
        offset := offset + 3;
      } else {
        offset := offset + 4;
      }
      k := k - 1;
    }
  }


  /** Lead bytes F5 to F7 still decode, to values no code point has. */
  lemma DecodeAcceptsHighLead()
    ensures DecodeValue([0xf7, 0xbf, 0xbf, 0xbf]) == 0x1f_ffff
    ensures !Encodable(0x1f_ffff) && EncodeNumBytes(0x1f_ffff) == 0
  {
    var c: seq<byte> := [0xf7, 0xbf, 0xbf, 0xbf];
    assert c + [] == c;
    Decode4(0xf7, 0xbf, 0xbf, 0xbf, []);
    var lead: byte, cont: byte := 0xf7, 0xbf;
    assert (((((((lead & 0x07) as bv32) << 6) | (cont & 0x3f) as bv32) << 6) | (cont & 0x3f) as bv32) << 6)
        | (cont & 0x3f) as bv32 == 0x1f_ffff;
  }

  /** What a sequence with lead byte b decodes to: -1, or a value whose encoding is no longer than b announces, or above U+10FFFF after a four-byte lead. */
  lemma DecodeFits(bs: seq<byte>)
    requires |bs| >= 1
    ensures var r := DecodeValue(bs);
      r == MINUS_ONE || (Encodable(r) && EncodeNumBytes(r) <= DecodeNumBytes(bs[0])) ||
      (DecodeNumBytes(bs[0]) == 4 && 0x10ffff < r < 0x20_0000)
  {
    var b0 := bs[0];
    if b0 <= 0x7f || DecodeValue(bs) == MINUS_ONE {
    } else if b0 & 0xe0 == 0xc0 {
      DecodeFits2(bs);
    } else if b0 & 0xf0 == 0xe0 {
      DecodeFits3(bs);
    } else {
      DecodeFits4(bs);
    }
  }

  lemma DecodeFits2(bs: seq<byte>)
    requires |bs| >= 1 && bs[0] > 0x7f && bs[0] & 0xe0 == 0xc0 && DecodeValue(bs) != MINUS_ONE
    ensures DecodeValue(bs) <= 0x7ff && DecodeNumBytes(bs[0]) == 2
  {
    var b0 := bs[0];
    assert |bs| >= 2 && IsContinuation(bs[1]) by { TrailFirst((b0 & 0x1f) as bv32, bs[1..2]); }
    assert bs == [b0, bs[1]] + bs[2..];
    Decode2(b0, bs[1], bs[2..]);
    Bound2(b0, bs[1]);
  }

  lemma DecodeFits3(bs: seq<byte>)
    requires |bs| >= 1 && bs[0] > 0x7f && bs[0] & 0xe0 != 0xc0 && bs[0] & 0xf0 == 0xe0
    requires DecodeValue(bs) != MINUS_ONE
    ensures DecodeValue(bs) <= 0xffff && DecodeNumBytes(bs[0]) == 3
  {
    var b0 := bs[0];
    assert |bs| >= 3 && IsContinuation(bs[1]) && IsContinuation(bs[2]) by {
      TrailFirst((b0 & 0x0f) as bv32, bs[1..3]);
      if IsContinuation(bs[1]) {
        assert bs[1..3][1..] == bs[2..3];
        TrailFirst(((b0 & 0x0f) as bv32 << 6) | (bs[1] & 0x3f) as bv32, bs[2..3]);
      }
    }
    assert bs == [b0, bs[1], bs[2]] + bs[3..];
    Decode3(b0, bs[1], bs[2], bs[3..]);
    Bound3(b0, bs[1], bs[2]);
  }

  lemma DecodeFits4(bs: seq<byte>)
    requires |bs| >= 1 && bs[0] > 0x7f && bs[0] & 0xe0 != 0xc0 && bs[0] & 0xf0 != 0xe0
    requires DecodeValue(bs) != MINUS_ONE
    ensures DecodeValue(bs) < 0x20_0000 && DecodeNumBytes(bs[0]) == 4
  {
    var b0 := bs[0];
    assert b0 & 0xf8 == 0xf0;
    var v0 := (b0 & 0x07) as bv32;
    assert |bs| >= 4 && IsContinuation(bs[1]) && IsContinuation(bs[2]) && IsContinuation(bs[3]) by {
      TrailFirst(v0, bs[1..4]);
      if IsContinuation(bs[1]) {
        var v1 := (v0 << 6) | (bs[1] & 0x3f) as bv32;
        assert bs[1..4][1..] == bs[2..4];
        TrailFirst(v1, bs[2..4]);
        if IsContinuation(bs[2]) {
          assert bs[2..4][1..] == bs[3..4];
          TrailFirst((v1 << 6) | (bs[2] & 0x3f) as bv32, bs[3..4]);
        }
      }
    }
    assert bs == [b0, bs[1], bs[2], bs[3]] + bs[4..];
    Decode4(b0, bs[1], bs[2], bs[3], bs[4..]);
    Bound4(b0, bs[1], bs[2], bs[3]);
  }

  /** A non-empty fold fails on a first byte that is no continuation, and otherwise continues with it folded in. */
  lemma TrailFirst(v: bv32, t: seq<byte>)
    requires t != []
    ensures !IsContinuation(t[0]) ==> Trail(v, t) == MINUS_ONE
    ensures IsContinuation(t[0]) ==> Trail(v, t) == Trail((v << 6) | (t[0] & 0x3f) as bv32, t[1..])
  {
  }

  lemma Bound2(b0: byte, b1: byte)
    ensures var r := (((b0 & 0x1f) as bv32) << 6) | (b1 & 0x3f) as bv32;
      r <= 0x7ff && (r <= 0x7f || r > 0x7f)
  {
  }

  lemma Bound3(b0: byte, b1: byte, b2: byte)
    ensures (((((b0 & 0x0f) as bv32) << 6) | (b1 & 0x3f) as bv32) << 6) | (b2 & 0x3f) as bv32 <= 0xffff
  {
  }

  lemma Bound4(b0: byte, b1: byte, b2: byte, b3: byte)
    ensures (((((((b0 & 0x07) as bv32) << 6) | (b1 & 0x3f) as bv32) << 6) | (b2 & 0x3f) as bv32) << 6)
        | (b3 & 0x3f) as bv32 < 0x20_0000
  {
  }

  /** The byte at p of a string's chars, reading the terminating NUL at p == |chars|. */
  function ByteAt(chars: seq<byte>, p: nat): byte
  {
    if p < |chars| then chars[p] else 0
  }

  /** What lit_ustring_decode returns at p, given the bytes from p to the end of the string. */
  function DecodeAt(chars: seq<byte>, p: nat): Int32
  {
    if p < |chars| then DecodeValue(chars[p..]) else 0
  }

  /** The length the first loop of lit_ustring_from_range adds up: the lead-byte counts of count positions from start. */
  function RangeLength(chars: seq<byte>, start: nat, count: nat): nat
  {
    if count == 0 then 0 else RangeLength(chars, start, count - 1) + DecodeNumBytes(ByteAt(chars, start + count - 1))
  }

  lemma {:induction false} RangeLengthGrows(chars: seq<byte>, start: nat, i: nat, count: nat)
    requires i <= count
    ensures RangeLength(chars, start, i) <= RangeLength(chars, start, count)
    decreases count - i
  {
    if i < count {
      RangeLengthGrows(chars, start, i + 1, count);
    }
  }

  /**
   * The bytes the second loop of lit_ustring_from_range writes: every
   * position that decodes re-encoded, in order; None when one of them
   * decodes above U+10FFFF, where lit_ustring_encode reaches its
   * UNREACHABLE assertion. On overlong input fewer bytes are written than
   * the first loop counted.
   */
  function RangeBytes(chars: seq<byte>, start: nat, count: nat): (r: Option<seq<byte>>)
    ensures r.Some? ==> |r.value| <= RangeLength(chars, start, count)
  {
    if count == 0 then Some([]) else
      match RangeBytes(chars, start, count - 1)
      case None => None
      case Some(w) =>
        var p := start + count - 1;
        var cp := DecodeAt(chars, p);
        if cp == MINUS_ONE then Some(w)
        else if Encodable(cp) then
          PositionFits(chars, p);
          Some(w + Encoding(cp))
        else None
  }

  lemma PositionFits(chars: seq<byte>, p: nat)
    requires DecodeAt(chars, p) != MINUS_ONE && Encodable(DecodeAt(chars, p))
    ensures EncodeNumBytes(DecodeAt(chars, p)) <= DecodeNumBytes(ByteAt(chars, p))
  {
    if p < |chars| {
      DecodeFits(chars[p..]);
    }
  }

  /**
   * lit_ustring_from_range: the re-encoded code points of count byte
   * positions from start, with the length of the string created; None where
   * the source's assertion fails.
   */
  method FromRange(chars: seq<byte>, start: nat, count: nat) returns (r: Option<(seq<byte>, nat)>)
    requires start + count <= |chars| + 1
    ensures r.Some? <==> RangeBytes(chars, start, count).Some?
    ensures r.Some? ==> r.value.0 == RangeBytes(chars, start, count).value
    ensures r.Some? ==> r.value.1 == RangeLength(chars, start, count) && |r.value.0| <= r.value.1
  {
    var length := CountRange(chars, start, count);
    var bytes := new byte[length + 1];
    var to := 0;
    ghost var written: seq<byte> := [];
    var i := 0;
    while i < count
      invariant i <= count
      invariant RangeBytes(chars, start, i) == Some(written)
      invariant to == |written| < bytes.Length
      invariant bytes[..to] == written
    {
      var ok;
      ok, to, written := RangeStep(chars, start, i, count, bytes, to, written);
      if !ok {
        return None;
      }
      i := i + 1;
    }
    return Some((bytes[..to], length));
  }

  /**
   * One pass of the second loop of lit_ustring_from_range: the code point
   * at start + i is skipped when it does not decode, fails the range when
   * it cannot be encoded, and is appended otherwise.
   */
  method RangeStep(chars: seq<byte>, start: nat, i: nat, count: nat, bytes: array<byte>, to: nat, ghost written: seq<byte>)
    returns (ok: bool, to': nat, ghost written': seq<byte>)
    requires i < count && RangeLength(chars, start, count) + 1 == bytes.Length
    requires RangeBytes(chars, start, i) == Some(written) && to == |written| < bytes.Length && bytes[..to] == written
    modifies bytes
    ensures ok ==> RangeBytes(chars, start, i + 1) == Some(written') && to' == |written'| < bytes.Length
    ensures ok ==> bytes[..to'] == written'
    ensures !ok ==> RangeBytes(chars, start, count).None?
  {
    RangeLengthGrows(chars, start, i + 1, count);
    var cp := DecodeIn(chars, start + i);
    if cp == MINUS_ONE {
      RangeBytesSkip(chars, start, i);
      return true, to, written;
    } else if !Encodable(cp) {
      RangeBytesStop(chars, start, i);
      NoneStaysNone(chars, start, i + 1, count);
      return false, to, written;
    }
    RangeBytesAppend(chars, start, i);
    written' := written + Encoding(cp);
    assert RangeBytes(chars, start, i + 1) == Some(written');
    assert |written'| <= RangeLength(chars, start, i + 1) <= RangeLength(chars, start, count);
    assert to + EncodeNumBytes(cp) == |written'|;
    to' := Append(cp, bytes, to, written);
    ok := true;
  }

  /** `to += lit_ustring_encode(code_point, to)`: the encoding goes after the bytes written so far. */
  method Append(cp: Int32, bytes: array<byte>, to: nat, ghost written: seq<byte>) returns (to': nat)
    requires Encodable(cp) && to + EncodeNumBytes(cp) <= bytes.Length && bytes[..to] == written
    modifies bytes
    ensures to' == to + EncodeNumBytes(cp) && bytes[..to'] == written + Encoding(cp)
  {
    var n := Encode(cp, bytes, to);
    assert bytes[..to + n] == bytes[..to] + bytes[to..to + n];
    to' := to + n;
  }

  /** lit_ustring_decode at position p of a string, with the bytes up to its end. */
  method DecodeIn(chars: seq<byte>, p: nat) returns (cp: Int32)
    ensures cp == DecodeAt(chars, p)
  {
    cp := 0;
    if p < |chars| {
      cp := Decode(chars[p..]);
    }
  }

  /** The first loop of lit_ustring_from_range. */
  method CountRange(chars: seq<byte>, start: nat, count: nat) returns (length: nat)
    ensures length == RangeLength(chars, start, count)
  {
    length := 0;
    var i := 0;
    while i < count
      invariant i <= count && length == RangeLength(chars, start, i)
    {
      var b := if start + i < |chars| then chars[start + i] else 0;
      length := length + DecodeNumBytes(b);
      i := i + 1;
    }
  }

  lemma RangeBytesSkip(chars: seq<byte>, start: nat, i: nat)
    requires RangeBytes(chars, start, i).Some? && DecodeAt(chars, start + i) == MINUS_ONE
    ensures RangeBytes(chars, start, i + 1) == RangeBytes(chars, start, i)
  {
  }

  lemma RangeBytesStop(chars: seq<byte>, start: nat, i: nat)
    requires DecodeAt(chars, start + i) != MINUS_ONE && !Encodable(DecodeAt(chars, start + i))
    ensures RangeBytes(chars, start, i + 1).None?
  {
  }

  lemma RangeBytesAppend(chars: seq<byte>, start: nat, i: nat)
    requires RangeBytes(chars, start, i).Some?
    requires DecodeAt(chars, start + i) != MINUS_ONE && Encodable(DecodeAt(chars, start + i))
    ensures RangeBytes(chars, start, i + 1) ==
      Some(RangeBytes(chars, start, i).value + Encoding(DecodeAt(chars, start + i)))
    ensures EncodeNumBytes(DecodeAt(chars, start + i)) <= DecodeNumBytes(ByteAt(chars, start + i))
  {
    PositionFits(chars, start + i);
  }

  lemma {:induction false} NoneStaysNone(chars: seq<byte>, start: nat, i: nat, count: nat)
    requires i <= count && RangeBytes(chars, start, i).None?
    ensures RangeBytes(chars, start, count).None?
    decreases count - i
  {
    if i < count {
      NoneStaysNone(chars, start, i + 1, count);
    }
  }

  /** A range that contains a sequence decoding above U+10FFFF has no result. */
  lemma FromRangeRejectsHighLead()
    ensures RangeBytes([0xf7, 0xbf, 0xbf, 0xbf], 0, 4).None?
  {
    var c: seq<byte> := [0xf7, 0xbf, 0xbf, 0xbf];
    DecodeAcceptsHighLead();
    assert c[0..] == c;
    assert RangeBytes(c, 0, 1).None?;
    NoneStaysNone(c, 0, 1, 4);
  }

  /**
   * lit_ustring_decode as evidently intended by section 3 of RFC 3629: a
   * value above U+10FFFF is rejected like any other malformed sequence.
   */
  function DecodeChecked(bs: seq<byte>): (r: Int32)
    requires |bs| >= 1
    ensures r == MINUS_ONE || (Encodable(r) && EncodeNumBytes(r) <= DecodeNumBytes(bs[0]))
    ensures r != MINUS_ONE ==> r == DecodeValue(bs)
  {
    DecodeFits(bs);
    var r := DecodeValue(bs);
    if r != MINUS_ONE && !Encodable(r) then MINUS_ONE else r
  }

  /**
   * The bytes lit_ustring_from_range writes when it decodes with
   * DecodeChecked: always defined, and never longer than the length the
   * first loop counted.
   */
  function RangeBytesChecked(chars: seq<byte>, start: nat, count: nat): (r: seq<byte>)
    ensures |r| <= RangeLength(chars, start, count)
    ensures RangeBytes(chars, start, count).Some? ==> r == RangeBytes(chars, start, count).value
  {
    if count == 0 then [] else
      var w := RangeBytesChecked(chars, start, count - 1);
      var p := start + count - 1;
      var cp := if p < |chars| then DecodeChecked(chars[p..]) else 0;
      if cp == MINUS_ONE then w
      else
        assert cp == DecodeAt(chars, p);
        PositionFits(chars, p);
        w + Encoding(cp)
  }

  /**
   * lit_ustring_from_code_point: the bytes of the one-character string
   * made from a code point; they decode back to it.
   */
  function FromCodePoint(v: Int32): (r: seq<byte>)
    requires Encodable(v)
    ensures |r| == EncodeNumBytes(v) && |r| >= 1
    ensures v <= 0x10ffff ==> DecodeValue(r) == v
  {
    var r := Encoding(v);
    if v <= 0x10ffff then DecodeEncoding(v, []); assert r + [] == r; r else r
  }

  /**
   * lit_ustring_code_point_at: the one-character string at a byte index,
   * None past the end. A sequence that decodes gives its code point
   * re-encoded, one that does not gives the lone byte. Decoding uses
   * DecodeChecked (corrected): a value above U+10FFFF is treated as
   * undecodable instead of reaching the UNREACHABLE assertion of
   * lit_ustring_encode.
   */
  function CodePointAt(chars: seq<byte>, index: nat): (r: Option<seq<byte>>)
    ensures r.None? <==> index >= |chars|
    ensures r.Some? ==> |r.value| >= 1 && |r.value| <= 4
    ensures r.Some? && DecodeChecked(chars[index..]) == MINUS_ONE ==> r.value == [chars[index]]
    ensures r.Some? && DecodeChecked(chars[index..]) != MINUS_ONE ==>
      DecodeValue(r.value) == DecodeValue(chars[index..]) && |r.value| <= DecodeNumBytes(chars[index])
  {
    if index >= |chars| then None
    else
      var cp := DecodeChecked(chars[index..]);
      if cp == MINUS_ONE then Some([chars[index]])
      else
        assert chars[index..][0] == chars[index];
        DecodeBelow(chars[index..]);
        Some(FromCodePoint(cp))
  }

  /** A decoded value is -1 or below 2^21: never one of the other negative words. */
  lemma DecodeBelow(bs: seq<byte>)
    requires |bs| >= 1
    ensures DecodeValue(bs) == MINUS_ONE || DecodeValue(bs) < 0x20_0000
  {
    var b := bs[0];
    if b <= 0x7f || DecodeValue(bs) == MINUS_ONE {
    } else if b & 0xe0 == 0xc0 {
      DecodeFits2(bs);
    } else if b & 0xf0 == 0xe0 {
      DecodeFits3(bs);
    } else {
      DecodeFits4(bs);
    }
  }

  /** At the start of an encoded code point, code_point_at gives back exactly its encoding. */
  lemma CodePointAtEncoding(v: Int32, rest: seq<byte>)
    requires v <= 0x10ffff
    ensures CodePointAt(Encoding(v) + rest, 0) == Some(Encoding(v))
  {
    DecodeEncoding(v, rest);
    assert (Encoding(v) + rest)[0..] == Encoding(v) + rest;
  }

  /** Code points other than U+0000, the ones a NUL-terminated string can hold. */
  predicate NoNul(cps: seq<Int32>) { forall k :: 0 <= k < |cps| ==> cps[k] != 0 }

  lemma EncodingHasNoNul(v: Int32)
    requires 0 < v <= 0x10ffff
    ensures 0 !in Encoding(v)
  {
  }

  lemma {:induction false} EncodeAllHasNoNul(cps: seq<Int32>)
    requires CodePoints(cps) && NoNul(cps)
    ensures 0 !in EncodeAll(cps)
  {
    if cps != [] {
      EncodingHasNoNul(cps[0]);
      EncodeAllHasNoNul(cps[1..]);
    }
  }

  lemma {:induction false} NulIndexAfter(t: seq<byte>)
    requires 0 !in t
    ensures NulIndex(t + [0]) == |t|
  {
    if t != [] {
      assert (t + [0])[1..] == t[1..] + [0];
      NulIndexAfter(t[1..]);
    }
  }

  /** The bytes of one encoded code point other than U+0000: a non-zero lead byte and up to three continuation bytes. */
  predicate Group(g: seq<byte>)
  {
    1 <= |g| <= 4 && g[0] != 0 && !IsContinuation(g[0]) &&
    forall j :: 1 <= j < |g| ==> IsContinuation(g[j])
  }

  function Flatten(gs: seq<seq<byte>>): seq<byte>
  {
    if gs == [] then [] else gs[0] + Flatten(gs[1..])
  }

  predicate Groups(gs: seq<seq<byte>>) { forall k :: 0 <= k < |gs| ==> Group(gs[k]) }

  lemma {:induction false} FlattenHasNoNul(gs: seq<seq<byte>>)
    requires Groups(gs)
    ensures 0 !in Flatten(gs)
  {
    if gs != [] {
      FlattenHasNoNul(gs[1..]);
      assert 0 !in gs[0] by {
        forall j | 0 <= j < |gs[0]| ensures gs[0][j] != 0 {
          assert j == 0 || IsContinuation(gs[0][j]);
        }
      }
    }
  }

  /** One step of lit_uchar_offset from a group's lead byte lands just past the group. */
  lemma StepOverGroup(pre: seq<byte>, g: seq<byte>, rest: seq<byte>)
    requires Group(g) && rest != [] && !IsContinuation(rest[0])
    requires var s := pre + g + rest; 0 in s && |pre| < NulIndex(s)
    ensures Step(pre + g + rest, |pre|) == |pre| + |g|
  {
    var s := pre + g + rest;
    assert s[|pre| + |g|] == rest[0];
    forall j | |pre| < j < |pre| + |g| ensures IsContinuation(s[j]) {
      assert s[j] == g[j - |pre|];
    }
  }

  lemma {:induction false} OffsetSkipsGroups(pre: seq<byte>, gs: seq<seq<byte>>, k: nat)
    requires Groups(gs) && 0 !in pre && k <= |gs|
    ensures var s := pre + Flatten(gs) + [0];
      0 in s && |pre| <= NulIndex(s) &&
      OffsetFrom(s, |pre|, k) == |pre| + |Flatten(gs[..k])|
    decreases k
  {
    var s := pre + Flatten(gs) + [0];
    FlattenHasNoNul(gs);
    NulIndexAfter(pre + Flatten(gs));
    assert s == (pre + Flatten(gs)) + [0];
    if k > 0 {
      var g := gs[0];
      var rest := Flatten(gs[1..]) + [0];
      assert s == pre + g + rest;
      assert s[|pre|] == g[0];
      assert !IsContinuation(rest[0]) by {
        if gs[1..] != [] { assert rest[0] == gs[1..][0][0]; }
      }
      StepOverGroup(pre, g, rest);
      assert 0 !in pre + g by { FlattenHasNoNul([g]); assert Flatten([g]) == g; }
      assert s == (pre + g) + Flatten(gs[1..]) + [0];
      assert gs[..k][0] == g && gs[..k][1..] == gs[1..][..k - 1];
      OffsetSkipsGroups(pre + g, gs[1..], k - 1);
    }
  }

  /** The encodings of a list of code points, one group each. */
  function Encodings(cps: seq<Int32>): (gs: seq<seq<byte>>)
    requires CodePoints(cps)
    ensures |gs| == |cps|
    ensures forall k :: 0 <= k < |cps| ==> gs[k] == Encoding(cps[k])
  {
    if cps == [] then [] else [Encoding(cps[0])] + Encodings(cps[1..])
  }

  lemma EncodingIsGroup(v: Int32)
    requires 0 < v <= 0x10ffff
    ensures Group(Encoding(v))
  {
    LeadAnnouncesLength(v);
  }

  lemma {:induction false} EncodeAllFlattens(cps: seq<Int32>)
    requires CodePoints(cps)
    ensures EncodeAll(cps) == Flatten(Encodings(cps))
  {
    if cps != [] {
      EncodeAllFlattens(cps[1..]);
      assert Encodings(cps)[1..] == Encodings(cps[1..]);
    }
  }

  /** The encoding of every code point is one UTF-8 group. */
  lemma EncodingsAreGroups(cps: seq<Int32>)
    requires CodePoints(cps) && NoNul(cps)
    ensures forall j :: 0 <= j < |Encodings(cps)| ==> Group(Encodings(cps)[j])
  {
    var gs := Encodings(cps);
    forall j | 0 <= j < |gs| ensures Group(gs[j]) {
      EncodingIsGroup(cps[j]);
    }
  }

  /**
   * On a well-formed string of code points other than U+0000,
   * lit_uchar_offset(s, k) is the byte offset where code point k starts:
   * the length of the encodings of the first k code points.
   */
  lemma OffsetSkipsEncodings(cps: seq<Int32>, k: nat)
    requires CodePoints(cps) && NoNul(cps) && k <= |cps|
    ensures var s := EncodeAll(cps) + [0];
      0 in s && OffsetFrom(s, 0, k) == |EncodeAll(cps[..k])|
  {
    var gs := Encodings(cps);
    EncodingsAreGroups(cps);
    EncodeAllFlattens(cps);
    EncodeAllFlattens(cps[..k]);
    assert Encodings(cps[..k]) == gs[..k];
    OffsetSkipsGroups([], gs, k);
    assert [] + Flatten(gs) + [0] == EncodeAll(cps) + [0];
  }
}
