/**
 * The bytecode serializer of libfs.c (and its near-copy fs.c): the
 * writers that stream a compiled module to a file, and the readers of an
 * "emulated file", a byte string with a cursor, that load it back.
 *
 * Files are little-endian (the writers fwrite the native uint16_t and
 * uint32_t, and the readers put the first byte low). A string is its
 * uint16_t length followed by its bytes XOR LIT_STRING_KEY.
 */
module Fs {
  import opened Wrappers
  import opened Lit
  import Bytes
  import Chunk

  type U16 = Chunk.U16
  type U32 = x: int | 0 <= x < 0x1_0000_0000

  const BYTECODE_VERSION: bv8 := 0
  /** The tag of a number constant; an object constant is tagged with its type plus one. */
  const NUMBER_TAG: bv8 := 0
  const STRING_TAG: bv8 := 1      // LITTYPE_STRING + 1
  const FUNCTION_TAG: bv8 := 2    // LITTYPE_FUNCTION + 1

  /** The low byte of x, as a (uint8_t) cast keeps it. */
  function Low(x: nat): (b: bv8)
    ensures b as int == x % 256
  {
    Bytes.RoundTrip(x % 256);
    (x % 256) as bv8
  }

  /** The two bytes lit_write_uint16_t writes for x, which it first casts to uint16_t. */
  function U16Bytes(x: nat): (r: seq<bv8>)
    ensures |r| == 2
  {
    [Low(x), Low(x / 256)]
  }

  /** What lit_read_euint16_t makes of two bytes: the first is the low one. */
  function U16Of(b0: bv8, b1: bv8): (x: U16)
  {
    b0 as int + 256 * b1 as int
  }

  /** The word x stands in src at offset at, as lit_read_euint16_t reads it. */
  ghost predicate WordIs(src: seq<bv8>, at: nat, x: nat)
  {
    at + 2 <= |src| && U16Of(src[at], src[at + 1]) == x
  }

  /** The four bytes lit_write_uint32_t writes for x, which it first casts to uint32_t. */
  function U32Bytes(x: nat): (r: seq<bv8>)
    ensures |r| == 4
  {
    U16Bytes(x) + U16Bytes(x / 0x1_0000)
  }

  /** What lit_read_euint32_t makes of four bytes, the first lowest. */
  function U32Of(b0: bv8, b1: bv8, b2: bv8, b3: bv8): (x: U32)
  {
    U16Of(b0, b1) + 0x1_0000 * U16Of(b2, b3)
  }

  /** The eight bytes of a double in memory, lowest first, as lit_write_double writes them. */
  function DoubleBytes(v: bv64): (r: seq<bv8>)
    ensures |r| == 8
  {
    [(v & 0xff) as bv8, ((v >> 8) & 0xff) as bv8, ((v >> 16) & 0xff) as bv8, ((v >> 24) & 0xff) as bv8,
     ((v >> 32) & 0xff) as bv8, ((v >> 40) & 0xff) as bv8, ((v >> 48) & 0xff) as bv8, ((v >> 56) & 0xff) as bv8]
  }

  /** The double lit_read_edouble copies out of eight bytes. */
  function DoubleOf(bs: seq<bv8>): bv64
    requires |bs| == 8
  {
    (bs[0] as bv64) | ((bs[1] as bv64) << 8) | ((bs[2] as bv64) << 16) | ((bs[3] as bv64) << 24) |
    ((bs[4] as bv64) << 32) | ((bs[5] as bv64) << 40) | ((bs[6] as bv64) << 48) | ((bs[7] as bv64) << 56)
  }

  /** Every byte XOR LIT_STRING_KEY. */
  function Keyed(s: seq<bv8>): (r: seq<bv8>)
    ensures |r| == |s| && forall k :: 0 <= k < |s| ==> r[k] == s[k] ^ STRING_KEY
  {
    seq(|s|, k requires 0 <= k < |s| => s[k] ^ STRING_KEY)
  }

  /**
   * lit_write_string: the length as a uint16_t, then that many bytes of
   * the string, keyed. A string of 65536 bytes or more is cut to its
   * length modulo 65536.
   */
  function StringBytes(s: seq<bv8>): (r: seq<bv8>)
    ensures |r| == 2 + |s| % 0x1_0000
  {
    var n := |s| % 0x1_0000;
    U16Bytes(n) + Keyed(s[..n])
  }

  lemma U16RoundTrip(x: nat)
    ensures U16Of(U16Bytes(x)[0], U16Bytes(x)[1]) == x % 0x1_0000
  {
    SplitMod(x, 256, 256);
  }

  lemma U32RoundTrip(x: nat)
    ensures var b := U32Bytes(x); U32Of(b[0], b[1], b[2], b[3]) == x % 0x1_0000_0000
  {
    U16RoundTrip(x);
    U16RoundTrip(x / 0x1_0000);
    SplitMod(x, 0x1_0000, 0x1_0000);
  }

  /** Euclidean division has one quotient and one remainder. */
  lemma DivModUnique(x: int, m: int, q: int, r: int)
    requires m > 0 && 0 <= r < m && x == m * q + r
    ensures x % m == r && x / m == q
  {
    var q', r' := x / m, x % m;
    assert x == m * q' + r';
    if q' > q {
      MulStep(m, q', q);
      assert false;
    } else if q' < q {
      MulStep(m, q, q');
      assert false;
    }
  }

  /** A larger multiplier adds at least one more m. */
  lemma {:induction false} MulStep(m: int, a: int, b: int)
    requires m > 0 && a > b
    ensures m * a >= m * b + m
    decreases a - b
  {
    assert m * a == m * (a - 1) + m;
    if a - 1 > b {
      MulStep(m, a - 1, b);
    }
  }

  /** The remainder modulo d * e, from the remainders modulo d and e: how the bytes of a word add up. */
  lemma SplitMod(x: nat, d: nat, e: nat)
    requires d > 0 && e > 0
    ensures x % (d * e) == d * ((x / d) % e) + x % d
  {
    var q, r := x / d, x % d;
    var q2, r2 := q / e, q % e;
    assert x == (d * e) * q2 + (d * r2 + r) by {
      assert x == d * q + r && q == e * q2 + r2;
      calc {
        x;
        d * (e * q2 + r2) + r;
        (d * e) * q2 + (d * r2 + r);
      }
    }
    assert d * r2 + r < d * e by {
      assert d * r2 <= d * (e - 1);
    }
    DivModUnique(x, d * e, q2, d * r2 + r);
  }

  lemma DoubleRoundTrip(v: bv64)
    ensures DoubleOf(DoubleBytes(v)) == v
  {
  }

  /** Keying twice gives the bytes back. */
  lemma {:induction false} KeyedTwice(s: seq<bv8>)
    ensures Keyed(Keyed(s)) == s
  {
    forall k | 0 <= k < |s|
      ensures Keyed(Keyed(s))[k] == s[k]
    {
      assert (s[k] ^ STRING_KEY) ^ STRING_KEY == s[k];
    }
  }

  /** The bytes bs stand in src at offset at. */
  ghost predicate Holds(src: seq<bv8>, bs: seq<bv8>, at: nat)
  {
    at + |bs| <= |src| && forall k :: 0 <= k < |bs| ==> src[at + k] == bs[k]
  }

  lemma HoldsSplit(src: seq<bv8>, a: seq<bv8>, b: seq<bv8>, at: nat)
    requires Holds(src, a + b, at)
    ensures Holds(src, a, at) && Holds(src, b, at + |a|)
  {
    forall k | 0 <= k < |a|
      ensures src[at + k] == a[k]
    {
      assert (a + b)[k] == a[k];
    }
    forall k | 0 <= k < |b|
      ensures src[at + |a| + k] == b[k]
    {
      assert (a + b)[|a| + k] == b[k];
    }
  }

  /** The same bytes at an offset computed another way. */
  lemma HoldsMoved(src: seq<bv8>, bs: seq<bv8>, at: nat, at': nat)
    requires Holds(src, bs, at) && at == at'
    ensures Holds(src, bs, at')
  {
  }

  /** Where bs stands, the slice of src from at is bs. */
  lemma HoldsSlice(src: seq<bv8>, bs: seq<bv8>, at: nat)
    requires Holds(src, bs, at)
    ensures src[at..at + |bs|] == bs
  {
  }

  lemma HoldsAt(src: seq<bv8>, bs: seq<bv8>, at: nat, k: nat)
    requires Holds(src, bs, at) && k < |bs|
    ensures src[at + k] == bs[k]
  {
  }

  /** What lit_read_estring reads at offset at: NULL (None) for a length of zero, else the bytes unkeyed. */
  function EStringAt(src: seq<bv8>, at: nat): Option<seq<bv8>>
    requires at + 2 <= |src| && at + 2 + U16Of(src[at], src[at + 1]) <= |src|
  {
    var n := U16Of(src[at], src[at + 1]);
    if n == 0 then None else Some(Keyed(src[at + 2..at + 2 + n]))
  }

  /**
   * LitEmulatedFile: the bytes being loaded and the position of the next
   * one. Every reader takes its bytes at the position and moves it past
   * them; nothing checks the end of the input, so each demands that its
   * bytes are there.
   */
  class Input {
    const source: seq<bv8>
    var position: nat

    /** lit_init_emulated_file: reading starts at the first byte. */
    constructor (source: seq<bv8>)
      ensures this.source == source && position == 0
    {
      this.source := source;
      position := 0;
    }

    /** lit_read_euint8_t: the byte at the position. */
    method ReadU8() returns (b: bv8)
      requires position < |source|
      modifies this`position
      ensures b == source[old(position)] && position == old(position) + 1
    {
      b := source[position];
      position := position + 1;
    }

    /** lit_read_euint16_t: two bytes, the first the low one. */
    method ReadU16() returns (x: U16)
      requires position + 2 <= |source|
      modifies this`position
      ensures x == U16Of(source[old(position)], source[old(position) + 1]) && position == old(position) + 2
    {
      var b0 := ReadU8();
      var b1 := ReadU8();
      x := U16Of(b0, b1);
    }

    /** lit_read_euint32_t: four bytes, the first the lowest. */
    method ReadU32() returns (x: U32)
      requires position + 4 <= |source|
      modifies this`position
      ensures var p := old(position);
        x == U32Of(source[p], source[p + 1], source[p + 2], source[p + 3]) && position == p + 4
    {
      var b0 := ReadU8();
      var b1 := ReadU8();
      var b2 := ReadU8();
      var b3 := ReadU8();
      x := U32Of(b0, b1, b2, b3);
    }

    /** lit_read_edouble: the double whose memory is the next eight bytes. */
    method ReadDouble() returns (v: bv64)
      requires position + 8 <= |source|
      modifies this`position
      ensures v == DoubleOf(source[old(position)..old(position) + 8]) && position == old(position) + 8
    {
      var values := ReadBytes(8);
      v := DoubleOf(values);
    }

    /** The byte-by-byte loop of lit_read_edouble: the next n bytes, in order. */
    method ReadBytes(n: nat) returns (values: seq<bv8>)
      requires position + n <= |source|
      modifies this`position
      ensures values == source[old(position)..old(position) + n] && position == old(position) + n
    {
      ghost var start := position;
      values := [];
      var i := 0;
      while i < n
        invariant 0 <= i <= n && position == start + i
        invariant values == source[start..position]
      {
        assert source[start..position + 1] == source[start..position] + [source[position]];
        var b := ReadU8();
        values := values + [b];
        i := i + 1;
      }
    }

    /**
     * lit_read_estring: a uint16_t length, then that many keyed bytes. A
     * length of zero gives NULL, here None.
     */
    method ReadEString() returns (s: Option<seq<bv8>>)
      requires position + 2 <= |source|
      requires position + 2 + U16Of(source[position], source[position + 1]) <= |source|
      modifies this`position
      ensures position == old(position) + 2 + U16Of(source[old(position)], source[old(position) + 1])
      ensures s == EStringAt(source, old(position))
    {
      var length := ReadU16();
      if length < 1 {
        return None;
      }
      var line: seq<bv8> := [];
      var i := 0;
      while i < length
        invariant 0 <= i <= length && position == old(position) + 2 + i
        invariant line == Keyed(source[old(position) + 2..position])
      {
        var b := ReadU8();
        line := line + [b ^ STRING_KEY];
        i := i + 1;
      }
      s := Some(line);
    }
  }

  /**
   * What the readers give back where the writers' bytes stand: a string
   * shorter than 65536 bytes comes back, except that the empty one comes
   * back as NULL.
   */
  lemma StringRoundTrip(src: seq<bv8>, s: seq<bv8>, at: nat)
    requires Holds(src, StringBytes(s), at) && |s| < 0x1_0000
    ensures at + 2 <= |src| && U16Of(src[at], src[at + 1]) == |s| && at + 2 + |s| <= |src|
    ensures EStringAt(src, at) == if s == [] then None else Some(s)
    ensures |StringBytes(s)| == 2 + |s|
  {
    var n := |s|;
    ModSmall(n, 0x1_0000);
    assert s[..n] == s;
    HoldsSplit(src, U16Bytes(n), Keyed(s), at);
    HoldsU16(src, n, at);
    assert src[at + 2..at + 2 + n] == Keyed(s);
    KeyedTwice(s);
  }

  /** A string of 65536 bytes is written with length 0, so it reads back as NULL. */
  lemma LongStringReadsAsNull(src: seq<bv8>, s: seq<bv8>, at: nat)
    requires Holds(src, StringBytes(s), at) && |s| == 0x1_0000
    ensures at + 2 <= |src| && U16Of(src[at], src[at + 1]) == 0
  {
    HoldsSplit(src, U16Bytes(0), Keyed(s[..0]), at);
    HoldsAt(src, U16Bytes(0), at, 0);
    HoldsAt(src, U16Bytes(0), at, 1);
  }

  // ---------------------------------------------------------------- chunks

  /** A constant of a chunk, as save_chunk tells them apart. */
  datatype Constant =
    | Number(bits: Value)         // not an object: written as the double it is
    | Str(chars: seq<bv8>)        // a string object
    | Func(f: FunctionImage)      // a function object
    | NullObject                  // OBJECT_VALUE(NULL), which a save cannot write

  /** The fields of a LitFunction that save_function writes. */
  datatype FunctionImage = FunctionImage(chunk: ChunkImage, name: seq<bv8>, argCount: bv8,
                                         upvalueCount: U16, vararg: bool, maxSlots: U16)

  /**
   * The fields of a LitChunk that save_chunk reads: the code, whether line
   * information is kept, the index of the current line pair, the whole
   * line-table buffer and the constants.
   */
  datatype ChunkImage = ChunkImage(code: seq<bv8>, hasLineInfo: bool, lineCount: nat, lines: seq<U16>,
                                   constants: seq<Constant>)

  /**
   * What save_chunk demands of a chunk (wide false), and in addition that
   * every count fits the width it is written in (wide true): the words of
   * the line table it writes lie in the buffer, and no constant is a
   * null object, whose type it would read.
   */
  ghost predicate ChunkOk(c: ChunkImage, wide: bool)
    decreases c, 1
  {
    (c.hasLineInfo ==> c.lineCount + 2 <= |c.lines|) &&
    (wide ==> |c.code| < 0x1_0000_0000 && c.lineCount + 2 < 0x1_0000_0000 && |c.constants| < 0x1_0000_0000) &&
    forall j :: 0 <= j < |c.constants| ==> ConstantOk(c.constants[j], wide)
  }

  ghost predicate ConstantOk(k: Constant, wide: bool)
    decreases k
  {
    match k
    case Number(_) => true
    case Str(s) => wide ==> |s| < 0x1_0000
    case Func(f) => FunctionOk(f, wide)
    case NullObject => false
  }

  ghost predicate FunctionOk(f: FunctionImage, wide: bool)
    decreases f
  {
    ChunkOk(f.chunk, wide) && (wide ==> |f.name| < 0x1_0000)
  }

  /** A chunk save_chunk can write and whose every count survives the trip. */
  ghost predicate Fits(c: ChunkImage)
  {
    ChunkOk(c, false) && ChunkOk(c, true)
  }

  /** Every constant of c fits. */
  ghost predicate ConstantsFit(c: ChunkImage)
  {
    forall j :: 0 <= j < |c.constants| ==> FitsConstant(c.constants[j])
  }

  ghost predicate FitsConstant(k: Constant)
  {
    ConstantOk(k, false) && ConstantOk(k, true)
  }

  ghost predicate FitsFunction(f: FunctionImage)
  {
    FunctionOk(f, false) && FunctionOk(f, true)
  }

  /**
   * The string constant load_chunk makes of what lit_read_estring gave:
   * the string read, and the empty string for a length of zero.
   */
  function StringConstant(read: Option<seq<bv8>>): (k: Constant)
    ensures k.Str? && (read.Some? ==> k.chars == read.value) && (read.None? ==> k.chars == [])
  {
    Str(if read.None? then [] else read.value)
  }

  /**
   * The words of the line table in use: the pairs up to and including the
   * current one, whose first word stands at index lineCount.
   */
  function WordsInUse(c: ChunkImage): (n: nat)
    ensures c.lineCount + 1 < n && n - 2 <= c.lineCount
  {
    c.lineCount + 2
  }

  /**
   * The number of words save_chunk writes as written: line_count * 2 + 2,
   * as if line_count counted pairs, where it is the index of the current
   * pair's first word. Past the first pair it is more than the words in use.
   */
  function WordsAsWritten(c: ChunkImage): (n: nat)
    ensures c.lineCount > 0 ==> n > WordsInUse(c)
    ensures c.lineCount == 0 ==> n == WordsInUse(c)
  {
    c.lineCount * 2 + 2
  }

  /** Line-table words, two bytes each. */
  function WordsBytes(ws: seq<U16>): (r: seq<bv8>)
    ensures |r| == 2 * |ws|
  {
    seq(2 * |ws|, k requires 0 <= k < 2 * |ws| => U16Bytes(ws[k / 2])[k % 2])
  }

  /**
   * The line table as the corrected save_chunk writes it: the number of
   * words in use, then those words; 0 without line information.
   */
  function LineBytes(c: ChunkImage): (r: seq<bv8>)
    requires c.hasLineInfo ==> WordsInUse(c) <= |c.lines|
    ensures |r| == 4 + if c.hasLineInfo then 2 * WordsInUse(c) else 0
    ensures r[..4] == U32Bytes(if c.hasLineInfo then WordsInUse(c) else 0)
  {
    if c.hasLineInfo then U32Bytes(WordsInUse(c)) + WordsBytes(c.lines[..WordsInUse(c)]) else U32Bytes(0)
  }

  /**
   * The line table as save_chunk writes it as written: line_count * 2 + 2
   * words of the buffer, which lie in it only while the table holds that
   * many.
   */
  function LineBytesAsWritten(c: ChunkImage): (r: seq<bv8>)
    requires c.hasLineInfo ==> WordsAsWritten(c) <= |c.lines|
    ensures |r| == 4 + if c.hasLineInfo then 2 * WordsAsWritten(c) else 0
  {
    if c.hasLineInfo then U32Bytes(WordsAsWritten(c)) + WordsBytes(c.lines[..WordsAsWritten(c)]) else U32Bytes(0)
  }

  /** save_chunk: the code, the line table, then the number of constants and each constant. */
  function ChunkBytes(c: ChunkImage): (r: seq<bv8>)
    requires ChunkOk(c, false)
    ensures ChunkHead(c) <= r
    decreases c, 2
  {
    ChunkHead(c) + ConstantsFrom(c, 0)
  }

  /** What save_chunk writes before the first constant. */
  function ChunkHead(c: ChunkImage): (r: seq<bv8>)
    requires c.hasLineInfo ==> WordsInUse(c) <= |c.lines|
    ensures |r| >= 12 + |c.code| && r[..4 + |c.code|] == U32Bytes(|c.code|) + c.code
  {
    U32Bytes(|c.code|) + c.code + LineBytes(c) + U32Bytes(|c.constants|)
  }

  /** The constants of c from the i-th on. */
  function ConstantsFrom(c: ChunkImage, i: nat): seq<bv8>
    requires ChunkOk(c, false)
    decreases c, 0, |c.constants| - i
  {
    if i >= |c.constants| then [] else ConstantBytes(c.constants[i]) + ConstantsFrom(c, i + 1)
  }

  /** One constant: tag 0 and the double, or the object's type plus one and the object. */
  function ConstantBytes(k: Constant): seq<bv8>
    requires ConstantOk(k, false)
    decreases k
  {
    match k
    case Number(v) => [NUMBER_TAG] + DoubleBytes(v)
    case Str(s) => [STRING_TAG] + StringBytes(s)
    case Func(f) => [FUNCTION_TAG] + FunctionBytes(f)
  }

  /** save_function: the chunk, the name, the argument count, upvalue count, vararg flag and slot count. */
  function FunctionBytes(f: FunctionImage): seq<bv8>
    requires FunctionOk(f, false)
    decreases f
  {
    ChunkBytes(f.chunk) + FunctionTail(f)
  }

  /** What save_function writes after the chunk. */
  function FunctionTail(f: FunctionImage): seq<bv8>
  {
    StringBytes(f.name) + FieldBytes(f)
  }

  /** The argument count, upvalue count, vararg flag and slot count, in six bytes. */
  function FieldBytes(f: FunctionImage): (r: seq<bv8>)
    ensures |r| == 6
  {
    [f.argCount] + U16Bytes(f.upvalueCount) + [if f.vararg then 1 else 0] + U16Bytes(f.maxSlots)
  }

  /** Each field comes back from its bytes. */
  lemma FieldsAt(src: seq<bv8>, f: FunctionImage, at: nat)
    requires Holds(src, FieldBytes(f), at)
    ensures at + 6 <= |src| && src[at] == f.argCount && U16Of(src[at + 1], src[at + 2]) == f.upvalueCount
    ensures (src[at + 3] != 0) == f.vararg && U16Of(src[at + 4], src[at + 5]) == f.maxSlots
  {
    var b := FieldBytes(f);
    assert b[1..3] == U16Bytes(f.upvalueCount) && b[4..6] == U16Bytes(f.maxSlots);
    HoldsAt(src, b, at, 0);
    HoldsAt(src, b, at, 1);
    HoldsAt(src, b, at, 2);
    HoldsAt(src, b, at, 3);
    HoldsAt(src, b, at, 4);
    HoldsAt(src, b, at, 5);
    U16RoundTrip(f.upvalueCount);
    U16RoundTrip(f.maxSlots);
    ModSmall(f.upvalueCount, 0x1_0000);
    ModSmall(f.maxSlots, 0x1_0000);
  }

  lemma WordsSnoc(ws: seq<U16>, i: nat)
    requires i < |ws|
    ensures WordsBytes(ws[..i + 1]) == WordsBytes(ws[..i]) + U16Bytes(ws[i])
  {
    var a, b := WordsBytes(ws[..i + 1]), WordsBytes(ws[..i]) + U16Bytes(ws[i]);
    forall k | 0 <= k < |a|
      ensures a[k] == b[k]
    {
      if k < 2 * i {
        assert b[k] == WordsBytes(ws[..i])[k];
      }
    }
  }

  /**
   * What load_chunk builds from the bytes save_chunk wrote for c: the same
   * code and constants, and of the line table only the words in use.
   * Without line information the table stays empty.
   */
  function Reloaded(c: ChunkImage): (r: ChunkImage)
    requires ChunkOk(c, false)
    ensures r.code == c.code && r.hasLineInfo == c.hasLineInfo && |r.constants| == |c.constants|
    ensures r.hasLineInfo ==> r.lineCount + 2 == |r.lines| && r.lines[r.lineCount..] == c.lines[c.lineCount..c.lineCount + 2]
    decreases c, 1
  {
    ChunkImage(c.code, c.hasLineInfo, if c.hasLineInfo then c.lineCount else 0,
               if c.hasLineInfo then c.lines[..WordsInUse(c)] else [],
               seq(|c.constants|, j requires 0 <= j < |c.constants| => ReloadedConstant(c.constants[j])))
  }

  /** The constants load_chunk reads, one by one, are those of the reloaded chunk. */
  lemma ReloadedConstants(c: ChunkImage, r: seq<Constant>)
    requires ChunkOk(c, false)
    requires |r| == |c.constants| && forall j :: 0 <= j < |r| ==> r[j] == ReloadedConstant(c.constants[j])
    ensures r == Reloaded(c).constants
  {
  }

  function ReloadedConstant(k: Constant): Constant
    requires ConstantOk(k, false)
    decreases k
  {
    match k
    case Func(f) => Func(ReloadedFunction(f))
    case _ => k
  }

  function ReloadedFunction(f: FunctionImage): (r: FunctionImage)
    requires FunctionOk(f, false)
    ensures r.(chunk := f.chunk) == f && r.chunk.code == f.chunk.code
    decreases f
  {
    f.(chunk := Reloaded(f.chunk))
  }

  /**
   * Four runs of lines, as lit_chunk_push grows the table, leave a buffer
   * of ten words (a capacity of eight and two spare) with the current pair
   * at index 6. The corrected save writes the eight words in use;
   * save_chunk as written asks for fourteen, four past the buffer.
   */
  lemma FourRunsOverrun()
    ensures var c := ChunkImage([], true, 6, seq(10, k => 0), []);
      WordsInUse(c) == 8 <= |c.lines| && WordsAsWritten(c) == 14 > |c.lines|
  {
  }

  /**
   * A chunk saved and loaded back as written (SaveLinesAsWritten, then
   * LoadLinesAsWritten on the words it wrote) has line_count equal to the
   * number of words read: not the index of its current pair, and past the
   * table, so the next save as written asks for more words than there are.
   */
  lemma ReloadAsWrittenLosesCurrentPair(c: ChunkImage, lineCount: nat, lines: seq<U16>)
    requires c.hasLineInfo && WordsAsWritten(c) <= |c.lines|
    requires lines == c.lines[..WordsAsWritten(c)] && lineCount == |lines|
    ensures lineCount == 2 * c.lineCount + 2 && lineCount != c.lineCount
    ensures var d := c.(lineCount := lineCount, lines := lines); WordsAsWritten(d) > |d.lines|
  {
  }

  lemma ModSmall(x: nat, m: nat)
    requires x < m
    ensures x % m == x
  {
  }

  lemma Assoc(a: seq<bv8>, b: seq<bv8>, c: seq<bv8>)
    ensures a + (b + c) == a + b + c
  {
  }

  /** Where U16Bytes(x) stands, the reader gets x back modulo 65536. */
  lemma HoldsU16(src: seq<bv8>, x: nat, at: nat)
    requires Holds(src, U16Bytes(x), at) && x < 0x1_0000
    ensures at + 2 <= |src| && U16Of(src[at], src[at + 1]) == x
  {
    HoldsAt(src, U16Bytes(x), at, 0);
    HoldsAt(src, U16Bytes(x), at, 1);
    U16RoundTrip(x);
    ModSmall(x, 0x1_0000);
  }

  lemma HoldsU32(src: seq<bv8>, x: nat, at: nat)
    requires Holds(src, U32Bytes(x), at) && x < 0x1_0000_0000
    ensures at + 4 <= |src| && U32Of(src[at], src[at + 1], src[at + 2], src[at + 3]) == x
  {
    var b := U32Bytes(x);
    HoldsAt(src, b, at, 0);
    HoldsAt(src, b, at, 1);
    HoldsAt(src, b, at, 2);
    HoldsAt(src, b, at, 3);
    U32RoundTrip(x);
    ModSmall(x, 0x1_0000_0000);
  }

  /** Bytes 2i and 2i + 1 of a line table are the two bytes of its i-th word. */
  lemma WordsBytesAt(ws: seq<U16>, i: nat)
    requires i < |ws|
    ensures WordsBytes(ws)[2 * i] == U16Bytes(ws[i])[0] && WordsBytes(ws)[2 * i + 1] == U16Bytes(ws[i])[1]
  {
    assert (2 * i) / 2 == i && (2 * i) % 2 == 0;
    assert (2 * i + 1) / 2 == i && (2 * i + 1) % 2 == 1;
  }

  /** The i-th word of a line table is read back from its two bytes. */
  lemma WordAt(src: seq<bv8>, ws: seq<U16>, at: nat, i: nat)
    requires Holds(src, WordsBytes(ws), at) && i < |ws|
    ensures at + 2 * i + 2 <= |src| && U16Of(src[at + 2 * i], src[at + 2 * i + 1]) == ws[i]
  {
    HoldsAt(src, WordsBytes(ws), at, 2 * i);
    HoldsAt(src, WordsBytes(ws), at, 2 * i + 1);
    WordsBytesAt(ws, i);
    U16RoundTrip(ws[i]);
    ModSmall(ws[i], 0x1_0000);
  }

  /**
   * The writers append to the file: bytes is everything written to it so
   * far. Each writer appends exactly the bytes its encoding gives.
   */
  class Output {
    var bytes: seq<bv8>

    constructor ()
      ensures bytes == []
    {
      bytes := [];
    }

    /** lit_write_uint8_t */
    method WriteU8(b: bv8)
      modifies this`bytes
      ensures bytes == old(bytes) + [b]
    {
      bytes := bytes + [b];
    }

    /** lit_write_uint16_t: the native uint16_t, low byte first. */
    method WriteU16(x: nat)
      modifies this`bytes
      ensures bytes == old(bytes) + U16Bytes(x)
    {
      bytes := bytes + U16Bytes(x);
    }

    /** lit_write_uint32_t: the native uint32_t, lowest byte first. */
    method WriteU32(x: nat)
      modifies this`bytes
      ensures bytes == old(bytes) + U32Bytes(x)
    {
      bytes := bytes + U32Bytes(x);
    }

    /** lit_write_double: the memory of the double. */
    method WriteDouble(v: bv64)
      modifies this`bytes
      ensures bytes == old(bytes) + DoubleBytes(v)
    {
      bytes := bytes + DoubleBytes(v);
    }

    /** lit_write_string: the uint16_t length, then each of that many bytes keyed. */
    method WriteString(s: seq<bv8>)
      modifies this`bytes
      ensures bytes == old(bytes) + StringBytes(s)
    {
      var c := |s| % 0x1_0000;
      WriteU16(c);
      var i := 0;
      while i < c
        invariant 0 <= i <= c && bytes == old(bytes) + U16Bytes(c) + Keyed(s[..i])
      {
        WriteU8(s[i] ^ STRING_KEY);
        assert Keyed(s[..i + 1]) == Keyed(s[..i]) + [s[i] ^ STRING_KEY];
        i := i + 1;
      }
    }

    /** The code half of save_chunk: the byte count, then each byte. */
    method SaveCode(code: seq<bv8>)
      modifies this`bytes
      ensures bytes == old(bytes) + U32Bytes(|code|) + code
    {
      WriteU32(|code|);
      for i := 0 to |code|
        invariant bytes == old(bytes) + U32Bytes(|code|) + code[..i]
      {
        WriteU8(code[i]);
        assert code[..i + 1] == code[..i] + [code[i]];
      }
      assert code[..|code|] == code;
    }

    /**
     * The line-table half of save_chunk: with line information, the
     * number of words in use and each of them, else the count 0.
     */
    method SaveLines(c: ChunkImage)
      requires c.hasLineInfo ==> WordsInUse(c) <= |c.lines|
      modifies this`bytes
      ensures bytes == old(bytes) + LineBytes(c)
    {
      if c.hasLineInfo {
        SaveWords(c.lines, WordsInUse(c));
      } else {
        WriteU32(0);
      }
    }

    /**
     * The line-table half of save_chunk as written: with line information,
     * line_count * 2 + 2 words of the buffer, else the count 0.
     */
    method SaveLinesAsWritten(c: ChunkImage)
      requires c.hasLineInfo ==> WordsAsWritten(c) <= |c.lines|
      modifies this`bytes
      ensures bytes == old(bytes) + LineBytesAsWritten(c)
    {
      if c.hasLineInfo {
        SaveWords(c.lines, WordsAsWritten(c));
      } else {
        WriteU32(0);
      }
    }

    /** The word count n, then the first n words of the line-table buffer. */
    method SaveWords(lines: seq<U16>, n: nat)
      requires n <= |lines|
      modifies this`bytes
      ensures bytes == old(bytes) + U32Bytes(n) + WordsBytes(lines[..n])
    {
      WriteU32(n);
      ghost var ws := lines[..n];
      for i := 0 to n
        invariant bytes == old(bytes) + U32Bytes(n) + WordsBytes(ws[..i])
      {
        WriteU16(lines[i]);
        WordsSnoc(ws, i);
      }
      assert ws[..n] == ws;
    }

    /** save_chunk up to the constants. */
    method SaveHead(c: ChunkImage)
      requires c.hasLineInfo ==> WordsInUse(c) <= |c.lines|
      modifies this`bytes
      ensures bytes == old(bytes) + ChunkHead(c)
    {
      ghost var start := bytes;
      SaveCode(c.code);
      SaveLines(c);
      WriteU32(|c.constants|);
      var a, b, l := U32Bytes(|c.code|), c.code, LineBytes(c);
      Assoc(start, a, b);
      Assoc(start, a + b, l);
      Assoc(start, a + b + l, U32Bytes(|c.constants|));
    }

    /** save_chunk */
    method SaveChunk(c: ChunkImage)
      requires ChunkOk(c, false)
      modifies this`bytes
      ensures bytes == old(bytes) + ChunkBytes(c)
      decreases c, 2
    {
      SaveHead(c);
      ghost var start := bytes;
      for i := 0 to |c.constants|
        invariant bytes + ConstantsFrom(c, i) == start + ConstantsFrom(c, 0)
      {
        SaveConstant(c, i);
      }
      assert bytes == start + ConstantsFrom(c, 0);
      Assoc(old(bytes), ChunkHead(c), ConstantsFrom(c, 0));
    }

    /** The i-th round of save_chunk's constant loop. */
    method SaveConstant(c: ChunkImage, i: nat)
      requires ChunkOk(c, false) && i < |c.constants|
      modifies this`bytes
      ensures bytes + ConstantsFrom(c, i + 1) == old(bytes) + ConstantsFrom(c, i)
      decreases c, 1
    {
      SaveValue(c.constants[i]);
      Assoc(old(bytes), ConstantBytes(c.constants[i]), ConstantsFrom(c, i + 1));
    }

    /** The tag of a constant, then the double, the string or the function. */
    method SaveValue(k: Constant)
      requires ConstantOk(k, false)
      modifies this`bytes
      ensures bytes == old(bytes) + ConstantBytes(k)
      decreases k
    {
      match k
      case Number(v) =>
        WriteU8(NUMBER_TAG);
        WriteDouble(v);
        Assoc(old(bytes), [NUMBER_TAG], DoubleBytes(v));
      case Str(s) =>
        WriteU8(STRING_TAG);
        WriteString(s);
        Assoc(old(bytes), [STRING_TAG], StringBytes(s));
      case Func(f) =>
        WriteU8(FUNCTION_TAG);
        SaveFunction(f);
        Assoc(old(bytes), [FUNCTION_TAG], FunctionBytes(f));
    }

    /** save_function */
    method SaveFunction(f: FunctionImage)
      requires FunctionOk(f, false)
      modifies this`bytes
      ensures bytes == old(bytes) + FunctionBytes(f)
      decreases f
    {
      SaveChunk(f.chunk);
      SaveTail(f);
      Assoc(old(bytes), ChunkBytes(f.chunk), FunctionTail(f));
    }

    /** save_function after the chunk. */
    method SaveTail(f: FunctionImage)
      modifies this`bytes
      ensures bytes == old(bytes) + FunctionTail(f)
    {
      WriteString(f.name);
      WriteU8(f.argCount);
      WriteU16(f.upvalueCount);
      WriteU8(if f.vararg then 1 else 0);
      WriteU16(f.maxSlots);
    }

    /**
     * lit_save_module: the name, the private count, the stripped flag, the
     * private names unless stripped, and the main function. The private
     * names are those of every occupied slot of the table (corrected:
     * lit_save_module looks at the first private_count slots only, which
     * is SavePrivatesAsWritten).
     */
    method SaveModule(m: ModuleImage, stripped: bool)
      requires FunctionOk(m.main, false)
      modifies this`bytes
      ensures bytes == old(bytes) + ModuleBytes(m, stripped)
    {
      SaveModuleHead(m, stripped);
      SaveFunction(m.main);
      Assoc(old(bytes), ModuleHead(m, stripped), FunctionBytes(m.main));
    }

    /** lit_save_module before the main function. */
    method SaveModuleHead(m: ModuleImage, stripped: bool)
      modifies this`bytes
      ensures bytes == old(bytes) + ModuleHead(m, stripped)
    {
      WriteString(m.name);
      WriteU16(m.privateCount);
      WriteU8(if stripped then 1 else 0);
      if !stripped {
        SavePrivates(m.entries);
      }
      ghost var flag: seq<bv8> := [if stripped then 1 else 0];
      Assoc(old(bytes) + StringBytes(m.name), U16Bytes(m.privateCount) + flag,
            if stripped then [] else PrivatesBytes(Occupied(m.entries)));
      Assoc(old(bytes) + StringBytes(m.name), U16Bytes(m.privateCount), flag);
      Assoc(old(bytes), StringBytes(m.name), PrivatesPart(m, stripped));
    }

    /**
     * The private-names loop of lit_save_module, corrected to go over the
     * whole table: the name and the slot of each occupied entry.
     */
    method SavePrivates(es: seq<Option<Private>>)
      modifies this`bytes
      ensures bytes == old(bytes) + PrivatesBytes(Occupied(es))
    {
      for i := 0 to |es|
        invariant bytes == old(bytes) + PrivatesBytes(Occupied(es[..i]))
      {
        ghost var before := Occupied(es[..i]);
        assert es[..i + 1][..i] == es[..i];
        assert Occupied(es[..i + 1]) == before + if es[i].Some? then [es[i].value] else [];
        if es[i].Some? {
          var p := es[i].value;
          WriteString(p.name);
          WriteU16(p.index);
          assert (before + [p])[..|before|] == before;
          assert PrivatesBytes(before + [p]) == PrivatesBytes(before) + PrivateBytes(p);
          Assoc(old(bytes), PrivatesBytes(before), PrivateBytes(p));
          Assoc(old(bytes) + PrivatesBytes(before), StringBytes(p.name), U16Bytes(p.index));
        } else {
          assert before + [] == before;
        }
      }
      assert es[..|es|] == es;
    }

    /**
     * The private-names loop of lit_save_module as written: the occupied
     * entries among the first count slots only. The table holds count
     * names, so it has at least count slots.
     */
    method SavePrivatesAsWritten(es: seq<Option<Private>>, count: nat)
      requires count <= |es|
      modifies this`bytes
      ensures bytes == old(bytes) + PrivatesBytes(Occupied(es[..count]))
    {
      SavePrivates(es[..count]);
    }

    /**
     * The file the compiler writes (state.c): the magic number, the
     * version, the module count, each module and the end number.
     */
    method SaveFile(ms: seq<ModuleImage>, stripped: bool)
      requires forall j :: 0 <= j < |ms| ==> FunctionOk(ms[j].main, false)
      modifies this`bytes
      ensures bytes == old(bytes) + FileBytes(ms, stripped)
    {
      WriteU16(BYTECODE_MAGIC_NUMBER);
      WriteU8(BYTECODE_VERSION);
      WriteU16(|ms|);
      ghost var head := FramedHead(BYTECODE_MAGIC_NUMBER, BYTECODE_VERSION, |ms|);
      assert bytes == old(bytes) + head;
      SaveModules(ms, stripped);
      Assoc(old(bytes), head, ModulesFrom(ms, 0, stripped));
      WriteU16(BYTECODE_END_NUMBER);
      Assoc(old(bytes), head + ModulesFrom(ms, 0, stripped), U16Bytes(BYTECODE_END_NUMBER));
    }

    /** The module loop of the compiler's save. */
    method SaveModules(ms: seq<ModuleImage>, stripped: bool)
      requires forall j :: 0 <= j < |ms| ==> FunctionOk(ms[j].main, false)
      modifies this`bytes
      ensures bytes == old(bytes) + ModulesFrom(ms, 0, stripped)
    {
      for i := 0 to |ms|
        invariant bytes + ModulesFrom(ms, i, stripped) == old(bytes) + ModulesFrom(ms, 0, stripped)
      {
        ghost var before := bytes;
        SaveModule(ms[i], stripped);
        Assoc(before, ModuleBytes(ms[i], stripped), ModulesFrom(ms, i + 1, stripped));
      }
    }
  }

  /** The tag byte tells the kinds of constant apart. */
  lemma ConstantTag(k: Constant)
    requires ConstantOk(k, false)
    ensures (ConstantBytes(k)[0] == NUMBER_TAG <==> k.Number?) && (ConstantBytes(k)[0] == STRING_TAG <==> k.Str?)
    ensures (ConstantBytes(k)[0] == FUNCTION_TAG <==> k.Func?)
  {
  }

  /**
   * The loaders of an emulated file: each is given the image whose bytes
   * stand at the position, as the save functions wrote them, and reads
   * them back in the same order.
   */
  class Loader {
    const file: Input

    constructor (file: Input)
      ensures this.file == file
    {
      this.file := file;
    }

    /** The code half of load_chunk: count bytes after their count. */
    method LoadCode(ghost code: seq<bv8>) returns (r: seq<bv8>)
      requires |code| < 0x1_0000_0000 && Holds(file.source, U32Bytes(|code|) + code, file.position)
      modifies file`position
      ensures r == code && file.position == old(file.position) + 4 + |code|
    {
      ghost var at := file.position;
      HoldsSplit(file.source, U32Bytes(|code|), code, at);
      HoldsU32(file.source, |code|, at);
      HoldsSlice(file.source, code, at + 4);
      var count := file.ReadU32();
      assert file.position == at + 4 && count == |code|;
      r := file.ReadBytes(count);
    }

    /**
     * The line-table half of load_chunk: a count of words and the words;
     * a count of zero turns line information off. The index of the
     * current pair is two below the count.
     */
    method LoadLines(ghost c: ChunkImage) returns (hasLineInfo: bool, lineCount: nat, lines: seq<U16>)
      requires c.hasLineInfo ==> WordsInUse(c) <= |c.lines| && WordsInUse(c) < 0x1_0000_0000
      requires Holds(file.source, LineBytes(c), file.position)
      modifies file`position
      ensures hasLineInfo == c.hasLineInfo && file.position == old(file.position) + |LineBytes(c)|
      ensures lineCount == (if c.hasLineInfo then c.lineCount else 0)
      ensures lines == if c.hasLineInfo then c.lines[..WordsInUse(c)] else []
    {
      ghost var at := file.position;
      ghost var n := if c.hasLineInfo then WordsInUse(c) else 0;
      ghost var ws := if c.hasLineInfo then c.lines[..n] else [];
      assert LineBytes(c) == U32Bytes(n) + WordsBytes(ws);
      HoldsSplit(file.source, U32Bytes(n), WordsBytes(ws), at);
      HoldsU32(file.source, n, at);
      var count := file.ReadU32();
      assert count == n == |ws| && file.position == at + 4;
      if count > 0 {
        hasLineInfo, lineCount := true, count - 2;
        lines := LoadWords(ws, count);
      } else {
        hasLineInfo, lineCount, lines := false, 0, [];
      }
    }

    /**
     * The line-table half of load_chunk as written, for the words ws that
     * stand after their count: line_count becomes the number of words, so
     * the index of the current pair lies past the table read.
     */
    method LoadLinesAsWritten(ghost ws: seq<U16>) returns (hasLineInfo: bool, lineCount: nat, lines: seq<U16>)
      requires |ws| < 0x1_0000_0000 && Holds(file.source, U32Bytes(|ws|) + WordsBytes(ws), file.position)
      modifies file`position
      ensures hasLineInfo == (|ws| > 0) && lines == ws && file.position == old(file.position) + 4 + 2 * |ws|
      ensures lineCount == |lines|
    {
      ghost var at := file.position;
      HoldsSplit(file.source, U32Bytes(|ws|), WordsBytes(ws), at);
      HoldsU32(file.source, |ws|, at);
      var count := file.ReadU32();
      if count > 0 {
        hasLineInfo, lineCount := true, count;
        lines := LoadWords(ws, count);
      } else {
        hasLineInfo, lineCount, lines := false, 0, [];
      }
    }

    /** The loop of load_chunk that reads the count words of the line table. */
    method LoadWords(ghost ws: seq<U16>, count: nat) returns (lines: seq<U16>)
      requires count == |ws| && Holds(file.source, WordsBytes(ws), file.position)
      modifies file`position
      ensures lines == ws && file.position == old(file.position) + 2 * count
    {
      ghost var at := file.position;
      lines := [];
      for i := 0 to count
        invariant file.position == at + 2 * i && lines == ws[..i]
      {
        WordAt(file.source, ws, at, i);
        var w := file.ReadU16();
        lines := lines + [w];
        assert ws[..i + 1] == ws[..i] + [ws[i]];
      }
      assert ws[..count] == ws;
    }

    /** load_chunk */
    method LoadChunk(ghost c: ChunkImage) returns (r: ChunkImage)
      requires Fits(c) && Holds(file.source, ChunkBytes(c), file.position)
      modifies file`position
      ensures r == Reloaded(c) && file.position == old(file.position) + |ChunkBytes(c)|
      decreases c, 2
    {
      HoldsSplit(file.source, ChunkHead(c), ConstantsFrom(c, 0), file.position);
      var bytes, hasLineInfo, lineCount, words, count := LoadChunkHead(c);
      var constants := LoadConstants(c, count);
      ReloadedConstants(c, constants);
      r := ChunkImage(bytes, hasLineInfo, lineCount, words, constants);
    }

    /** load_chunk up to the constants: the code, the line table and the number of constants. */
    method LoadChunkHead(ghost c: ChunkImage)
      returns (code: seq<bv8>, hasLineInfo: bool, lineCount: nat, lines: seq<U16>, count: nat)
      requires Fits(c) && Holds(file.source, ChunkHead(c), file.position)
      modifies file`position
      ensures var d := Reloaded(c);
        code == d.code && hasLineInfo == d.hasLineInfo && lineCount == d.lineCount && lines == d.lines
      ensures count == |c.constants| && file.position == old(file.position) + |ChunkHead(c)|
    {
      ghost var at := file.position;
      ghost var bytes, table := U32Bytes(|c.code|) + c.code, LineBytes(c);
      HoldsSplit(file.source, bytes + table, U32Bytes(|c.constants|), at);
      HoldsSplit(file.source, bytes, table, at);
      code := LoadCode(c.code);
      hasLineInfo, lineCount, lines := LoadLines(c);
      HoldsU32(file.source, |c.constants|, file.position);
      count := file.ReadU32();
    }

    /** The constant loop of load_chunk. */
    method LoadConstants(ghost c: ChunkImage, count: nat) returns (r: seq<Constant>)
      requires ChunkOk(c, false) && count == |c.constants| && ConstantsFit(c)
      requires Holds(file.source, ConstantsFrom(c, 0), file.position)
      modifies file`position
      ensures |r| == |c.constants| && forall j :: 0 <= j < |r| ==> r[j] == ReloadedConstant(c.constants[j])
      ensures file.position == old(file.position) + |ConstantsFrom(c, 0)|
      decreases c, 1
    {
      ghost var at := file.position;
      r := [];
      for i := 0 to count
        invariant ConstantsRead(file.source, c, i, r, file.position, at)
      {
        r := LoadConstantAt(c, i, r, at);
      }
    }

    /**
     * After i rounds of the constant loop: the constants read are those
     * of c, reloaded, and the position is where the next one stands.
     */
    ghost predicate ConstantsRead(src: seq<bv8>, c: ChunkImage, i: nat, r: seq<Constant>, position: nat, at: nat)
      requires ChunkOk(c, false)
    {
      i <= |c.constants| && |r| == i && (forall j :: 0 <= j < i ==> r[j] == ReloadedConstant(c.constants[j])) &&
      Holds(src, ConstantsFrom(c, i), position) && position + |ConstantsFrom(c, i)| == at + |ConstantsFrom(c, 0)|
    }

    /** The i-th round of the constant loop of load_chunk. */
    method LoadConstantAt(ghost c: ChunkImage, i: nat, r: seq<Constant>, ghost at: nat) returns (r': seq<Constant>)
      requires ChunkOk(c, false) && ConstantsFit(c) && i < |c.constants|
      requires ConstantsRead(file.source, c, i, r, file.position, at)
      modifies file`position
      ensures ConstantsRead(file.source, c, i + 1, r', file.position, at)
      decreases c, 0
    {
      HoldsSplit(file.source, ConstantBytes(c.constants[i]), ConstantsFrom(c, i + 1), file.position);
      var k := LoadConstant(c.constants[i]);
      r' := r + [k];
    }

    /**
     * One round of the constant loop: the tag, then a double, a string or
     * a function. A save writes no other tag, so the unreachable default
     * of the switch is not taken.
     */
    method LoadConstant(ghost k: Constant) returns (r: Constant)
      requires FitsConstant(k) && Holds(file.source, ConstantBytes(k), file.position)
      modifies file`position
      ensures r == ReloadedConstant(k) && file.position == old(file.position) + |ConstantBytes(k)|
      decreases k
    {
      ConstantTag(k);
      HoldsAt(file.source, ConstantBytes(k), file.position, 0);
      var tag := file.ReadU8();
      if tag == NUMBER_TAG {
        r := LoadNumber(k);
      } else if tag == STRING_TAG {
        r := LoadString(k);
      } else {
        assert tag == FUNCTION_TAG;
        ghost var at := file.position - 1;
        HoldsSplit(file.source, [FUNCTION_TAG], FunctionBytes(k.f), at);
        var f := LoadFunction(k.f);
        r := Func(f);
      }
    }

    /** The number case: the double after the tag. */
    method LoadNumber(ghost k: Constant) returns (r: Constant)
      requires k.Number? && file.position >= 1 && Holds(file.source, ConstantBytes(k), file.position - 1)
      modifies file`position
      ensures r == k && file.position == old(file.position) + 8
    {
      HoldsSplit(file.source, [NUMBER_TAG], DoubleBytes(k.bits), file.position - 1);
      assert file.source[file.position..file.position + 8] == DoubleBytes(k.bits);
      var v := file.ReadDouble();
      DoubleRoundTrip(k.bits);
      r := Number(v);
    }

    /** The string case: the string after the tag, an empty one for a length of zero. */
    method LoadString(ghost k: Constant) returns (r: Constant)
      requires k.Str? && |k.chars| < 0x1_0000 && file.position >= 1
      requires Holds(file.source, ConstantBytes(k), file.position - 1)
      modifies file`position
      ensures r == k && file.position == old(file.position) + |StringBytes(k.chars)|
    {
      HoldsSplit(file.source, [STRING_TAG], StringBytes(k.chars), file.position - 1);
      StringRoundTrip(file.source, k.chars, file.position);
      var s := file.ReadEString();
      r := StringConstant(s);
    }

    /** load_function: the chunk, then the fields save_function wrote after it. */
    method LoadFunction(ghost f: FunctionImage) returns (r: FunctionImage)
      requires FitsFunction(f) && Holds(file.source, FunctionBytes(f), file.position)
      modifies file`position
      ensures r == ReloadedFunction(f) && file.position == old(file.position) + |FunctionBytes(f)|
      decreases f
    {
      HoldsSplit(file.source, ChunkBytes(f.chunk), FunctionTail(f), file.position);
      var chunk := LoadChunk(f.chunk);
      r := LoadTail(chunk, f);
    }

    /** load_function after the chunk: the name (NULL, here empty, for length 0) and the fields. */
    method LoadTail(chunk: ChunkImage, ghost f: FunctionImage) returns (r: FunctionImage)
      requires |f.name| < 0x1_0000 && Holds(file.source, FunctionTail(f), file.position)
      modifies file`position
      ensures r == f.(chunk := chunk) && file.position == old(file.position) + |FunctionTail(f)|
    {
      HoldsSplit(file.source, StringBytes(f.name), FieldBytes(f), file.position);
      var name := LoadName(f.name);
      FieldsAt(file.source, f, file.position);
      var argCount := file.ReadU8();
      var upvalueCount := file.ReadU16();
      var vararg := file.ReadU8();
      var maxSlots := file.ReadU16();
      r := FunctionImage(chunk, name, argCount, upvalueCount, vararg != 0, maxSlots);
    }

    /** function->name = lit_read_estring(...): a NULL name is kept as the empty one. */
    method LoadName(ghost s: seq<bv8>) returns (name: seq<bv8>)
      requires |s| < 0x1_0000 && Holds(file.source, StringBytes(s), file.position)
      modifies file`position
      ensures name == s && file.position == old(file.position) + |StringBytes(s)|
    {
      StringRoundTrip(file.source, s, file.position);
      var read := file.ReadEString();
      name := if read.None? then [] else read.value;
    }

    /**
     * One module of lit_load_module: the name, the private count, the
     * flag, the private names unless the flag says they were stripped,
     * and the main function.
     */
    method LoadModuleImage(ghost m: ModuleImage, ghost stripped: bool) returns (r: LoadedModule)
      requires ModuleFits(m, stripped) && Holds(file.source, ModuleBytes(m, stripped), file.position)
      modifies file`position
      ensures r == ReloadedModule(m, stripped) && file.position == old(file.position) + |ModuleBytes(m, stripped)|
    {
      HoldsSplit(file.source, ModuleHead(m, stripped), FunctionBytes(m.main), file.position);
      var name, privateCount, privates := LoadModuleHead(m, stripped);
      var main := LoadFunction(m.main);
      r := LoadedModule(name, privateCount, privates, main);
    }

    /** lit_load_module before the main function. */
    method LoadModuleHead(ghost m: ModuleImage, ghost stripped: bool)
      returns (name: seq<bv8>, privateCount: U16, privates: seq<Private>)
      requires HeadFits(m, stripped) && Holds(file.source, ModuleHead(m, stripped), file.position)
      modifies file`position
      ensures name == m.name && privateCount == m.privateCount
      ensures privates == if stripped then [] else Occupied(m.entries)
      ensures file.position == old(file.position) + |ModuleHead(m, stripped)|
    {
      ghost var rest := PrivatesPart(m, stripped);
      assert ModuleHead(m, stripped) == StringBytes(m.name) + rest;
      HoldsSplit(file.source, StringBytes(m.name), rest, file.position);
      name := LoadName(m.name);
      privateCount, privates := LoadPrivatesPart(m, stripped);
    }

    /** The count, the flag and, unless stripped, the private names. */
    method LoadPrivatesPart(ghost m: ModuleImage, ghost stripped: bool) returns (privateCount: U16, privates: seq<Private>)
      requires HeadFits(m, stripped) && Holds(file.source, PrivatesPart(m, stripped), file.position)
      modifies file`position
      ensures privateCount == m.privateCount && privates == (if stripped then [] else Occupied(m.entries))
      ensures file.position == old(file.position) + |PrivatesPart(m, stripped)|
    {
      ghost var ps := if stripped then [] else Occupied(m.entries);
      ghost var flag: bv8 := if stripped then 1 else 0;
      assert PrivatesPart(m, stripped) == U16Bytes(m.privateCount) + [flag] + PrivatesBytes(ps);
      HoldsSplit(file.source, U16Bytes(m.privateCount) + [flag], PrivatesBytes(ps), file.position);
      var stored;
      privateCount, stored := LoadCountFlag(m.privateCount, flag);
      privates := LoadPrivates(ps, privateCount, stored == 0);
    }

    /** The private count as a uint16_t, then the byte of the flag. */
    method LoadCountFlag(ghost count: U16, ghost flag: bv8) returns (privateCount: U16, stored: bv8)
      requires Holds(file.source, U16Bytes(count) + [flag], file.position)
      modifies file`position
      ensures privateCount == count && stored == flag && file.position == old(file.position) + 3
    {
      ghost var at := file.position;
      HoldsSplit(file.source, U16Bytes(count), [flag], at);
      HoldsU16(file.source, count, at);
      HoldsAt(file.source, [flag], at + 2, 0);
      privateCount := file.ReadU16();
      stored := file.ReadU8();
    }

    /**
     * The private-names loop of lit_load_module: count rounds, each
     * reading a name and its slot when the names were kept.
     */
    method LoadPrivates(ghost ps: seq<Private>, count: nat, enabled: bool) returns (r: seq<Private>)
      requires enabled ==> |ps| == count && forall p :: p in ps ==> |p.name| < 0x1_0000
      requires !enabled ==> ps == []
      requires Holds(file.source, PrivatesBytes(ps), file.position)
      modifies file`position
      ensures r == ps && file.position == old(file.position) + |PrivatesBytes(ps)|
    {
      ghost var at := file.position;
      r := [];
      for i := 0 to count
        invariant enabled ==> r == ps[..i] && file.position == at + |PrivatesBytes(ps[..i])|
        invariant !enabled ==> r == [] && file.position == at
      {
        if enabled {
          ghost var here := at + |PrivatesBytes(ps[..i])|;
          ReadPrivate(ps, i, at);
          assert file.position == here && ps[i] in ps;
          var p := LoadPrivate(ps[i]);
          r := r + [p];
          PrivatesSnoc(ps, i);
        }
      }
      assert enabled ==> ps[..count] == ps;
    }

    /** The first i + 1 private names are the first i and the i-th. */
    lemma PrivatesSnoc(ps: seq<Private>, i: nat)
      requires i < |ps|
      ensures ps[..i + 1] == ps[..i] + [ps[i]]
    {
    }

    /** Where the i-th private name stands. */
    lemma ReadPrivate(ps: seq<Private>, i: nat, at: nat)
      requires i < |ps| && Holds(file.source, PrivatesBytes(ps), at)
      ensures Holds(file.source, PrivateBytes(ps[i]), at + |PrivatesBytes(ps[..i])|)
      ensures |PrivatesBytes(ps[..i + 1])| == |PrivatesBytes(ps[..i])| + |PrivateBytes(ps[i])|
    {
      assert ps[..i + 1] + ps[i + 1..] == ps;
      PrivatesAppend(ps[..i + 1], ps[i + 1..]);
      HoldsSplit(file.source, PrivatesBytes(ps[..i + 1]), PrivatesBytes(ps[i + 1..]), at);
      assert ps[..i + 1][..i] == ps[..i];
      HoldsSplit(file.source, PrivatesBytes(ps[..i]), PrivateBytes(ps[i]), at);
    }

    /** One round of that loop: the name, then the slot as a uint16_t. */
    method LoadPrivate(ghost p: Private) returns (r: Private)
      requires |p.name| < 0x1_0000 && Holds(file.source, PrivateBytes(p), file.position)
      modifies file`position
      ensures r == p && file.position == old(file.position) + |PrivateBytes(p)|
    {
      HoldsSplit(file.source, StringBytes(p.name), U16Bytes(p.index), file.position);
      var name := LoadName(p.name);
      HoldsU16(file.source, p.index, file.position);
      var index := file.ReadU16();
      r := Private(name, index);
    }

    /**
     * lit_load_module: the magic number and the version are checked before
     * any module is read, the end number after all of them. Each module
     * read is registered in the VM's module table (registered, in order),
     * whatever the end number; on success the first module comes back,
     * none when there are none.
     */
    method LoadFile(ghost magic: U16, ghost version: bv8, ghost ms: seq<ModuleImage>, ghost stripped: bool, ghost end: U16)
      returns (r: Result<Option<LoadedModule>, LoadError>, registered: seq<LoadedModule>)
      requires |ms| < 0x1_0000 && ModulesFit(ms, stripped)
      requires FileAt(file.source, file.position, magic, version, ms, stripped, end)
      modifies file`position
      ensures r == Outcome(magic, version, end, registered)
      ensures registered == if magic != BYTECODE_MAGIC_NUMBER || version > BYTECODE_VERSION then []
                            else ReloadedModules(ms, stripped)
    {
      var head := LoadHead(magic, version);
      if head.Failure? {
        return Failure(head.error), [];
      }
      r, registered := LoadBody(ms, stripped, end);
    }

    /** The magic number and the version lit_load_module checks first. */
    method LoadHead(ghost magic: U16, ghost version: bv8) returns (r: Result<(), LoadError>)
      requires WordIs(file.source, file.position, magic) && file.position + 2 < |file.source|
      requires file.source[file.position + 2] == version
      modifies file`position
      ensures r.Success? <==> magic == BYTECODE_MAGIC_NUMBER && version <= BYTECODE_VERSION
      ensures r.Failure? ==> r.error == if magic != BYTECODE_MAGIC_NUMBER then UnknownMagic else UnknownVersion(version)
      ensures r.Success? ==> file.position == old(file.position) + 3
    {
      var read := file.ReadU16();
      if read != BYTECODE_MAGIC_NUMBER {
        return Failure(UnknownMagic);
      }
      var bytecodeVersion := file.ReadU8();
      if bytecodeVersion > BYTECODE_VERSION {
        return Failure(UnknownVersion(bytecodeVersion));
      }
      r := Success(());
    }

    /** lit_load_module after the version: the module count, the modules and the end number. */
    method LoadBody(ghost ms: seq<ModuleImage>, ghost stripped: bool, ghost end: U16)
      returns (r: Result<Option<LoadedModule>, LoadError>, registered: seq<LoadedModule>)
      requires ModulesFit(ms, stripped) && BodyAt(file.source, file.position, ms, stripped, end)
      modifies file`position
      ensures registered == ReloadedModules(ms, stripped)
      ensures r == Outcome(BYTECODE_MAGIC_NUMBER, BYTECODE_VERSION, end, registered)
    {
      ghost var endAt := file.position + 2 + |ModulesFrom(ms, 0, stripped)|;
      assert WordIs(file.source, endAt, end);
      registered := LoadCounted(ms, stripped);
      assert file.position == endAt;
      r := LoadEnd(end, registered);
    }

    /** The module count and the modules it counts. */
    method LoadCounted(ghost ms: seq<ModuleImage>, ghost stripped: bool) returns (registered: seq<LoadedModule>)
      requires ModulesFit(ms, stripped) && CountedAt(file.source, file.position, ms, stripped)
      modifies file`position
      ensures registered == ReloadedModules(ms, stripped)
      ensures file.position == old(file.position) + 2 + |ModulesFrom(ms, 0, stripped)|
    {
      var count := file.ReadU16();
      registered := LoadModules(ms, stripped, count);
    }

    /** The end number after the modules: a file that ends otherwise is refused. */
    method LoadEnd(ghost end: U16, registered: seq<LoadedModule>) returns (r: Result<Option<LoadedModule>, LoadError>)
      requires WordIs(file.source, file.position, end)
      modifies file`position
      ensures r == Outcome(BYTECODE_MAGIC_NUMBER, BYTECODE_VERSION, end, registered)
    {
      var last := file.ReadU16();
      if last != BYTECODE_END_NUMBER {
        return Failure(UnknownEnd);
      }
      r := if |registered| == 0 then Success(None) else Success(Some(registered[0]));
    }

    /** The module loop of lit_load_module. */
    method LoadModules(ghost ms: seq<ModuleImage>, ghost stripped: bool, count: nat) returns (r: seq<LoadedModule>)
      requires count == |ms| && ModulesFit(ms, stripped)
      requires Holds(file.source, ModulesFrom(ms, 0, stripped), file.position)
      modifies file`position
      ensures r == ReloadedModules(ms, stripped)
      ensures file.position == old(file.position) + |ModulesFrom(ms, 0, stripped)|
    {
      ghost var at := file.position;
      r := [];
      for i := 0 to count
        invariant ModulesRead(file.source, ms, stripped, i, r, file.position, at)
      {
        r := LoadModuleAt(ms, stripped, i, r, at);
      }
      assert ReloadedModules(ms, stripped)[..count] == ReloadedModules(ms, stripped);
    }

    /** After i rounds of the module loop: the modules read so far, and where the next one stands. */
    ghost predicate ModulesRead(src: seq<bv8>, ms: seq<ModuleImage>, stripped: bool, i: nat, r: seq<LoadedModule>,
                                position: nat, at: nat)
      requires ModulesFit(ms, stripped)
    {
      i <= |ms| && r == ReloadedModules(ms, stripped)[..i] &&
      Holds(src, ModulesFrom(ms, i, stripped), position) &&
      position + |ModulesFrom(ms, i, stripped)| == at + |ModulesFrom(ms, 0, stripped)|
    }

    /** The i-th round of the module loop. */
    method LoadModuleAt(ghost ms: seq<ModuleImage>, ghost stripped: bool, i: nat, r: seq<LoadedModule>, ghost at: nat)
      returns (r': seq<LoadedModule>)
      requires ModulesFit(ms, stripped) && i < |ms| && ModulesRead(file.source, ms, stripped, i, r, file.position, at)
      modifies file`position
      ensures ModulesRead(file.source, ms, stripped, i + 1, r', file.position, at)
    {
      ghost var here := file.position;
      ModulesReadNext(file.source, ms, stripped, i, r, here, at);
      var m := LoadModuleImage(ms[i], stripped);
      ghost var next := here + |ModuleBytes(ms[i], stripped)|;
      assert file.position == next;
      r' := r + [m];
      assert ModulesRead(file.source, ms, stripped, i + 1, r', next, at);
    }

    /** Round i of the module loop finds module i at the position, and reading it leaves the rounds after it. */
    lemma ModulesReadNext(src: seq<bv8>, ms: seq<ModuleImage>, stripped: bool, i: nat, r: seq<LoadedModule>,
                          position: nat, at: nat)
      requires ModulesFit(ms, stripped) && i < |ms| && ModulesRead(src, ms, stripped, i, r, position, at)
      ensures Holds(src, ModuleBytes(ms[i], stripped), position)
      ensures ModulesRead(src, ms, stripped, i + 1, r + [ReloadedModule(ms[i], stripped)],
                          position + |ModuleBytes(ms[i], stripped)|, at)
    {
      var head, rest := ModuleBytes(ms[i], stripped), ModulesFrom(ms, i + 1, stripped);
      assert ModulesFrom(ms, i, stripped) == head + rest;
      HoldsSplit(src, head, rest, position);
      ReloadedModulesSnoc(ms, stripped, i, r, ReloadedModule(ms[i], stripped));
    }
  }

  /** The compile errors lit_load_module reports. */
  datatype LoadError = UnknownMagic | UnknownVersion(version: bv8) | UnknownEnd

  /**
   * What lit_load_module returns for a file with this magic number,
   * version and end number, once it has registered these modules: the
   * error of the first check that fails, else the first module (NULL,
   * here None, when there is none).
   */
  function Outcome(magic: U16, version: bv8, end: U16, registered: seq<LoadedModule>): (r: Result<Option<LoadedModule>, LoadError>)
    ensures r.Success? <==> magic == BYTECODE_MAGIC_NUMBER && version <= BYTECODE_VERSION && end == BYTECODE_END_NUMBER
    ensures r.Success? ==> (r.value.None? <==> registered == []) && (r.value.Some? ==> r.value.value == registered[0])
  {
    if magic != BYTECODE_MAGIC_NUMBER then Failure(UnknownMagic)
    else if version > BYTECODE_VERSION then Failure(UnknownVersion(version))
    else if end != BYTECODE_END_NUMBER then Failure(UnknownEnd)
    else if registered == [] then Success(None)
    else Success(Some(registered[0]))
  }

  // --------------------------------------------------------------- modules

  /** A private name of a module and its slot, an entry of its private_names table. */
  datatype Private = Private(name: seq<bv8>, index: U16)

  /**
   * The fields of a LitModule that lit_save_module reads: the name, the
   * private count, the entries (slots) of the private-names table, NULL
   * keys as None, and the main function.
   */
  datatype ModuleImage = ModuleImage(name: seq<bv8>, privateCount: nat, entries: seq<Option<Private>>,
                                     main: FunctionImage)

  /** What lit_load_module builds of one module: the private names come in the order they were read. */
  datatype LoadedModule = LoadedModule(name: seq<bv8>, privateCount: U16, privates: seq<Private>, main: FunctionImage)

  /** The occupied entries of a table, in slot order. */
  function Occupied(es: seq<Option<Private>>): (r: seq<Private>)
    ensures |r| <= |es|
  {
    if es == [] then [] else
      Occupied(es[..|es| - 1]) + (if es[|es| - 1].Some? then [es[|es| - 1].value] else [])
  }

  /** One private name as lit_save_module writes it: the name, then its slot as a uint16_t. */
  function PrivateBytes(p: Private): seq<bv8>
  {
    StringBytes(p.name) + U16Bytes(p.index)
  }

  function PrivatesBytes(ps: seq<Private>): seq<bv8>
  {
    if ps == [] then [] else PrivatesBytes(ps[..|ps| - 1]) + PrivateBytes(ps[|ps| - 1])
  }

  /**
   * lit_save_module before the main function: the name, the private
   * count, the flag, set when private names are stripped (the
   * PRIVATE_NAMES optimization is on), and unless stripped the private
   * names, one for every occupied entry of the table.
   */
  function ModuleHead(m: ModuleImage, stripped: bool): seq<bv8>
  {
    StringBytes(m.name) + PrivatesPart(m, stripped)
  }

  /** The private count, the flag and the private names of a module head. */
  function PrivatesPart(m: ModuleImage, stripped: bool): seq<bv8>
  {
    U16Bytes(m.privateCount) + [if stripped then 1 else 0] + (if stripped then [] else PrivatesBytes(Occupied(m.entries)))
  }

  function ModuleBytes(m: ModuleImage, stripped: bool): seq<bv8>
    requires FunctionOk(m.main, false)
  {
    ModuleHead(m, stripped) + FunctionBytes(m.main)
  }

  /** The modules of ms from the i-th on. */
  function ModulesFrom(ms: seq<ModuleImage>, i: nat, stripped: bool): seq<bv8>
    requires forall j :: 0 <= j < |ms| ==> FunctionOk(ms[j].main, false)
    decreases |ms| - i
  {
    if i >= |ms| then [] else ModuleBytes(ms[i], stripped) + ModulesFrom(ms, i + 1, stripped)
  }

  /**
   * The file the compiler writes for some modules (state.c): the magic
   * number, the bytecode version, the number of modules, each module, and
   * the end number.
   */
  function FileBytes(ms: seq<ModuleImage>, stripped: bool): (r: seq<bv8>)
    requires forall j :: 0 <= j < |ms| ==> FunctionOk(ms[j].main, false)
    ensures |r| == 7 + |ModulesFrom(ms, 0, stripped)|
    ensures r[..2] == U16Bytes(BYTECODE_MAGIC_NUMBER) && r[2] == BYTECODE_VERSION
    ensures r[|r| - 2..] == U16Bytes(BYTECODE_END_NUMBER)
  {
    var head, body, end := FramedHead(BYTECODE_MAGIC_NUMBER, BYTECODE_VERSION, |ms|), ModulesFrom(ms, 0, stripped),
                           U16Bytes(BYTECODE_END_NUMBER);
    var all := head + body + end;
    assert all[..2] == head[..2] && all[2] == head[2] == BYTECODE_VERSION;
    assert all[|head + body|..] == end;
    all
  }

  /** A file framed by any magic number, version and end number. */
  function Framed(magic: U16, version: bv8, ms: seq<ModuleImage>, stripped: bool, end: U16): seq<bv8>
    requires forall j :: 0 <= j < |ms| ==> FunctionOk(ms[j].main, false)
  {
    FramedHead(magic, version, |ms|) + ModulesFrom(ms, 0, stripped) + U16Bytes(end)
  }

  function FramedHead(magic: U16, version: bv8, count: nat): seq<bv8>
  {
    U16Bytes(magic) + [version] + U16Bytes(count)
  }

  /**
   * A module whose every count survives the trip: the name and the private
   * count below 65536 and, when the names are kept, each name shorter than
   * 65536 bytes and as many names as the private count.
   */
  ghost predicate ModuleFits(m: ModuleImage, stripped: bool)
  {
    FunctionOk(m.main, false) && FunctionOk(m.main, true) && HeadFits(m, stripped)
  }

  /** Every module fits (written out, so that each conjunct is at hand for every module). */
  ghost predicate ModulesFit(ms: seq<ModuleImage>, stripped: bool)
  {
    forall j :: 0 <= j < |ms| ==> FunctionOk(ms[j].main, false) && FunctionOk(ms[j].main, true) && HeadFits(ms[j], stripped)
  }

  /**
   * The part of ModuleFits about what lit_save_module writes before the
   * main function. lit_load_module reads private_count names when they
   * were kept, so that many must stand in the file: the corrected save
   * writes one per occupied entry, and the emitter counts a name exactly
   * when it enters it in the table (ccemit.c:375-376). Stripped, no name
   * is read and the count is free.
   */
  ghost predicate HeadFits(m: ModuleImage, stripped: bool)
  {
    |m.name| < 0x1_0000 && m.privateCount < 0x1_0000 &&
    (!stripped ==> |Occupied(m.entries)| == m.privateCount && forall p :: p in Occupied(m.entries) ==> |p.name| < 0x1_0000)
  }

  /**
   * The private names lit_save_module writes as written: the occupied
   * entries among the first private_count slots.
   */
  function PrivatesAsWritten(m: ModuleImage): (r: seq<Private>)
    requires m.privateCount <= |m.entries|
    ensures |r| <= m.privateCount
  {
    Occupied(m.entries[..m.privateCount])
  }

  /**
   * Saved as written, a module with an empty slot among its first
   * private_count has fewer names in the file than the private_count
   * names lit_load_module reads, so the loader takes the bytes after
   * them, those of the main function, for the names missing.
   */
  lemma PrivatesAsWrittenShort(m: ModuleImage, k: nat)
    requires m.privateCount <= |m.entries| && k < m.privateCount && m.entries[k].None?
    ensures |PrivatesAsWritten(m)| < m.privateCount
  {
    OccupiedShort(m.entries[..m.privateCount], k);
  }

  /**
   * A table of two slots holding one private name in its second slot: the
   * corrected save writes the name, the save as written writes none,
   * though the private count it writes is 1.
   */
  lemma SecondSlotDropped(main: FunctionImage)
    ensures var m := ModuleImage([], 1, [None, Some(Private([0x61], 0))], main);
      Occupied(m.entries) == [Private([0x61], 0)] && PrivatesAsWritten(m) == [] && HeadFits(m, false)
  {
    var es: seq<Option<Private>> := [None, Some(Private([0x61], 0))];
    assert es[..1] == [None] && es[..1][..0] == [];
    assert Occupied(es[..1]) == [];
  }

  /** A table with an empty slot has fewer occupied entries than slots. */
  lemma {:induction false} OccupiedShort(es: seq<Option<Private>>, k: nat)
    requires k < |es| && es[k].None?
    ensures |Occupied(es)| < |es|
  {
    assert es == es[..k] + [es[k]] + es[k + 1..];
    OccupiedAppend(es[..k] + [es[k]], es[k + 1..]);
    OccupiedAppend(es[..k], [es[k]]);
    assert [es[k]][..0] == [];
  }

  /** What lit_load_module builds of the bytes lit_save_module wrote for m. */
  function ReloadedModule(m: ModuleImage, stripped: bool): LoadedModule
    requires FunctionOk(m.main, false) && m.privateCount < 0x1_0000
  {
    LoadedModule(m.name, m.privateCount, if stripped then [] else Occupied(m.entries), ReloadedFunction(m.main))
  }

  /** The modules lit_load_module builds, in file order. */
  function ReloadedModules(ms: seq<ModuleImage>, stripped: bool): (r: seq<LoadedModule>)
    requires ModulesFit(ms, stripped)
    ensures |r| == |ms|
  {
    seq(|ms|, j requires 0 <= j < |ms| => ReloadedModule(ms[j], stripped))
  }

  /**
   * Where the parts of a saved file stand from offset at: the magic number,
   * the version byte, the module count, the modules and the end number.
   */
  ghost predicate FileAt(src: seq<bv8>, at: nat, magic: U16, version: bv8, ms: seq<ModuleImage>, stripped: bool, end: U16)
    requires forall j :: 0 <= j < |ms| ==> FunctionOk(ms[j].main, false)
  {
    WordIs(src, at, magic) && at + 2 < |src| && src[at + 2] == version && BodyAt(src, at + 3, ms, stripped, end)
  }

  /** From offset at: the module count, the modules and the end number. */
  ghost predicate BodyAt(src: seq<bv8>, at: nat, ms: seq<ModuleImage>, stripped: bool, end: U16)
    requires forall j :: 0 <= j < |ms| ==> FunctionOk(ms[j].main, false)
  {
    CountedAt(src, at, ms, stripped) && WordIs(src, at + 2 + |ModulesFrom(ms, 0, stripped)|, end)
  }

  /** From offset at: the module count and the modules. */
  ghost predicate CountedAt(src: seq<bv8>, at: nat, ms: seq<ModuleImage>, stripped: bool)
    requires forall j :: 0 <= j < |ms| ==> FunctionOk(ms[j].main, false)
  {
    WordIs(src, at, |ms|) && Holds(src, ModulesFrom(ms, 0, stripped), at + 2)
  }

  /** The bytes SaveFile writes, standing from offset at, are laid out as FileAt says. */
  lemma FramedFileAt(src: seq<bv8>, magic: U16, version: bv8, ms: seq<ModuleImage>, stripped: bool, end: U16, at: nat)
    requires |ms| < 0x1_0000 && forall j :: 0 <= j < |ms| ==> FunctionOk(ms[j].main, false)
    requires Holds(src, Framed(magic, version, ms, stripped, end), at)
    ensures FileAt(src, at, magic, version, ms, stripped, end)
  {
    var body := ModulesFrom(ms, 0, stripped);
    FramedAt(src, magic, version, |ms|, body, end, at);
    assert CountedAt(src, at + 3, ms, stripped);
    assert WordIs(src, at + 3 + 2 + |body|, end);
  }

  /** Where the parts of a framed file stand, for any bytes between the head and the end number. */
  lemma FramedAt(src: seq<bv8>, magic: U16, version: bv8, count: U16, body: seq<bv8>, end: U16, at: nat)
    requires Holds(src, FramedHead(magic, version, count) + body + U16Bytes(end), at)
    ensures WordIs(src, at, magic) && at + 2 < |src| && src[at + 2] == version
    ensures WordIs(src, at + 3, count) && Holds(src, body, at + 3 + 2) && WordIs(src, at + 3 + 2 + |body|, end)
  {
    var head := FramedHead(magic, version, count);
    HoldsSplit(src, head + body, U16Bytes(end), at);
    HoldsMoved(src, U16Bytes(end), at + |head + body|, at + 5 + |body|);
    HoldsSplit(src, head, body, at);
    HoldsSplit(src, U16Bytes(magic) + [version], U16Bytes(count), at);
    HoldsSplit(src, U16Bytes(magic), [version], at);
    HoldsAt(src, [version], at + 2, 0);
    HoldsU16(src, magic, at);
    HoldsU16(src, count, at + 3);
    HoldsU16(src, end, at + 5 + |body|);
  }

  lemma ReloadedModulesSnoc(ms: seq<ModuleImage>, stripped: bool, i: nat, r: seq<LoadedModule>, m: LoadedModule)
    requires ModulesFit(ms, stripped) && i < |ms| && r == ReloadedModules(ms, stripped)[..i]
    requires m == ReloadedModule(ms[i], stripped)
    ensures r + [m] == ReloadedModules(ms, stripped)[..i + 1]
  {
    var all := ReloadedModules(ms, stripped);
    assert all[..i + 1] == all[..i] + [all[i]];
  }

  lemma {:induction false} PrivatesAppend(ps: seq<Private>, qs: seq<Private>)
    ensures PrivatesBytes(ps + qs) == PrivatesBytes(ps) + PrivatesBytes(qs)
    decreases |qs|
  {
    if qs == [] {
      assert ps + qs == ps;
    } else {
      var n := |qs| - 1;
      assert (ps + qs)[..|ps + qs| - 1] == ps + qs[..n];
      assert (ps + qs)[|ps + qs| - 1] == qs[n];
      PrivatesAppend(ps, qs[..n]);
      Assoc(PrivatesBytes(ps), PrivatesBytes(qs[..n]), PrivateBytes(qs[n]));
    }
  }

  lemma {:induction false} OccupiedAppend(a: seq<Option<Private>>, b: seq<Option<Private>>)
    ensures Occupied(a + b) == Occupied(a) + Occupied(b)
    decreases |b|
  {
    if b == [] {
      assert a + b == a;
    } else {
      var n := |b| - 1;
      assert (a + b)[..|a + b| - 1] == a + b[..n];
      OccupiedAppend(a, b[..n]);
    }
  }

  /** A table has no occupied entry exactly when its occupied entries are none. */
  lemma {:induction false} NoneOccupied(es: seq<Option<Private>>)
    ensures Occupied(es) == [] <==> forall j :: 0 <= j < |es| ==> es[j].None?
  {
    if es != [] {
      var init := es[..|es| - 1];
      NoneOccupied(init);
      assert forall j :: 0 <= j < |init| ==> init[j] == es[j];
      assert Occupied(es) == Occupied(init) + (if es[|es| - 1].Some? then [es[|es| - 1].value] else []);
    }
  }
}
