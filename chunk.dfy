/**
 * The bytecode chunk of chunk.c: a growable byte buffer, a run-length
 * encoded table mapping each byte to its source line, and a list of
 * constants.
 *
 * The line table is an array of uint16 words read in pairs (line, number
 * of bytes). The pair at line_count is the current run; the run lengths
 * are uint16 too, and wrap around after 65535 bytes on one line.
 */
module Chunk {
  import opened Lit
  import LibArray

  /** A uint16_t word of the line table. */
  type U16 = x: int | 0 <= x < 0x1_0000

  /** A pair of the line table: a source line and how many consecutive bytes came from it. */
  datatype Run = Run(line: int, length: int)

  /** `length` copies of `line`. */
  function Repeat(line: int, length: int): (r: seq<int>)
    ensures |r| == if length < 0 then 0 else length
    ensures forall k :: 0 <= k < |r| ==> r[k] == line
  {
    seq(if length < 0 then 0 else length, _ => line)
  }

  /** The line of every byte the runs describe, in order. */
  function Expand(ps: seq<Run>): seq<int>
  {
    if ps == [] then [] else Expand(ps[..|ps| - 1]) + Repeat(ps[|ps| - 1].line, ps[|ps| - 1].length)
  }

  /** The number of bytes the runs describe. */
  function Total(ps: seq<Run>): int
  {
    if ps == [] then 0 else Total(ps[..|ps| - 1]) + (if ps[|ps| - 1].length < 0 then 0 else ps[|ps| - 1].length)
  }

  /** The first n pairs of a line table. */
  function Pairs(a: seq<U16>, n: nat): (r: seq<Run>)
    requires 2 * n <= |a|
    ensures |r| == n && forall k :: 0 <= k < n ==> r[k] == Run(a[2 * k], a[2 * k + 1])
  {
    seq(n, k requires 0 <= k < n => Run(a[2 * k], a[2 * k + 1]))
  }

  lemma {:induction false} ExpandLength(ps: seq<Run>)
    ensures |Expand(ps)| == Total(ps)
  {
    if ps != [] {
      ExpandLength(ps[..|ps| - 1]);
    }
  }

  lemma {:induction false} ExpandAppend(a: seq<Run>, b: seq<Run>)
    ensures Expand(a + b) == Expand(a) + Expand(b)
    decreases |b|
  {
    if b != [] {
      assert (a + b)[..|a + b| - 1] == a + b[..|b| - 1];
      ExpandAppend(a, b[..|b| - 1]);
    } else {
      assert a + b == a;
    }
  }

  /** The byte at position p lies in run j - 1: it has that run's line. */
  lemma ExpandAt(ps: seq<Run>, j: nat, p: int)
    requires 1 <= j <= |ps| && Total(ps[..j - 1]) <= p < Total(ps[..j])
    ensures 0 <= p < |Expand(ps)| && Expand(ps)[p] == ps[j - 1].line
  {
    var pre, run, post := ps[..j - 1], ps[j - 1], ps[j..];
    assert ps[..j] == pre + [run] && ps == ps[..j] + post;
    assert ps[..j][..j - 1] == pre;
    ExpandAppend(ps[..j], post);
    ExpandLength(pre);
    ExpandLength(ps[..j]);
    assert Expand(ps[..j]) == Expand(pre) + Repeat(run.line, run.length);
    assert Expand(ps)[p] == Expand(ps[..j])[p];
  }

  /**
   * What lit_chunk_push does to the pairs up to the current one: a line
   * other than that of a non-empty current run opens a new run of one byte;
   * otherwise the current run takes the line and one more byte, its
   * uint16 length wrapping around.
   */
  function PushRun(cur: seq<Run>, line: int): (r: seq<Run>)
    requires |cur| >= 1
    ensures |r| >= 1 && r[|r| - 1].line == line
  {
    var last := cur[|cur| - 1];
    if last.line != 0 && last.line != line then cur + [Run(line, 1)]
    else cur[..|cur| - 1] + [Run(line, (last.length + 1) % 0x1_0000)]
  }

  /**
   * The pairs up to the current one record the lines h of the bytes pushed:
   * they expand to h; with nothing pushed they are the single pair (0, 0)
   * push starts from, and otherwise every run has a line and a byte.
   */
  ghost predicate Records(ps: seq<Run>, h: seq<int>)
  {
    Expand(ps) == h &&
    (h == [] ==> ps == [Run(0, 0)]) &&
    (h != [] ==> |ps| >= 1 && forall k :: 0 <= k < |ps| ==> ps[k].line >= 1 && ps[k].length >= 1)
  }

  /**
   * Push keeps the table a record of the lines, as long as the line is a
   * real one (line 0 would read as "no run yet" and be relabelled by the
   * next line) and the current run does not wrap past 65535 bytes.
   */
  lemma PushRunRecords(ps: seq<Run>, h: seq<int>, line: int)
    requires Records(ps, h) && line >= 1
    requires ps[|ps| - 1].line == line ==> 0 <= ps[|ps| - 1].length < 0xffff
    ensures Records(PushRun(ps, line), h + [line])
  {
    var last := ps[|ps| - 1];
    var r := PushRun(ps, line);
    if last.line != 0 && last.line != line {
      assert r[..|r| - 1] == ps;
      assert Repeat(line, 1) == [line];
    } else {
      assert r[..|r| - 1] == ps[..|ps| - 1];
      if h == [] {
        assert r == [Run(line, 1)];
        assert Repeat(line, 1) == [line];
      } else {
        assert last.line == line && r[|r| - 1] == Run(line, last.length + 1);
        assert Repeat(line, last.length + 1) == Repeat(line, last.length) + [line];
      }
    }
  }

  /**
   * A run that reaches 65536 bytes wraps to length 0: the next push on the
   * same line makes every byte of the run disappear from the table.
   */
  lemma PushRunWraps()
    ensures Records([Run(7, 0xffff)], Repeat(7, 0xffff))
    ensures PushRun([Run(7, 0xffff)], 7) == [Run(7, 0)] && Expand([Run(7, 0)]) == []
  {
    assert [Run(7, 0xffff)][..0] == [];
    assert [Run(7, 0)][..0] == [];
  }

  /** Writing the pair after the first n opens a new one. */
  lemma PairsOpen(t: seq<U16>, n: nat, line: U16)
    requires 2 * n + 2 <= |t|
    ensures Pairs(t[2 * n := line][2 * n + 1 := 1], n + 1) == Pairs(t, n) + [Run(line, 1)]
  {
  }

  /** Writing the n-th pair replaces the last of the first n. */
  lemma PairsSet(t: seq<U16>, n: nat, line: U16, length: U16)
    requires 1 <= n && 2 * n <= |t|
    ensures Pairs(t[2 * n - 2 := line][2 * n - 1 := length], n) == Pairs(t, n)[..n - 1] + [Run(line, length)]
  {
  }

  /** LIT_GROW_ARRAY: a buffer of n slots starting with the old slots that fit. */
  method Resized<T(0)>(a: array<T>, n: nat) returns (b: array<T>)
    ensures fresh(b) && b.Length == n
    ensures forall k :: 0 <= k < n && k < a.Length ==> b[k] == a[k]
  {
    b := new T[n];
    var i := 0;
    while i < n && i < a.Length
      invariant i <= n && forall k :: 0 <= k < i && k < a.Length ==> b[k] == a[k]
      modifies b
    {
      b[i] := a[i];
      i := i + 1;
    }
  }


  class Chunk {
    var code: array<bv8>
    var count: nat
    var capacity: nat
    var hasLineInfo: bool
    var lines: array<U16>
    var lineCount: nat
    var lineCapacity: nat
    const constants: LibArray.ValueList
    /** The line passed to every push made while line information was kept. */
    ghost var history: seq<int>

    /**
     * The shape push relies on: the bytes fit the buffer, and an allocated
     * line table has two words to spare past its capacity, which is at
     * least the index of the current pair.
     */
    ghost predicate Valid()
      reads this
    {
      count <= capacity <= code.Length && code as object != lines &&
      lineCount % 2 == 0 &&
      (lineCapacity == 0 ==> lineCount == 0) &&
      (lineCapacity > 0 ==> lineCount <= lineCapacity && lines.Length == lineCapacity + 2)
    }

    /** The bytecode: the first count bytes of the buffer. */
    function Code(): seq<bv8>
      reads this`code, this`count, code
    {
      if count <= code.Length then code[..count] else []
    }

    /** Whether the table holds the pairs up to the current one. */
    ghost predicate LinesAllocated()
      reads this`lineCapacity, this`lineCount, this`lines
    {
      lineCapacity > 0 && 2 * (lineCount / 2 + 1) <= lines.Length
    }

    /**
     * The pairs up to and including the current one, as push sees them:
     * before the table is allocated, the pair (0, 0) it starts with.
     */
    ghost function Current(): (r: seq<Run>)
      reads this`lineCapacity, this`lineCount, this`lines, lines
      ensures |r| >= 1
    {
      if LinesAllocated() then Pairs(lines[..], lineCount / 2 + 1) else [Run(0, 0)]
    }

    /** A table whose current pair is its first holds the line in its first word. */
    lemma SingleRun(line: U16)
      requires Valid() && lineCapacity > 0 && Current() == [Run(line, 1)]
      ensures lineCount == 0 && lines.Length >= 2 && lines[0] == line
    {
      assert LinesAllocated();
      assert Pairs(lines[..], lineCount / 2 + 1)[0] == Run(lines[0], lines[1]);
    }

    /** The line table records the line of every byte pushed with line information on. */
    ghost predicate LinesRecordHistory()
      reads this`lineCapacity, this`lineCount, this`lines, this`history, lines
    {
      Records(Current(), history)
    }

    /** Pushing this line does not wrap the current run's length. */
    ghost predicate NoWrap(line: int)
      reads this`lineCapacity, this`lineCount, this`lines, lines
    {
      var last := Current()[|Current()| - 1];
      last.line == line ==> last.length < 0xffff
    }

    /**
     * The words the line-table half of push writes fit the buffer: it
     * either grows the table first, or writes the current pair or the one
     * after it in place.
     */
    ghost predicate PushLineInBounds(line: int)
      reads this`lineCapacity, this`lineCount, this`lines, lines
    {
      lineCapacity < lineCount + 2 ||
      (lineCount < lines.Length &&
       (if lines[lineCount] != 0 && lines[lineCount] != line then lineCount + 3 else lineCount + 1) < lines.Length)
    }

    /** lit_chunk_init: empty buffers, line information on, no constants. */
    constructor ()
      ensures Valid() && Code() == [] && capacity == 0 && hasLineInfo && fresh(code) && fresh(lines)
      ensures lineCount == 0 && lineCapacity == 0 && history == [] && LinesRecordHistory()
      ensures fresh(constants) && constants.Valid() && constants.Elements() == []
    {
      code := new bv8[0];
      count := 0;
      capacity := 0;
      hasLineInfo := true;
      lines := new U16[0];
      lineCount := 0;
      lineCapacity := 0;
      constants := new LibArray.ValueList();
      history := [];
    }

    /** lit_chunk_destroy: the buffers and the constants are released and the chunk is empty again. */
    method Destroy()
      modifies this, constants
      ensures Valid() && Code() == [] && capacity == 0 && hasLineInfo
      ensures lineCount == 0 && lineCapacity == 0 && history == [] && LinesRecordHistory()
      ensures constants.Valid() && constants.Elements() == []
    {
      constants.Destroy();
      code := new bv8[0];
      count := 0;
      capacity := 0;
      hasLineInfo := true;
      lines := new U16[0];
      lineCount := 0;
      lineCapacity := 0;
      history := [];
    }

    /**
     * lit_chunk_push: the byte goes after the others, the buffer growing to
     * GROW_CAPACITY(capacity + 2) when full; with line information on, the
     * line table takes the line as PushRun says.
     */
    method Push(byte: bv8, line: U16)
      requires Valid()
      modifies this, code, lines
      ensures Valid() && Code() == old(Code()) + [byte] && hasLineInfo == old(hasLineInfo)
      ensures capacity == if old(capacity) < old(count) + 1 then GrowCapacity(old(capacity) + 2) else old(capacity)
      ensures !old(hasLineInfo) ==> (lines == old(lines) && lines[..] == old(lines[..]) &&
        lineCount == old(lineCount) && lineCapacity == old(lineCapacity) && history == old(history))
      ensures old(hasLineInfo) ==> (history == old(history) + [line] && Current() == PushRun(old(Current()), line) &&
        lineCapacity == if old(lineCapacity) < old(lineCount) + 2 then GrowCapacity(old(lineCapacity) + 2) else old(lineCapacity))
      ensures (code == old(code) || fresh(code)) && (lines == old(lines) || fresh(lines))
    {
      ghost var h, cur := history, Current();
      PushByte(byte);
      assert history == h && Current() == cur;
      if !hasLineInfo {
        return;
      }
      ghost var c := if lineCapacity < lineCount + 2 then GrowCapacity(lineCapacity + 2) else lineCapacity;
      PushLine(line);
      assert lineCapacity == c;
    }

    /** The bytecode half of lit_chunk_push. */
    method PushByte(byte: bv8)
      requires Valid()
      modifies this`code, this`count, this`capacity, code
      ensures Valid() && Code() == old(Code()) + [byte]
      ensures capacity == if old(capacity) < old(count) + 1 then GrowCapacity(old(capacity) + 2) else old(capacity)
      ensures code == old(code) || fresh(code)
    {
      if capacity < count + 1 {
        var oldCapacity := capacity;
        capacity := GrowCapacity(oldCapacity + 2);
        code := Resized(code, capacity + 2);
      }
      ghost var before := code[..count];
      code[count] := byte;
      assert code[..count] == before;
      count := count + 1;
      assert code[..count] == before + [byte];
    }

    /** The line-table half of lit_chunk_push. */
    method PushLine(line: U16)
      requires Valid()
      modifies this`lines, this`lineCount, this`lineCapacity, this`history, lines
      ensures Valid() && history == old(history) + [line]
      ensures Current() == PushRun(old(Current()), line)
      ensures lineCapacity == if old(lineCapacity) < old(lineCount) + 2 then GrowCapacity(old(lineCapacity) + 2) else old(lineCapacity)
      ensures lines == old(lines) || fresh(lines)
      ensures old(LinesRecordHistory()) && line >= 1 && old(NoWrap(line)) ==> LinesRecordHistory()
    {
      ghost var h, cur := history, Current();
      ghost var recorded := LinesRecordHistory() && line >= 1 && NoWrap(line);
      ghost var c := if lineCapacity < lineCount + 2 then GrowCapacity(lineCapacity + 2) else lineCapacity;
      GrowLines();
      assert lineCapacity == c;
      WriteLine(line);
      if recorded {
        PushRunRecords(cur, h, line);
      }
    }

    /**
     * The table grows to GROW_CAPACITY(line_capacity + 2) when the pair
     * after the current one does not fit; a new table starts with (0, 0).
     */
    method GrowLines()
      requires Valid()
      modifies this`lines, this`lineCapacity
      ensures Valid() && lineCount + 2 <= lineCapacity && Current() == old(Current())
      ensures lineCapacity == if old(lineCapacity) < lineCount + 2 then GrowCapacity(old(lineCapacity) + 2) else old(lineCapacity)
      ensures lines == old(lines) || fresh(lines)
    {
      if lineCapacity < lineCount + 2 {
        ghost var cur := Current();
        ghost var n := lineCount / 2 + 1;
        var oldCapacity := lineCapacity;
        lineCapacity := GrowCapacity(lineCapacity + 2);
        var grown := Resized(lines, lineCapacity + 2);
        if oldCapacity == 0 {
          grown[0] := 0;
          grown[1] := 0;
        }
        assert Pairs(grown[..], n) == cur;
        lines := grown;
      }
    }

    /** The current pair takes the line, or the pair after it opens a new run. */
    method WriteLine(line: U16)
      requires Valid() && lineCount + 2 <= lineCapacity
      modifies this`lineCount, this`history, lines
      ensures Valid() && history == old(history) + [line]
      ensures Current() == PushRun(old(Current()), line)
    {
      ghost var cur := Current();
      var lineIndex := lineCount;
      var value := lines[lineIndex];
      if value != 0 && value != line {
        OpenRun(line);
      } else {
        ExtendRun(line);
      }
      ghost var next := Current();
      assert next == PushRun(cur, line);
      history := history + [line];
      assert Current() == next;
    }

    /** A line other than the current run's: the pair after it becomes (line, 1). */
    method OpenRun(line: U16)
      requires Valid() && lineCount + 2 <= lineCapacity
      requires lines[lineCount] != 0 && lines[lineCount] != line
      modifies this`lineCount, lines
      ensures Valid() && Current() == PushRun(old(Current()), line)
    {
      ghost var cur := Current();
      ghost var n := lineCount / 2 + 1;
      ghost var t := lines[..];
      assert cur[n - 1] == Run(t[2 * n - 2], t[2 * n - 1]);
      lineCount := lineCount + 2;
      var lineIndex := lineCount;
      lines[lineIndex + 1] := 0;
      lines[lineIndex] := line;
      lines[lineIndex + 1] := ((lines[lineIndex + 1] as int) + 1) % 0x1_0000;
      assert lines[..] == t[2 * n := line][2 * n + 1 := 1];
      PairsOpen(t, n, line);
      assert lineCount / 2 + 1 == n + 1;
    }

    /** The current run's line, or the empty pair: the current pair takes the line and one more byte. */
    method ExtendRun(line: U16)
      requires Valid() && lineCount + 2 <= lineCapacity
      requires lines[lineCount] == 0 || lines[lineCount] == line
      modifies lines
      ensures Valid() && Current() == PushRun(old(Current()), line)
    {
      ghost var cur := Current();
      ghost var n := lineCount / 2 + 1;
      ghost var t := lines[..];
      assert cur[n - 1] == Run(t[2 * n - 2], t[2 * n - 1]);
      var lineIndex := lineCount;
      lines[lineIndex] := line;
      lines[lineIndex + 1] := ((lines[lineIndex + 1] as int) + 1) % 0x1_0000;
      ghost var length: U16 := (t[2 * n - 1] + 1) % 0x1_0000;
      assert lines[..] == t[2 * n - 2 := line][2 * n - 1 := length];
      PairsSet(t, n, line, length);
      assert LinesAllocated() && lineCount / 2 + 1 == n;
      assert Current() == cur[..n - 1] + [Run(line, length)];
      assert PushRun(cur, line) == cur[..n - 1] + [Run(line, length)];
    }

    /** In the shape push relies on, the line-table half of push writes inside the table. */
    lemma ValidPushInBounds(line: int)
      requires Valid()
      ensures PushLineInBounds(line)
    {
    }

    /**
     * lit_chunk_getline: the line of the byte at offset, found by walking
     * the runs; 0 when the chunk keeps no line information.
     */
    method GetLine(offset: nat) returns (r: int)
      requires Valid() && LinesRecordHistory() && (hasLineInfo ==> offset < |history|)
      ensures hasLineInfo ==> r == history[offset]
      ensures !hasLineInfo ==> r == 0
    {
      if !hasLineInfo {
        return 0;
      }
      ghost var ps := Current();
      ExpandLength(ps);
      assert lineCapacity > 0;
      r := WalkRuns(lines, ps, offset);
    }

    /**
     * lit_chunk_addconst: the index of the constant, which is added only
     * when no equal value is there yet.
     */
    method AddConst(constant: Value) returns (r: nat)
      requires constants.Valid()
      modifies constants, constants.values
      ensures constants.Valid()
      ensures constants.Elements() == if constant in old(constants.Elements()) then old(constants.Elements()) else old(constants.Elements()) + [constant]
      ensures r == LibArray.FirstIndex(constants.Elements(), constant)
      ensures r < |constants.Elements()| && constants.Elements()[r] == constant
      ensures constants.values == old(constants.values) || fresh(constants.values)
    {
      var i := LibArray.IndexOf(constants, constant);
      if i >= 0 {
        return i;
      }
      ghost var s := constants.Elements();
      constants.Push(constant);
      LibArray.FirstIndexOfPushed(s, constant);
      r := constants.count - 1;
    }

    /** lit_chunk_emitbyte: a push on line 1. */
    method EmitByte(byte: bv8)
      requires Valid()
      modifies this, code, lines
      ensures Valid() && Code() == old(Code()) + [byte] && hasLineInfo == old(hasLineInfo)
      ensures history == if old(hasLineInfo) then old(history) + [1] else old(history)
      ensures Current() == if old(hasLineInfo) then PushRun(old(Current()), 1) else old(Current())
    {
      Push(byte, 1);
    }

    /** lit_chunk_emit2bytes: two pushes on line 1. */
    method Emit2Bytes(a: bv8, b: bv8)
      requires Valid()
      modifies this, code, lines
      ensures Valid() && Code() == old(Code()) + [a, b] && hasLineInfo == old(hasLineInfo)
      ensures history == if old(hasLineInfo) then old(history) + [1, 1] else old(history)
    {
      ghost var c0, h0 := Code(), history;
      Push(a, 1);
      ghost var c1, h1 := Code(), history;
      assert c1 == c0 + [a] && h1 == (if hasLineInfo then h0 + [1] else h0);
      Push(b, 1);
      assert Code() == c1 + [b] && history == (if hasLineInfo then h1 + [1] else h1);
      assert c0 + [a] + [b] == c0 + [a, b];
    }

    /** lit_chunk_emitshort: the high byte, then the low byte, which together give the value back. */
    method EmitShort(value: bv16)
      requires Valid()
      modifies this, code, lines
      ensures Valid() && hasLineInfo == old(hasLineInfo)
      ensures exists high: bv8, low: bv8 :: Code() == old(Code()) + [high, low] && (high as bv16 << 8) | low as bv16 == value
      ensures history == if old(hasLineInfo) then old(history) + [1, 1] else old(history)
    {
      var high, low := ((value >> 8) & 0xff) as bv8, (value & 0xff) as bv8;
      Emit2Bytes(high, low);
    }

    /**
     * lit_chunk_shrink as written: the line table is cut down to
     * line_count + 2 words, leaving none to spare.
     */
    method ShrinkAsWritten()
      requires Valid()
      modifies this
      ensures count == old(count) && code.Length >= count && code[..count] == old(Code())
      ensures capacity == if old(capacity) > old(count) then old(count) else old(capacity)
      ensures hasLineInfo == old(hasLineInfo) && lineCount == old(lineCount) && history == old(history)
      ensures old(lineCapacity) > old(lineCount) ==>
        lineCapacity == lineCount + 2 && lines.Length == lineCapacity && lines[..] == old(lines[..lineCount + 2])
      ensures old(lineCapacity) <= old(lineCount) ==> lineCapacity == old(lineCapacity) && lines == old(lines)
      ensures (code == old(code) || fresh(code)) && (lines == old(lines) || fresh(lines))
    {
      if capacity > count {
        capacity := count;
        code := Resized(code, capacity);
      }
      if lineCapacity > lineCount {
        lineCapacity := lineCount + 2;
        lines := Resized(lines, lineCapacity);
      }
    }

    /**
     * lit_chunk_shrink as evidently intended: both buffers shrink to what
     * is in use, the line table keeping the two spare words that every
     * other allocation of it keeps, so the chunk stays pushable.
     */
    method Shrink()
      requires Valid()
      modifies this
      ensures Valid() && Code() == old(Code()) && hasLineInfo == old(hasLineInfo) && history == old(history)
      ensures capacity == if old(capacity) > old(count) then old(count) else old(capacity)
      ensures lineCapacity == if old(lineCapacity) > old(lineCount) then old(lineCount) + 2 else old(lineCapacity)
      ensures Current() == old(Current())
      ensures (code == old(code) || fresh(code)) && (lines == old(lines) || fresh(lines))
    {
      if capacity > count {
        capacity := count;
        code := Resized(code, capacity);
      }
      if lineCapacity > lineCount {
        ghost var cur := Current();
        lineCapacity := lineCount + 2;
        lines := Resized(lines, lineCapacity + 2);
        assert Pairs(lines[..], lineCount / 2 + 1) == cur;
      }
    }
  }

  /**
   * The loop of lit_chunk_getline: offset + 1 steps through the bytes,
   * loading the next pair whenever the current run's remaining count is 0.
   */
  method WalkRuns(table: array<U16>, ghost ps: seq<Run>, offset: nat) returns (line: int)
    requires 2 * |ps| <= table.Length && offset < Total(ps)
    requires forall k :: 0 <= k < |ps| ==> ps[k] == Run(table[2 * k], table[2 * k + 1]) && ps[k].length >= 1
    ensures 0 <= offset < |Expand(ps)| && line == Expand(ps)[offset]
  {
    assert ps[..|ps|] == ps;
    var rle: int := 0;
    line := 0;
    var index: nat := 0;
    ghost var j: nat := 0;
    var i: nat := 0;
    while i < offset + 1
      invariant i <= offset + 1 && j <= |ps| && index == 2 * j
      invariant 0 <= rle && i == Total(ps[..j]) - rle
      invariant j >= 1 ==> line == ps[j - 1].line && rle < ps[j - 1].length
    {
      if rle > 0 {
        rle := rle - 1;
      } else {
        assert ps[..j + 1][..j] == ps[..j];
        line := table[index];
        rle := table[index + 1];
        if rle > 0 {
          rle := rle - 1;
        }
        index := index + 2;
        j := j + 1;
      }
      i := i + 1;
    }
    assert ps[..j][..j - 1] == ps[..j - 1];
    ExpandAt(ps, j, offset);
  }

  /**
   * After the as-written shrink, a push that opens a new run writes two
   * words past the end of the line table: one byte on line 1, shrink, then
   * a byte on line 2.
   */
  method ShrinkThenPushOverflows() returns (c: Chunk)
    ensures c.hasLineInfo && c.lineCount == 0 && c.lineCapacity == 2 && c.lines.Length == 2 && c.lines[0] == 1
    ensures !c.PushLineInBounds(2)
  {
    c := new Chunk();
    c.Push(0, 1);
    c.ShrinkAsWritten();
  }

  /** The first push, on line 1, opens the run of one byte on line 1. */
  lemma PushFirstRun()
    ensures PushRun([Run(0, 0)], 1) == [Run(1, 1)]
  {
  }

  /** After the corrected shrink the same push fits, and the table still records the line. */
  method ShrinkThenPushFits() returns (c: Chunk)
    ensures c.Valid() && c.hasLineInfo && c.lineCount == 0 && c.lineCapacity == 2 && c.lines.Length == 4
    ensures c.lines[0] == 1 && c.PushLineInBounds(2)
  {
    c := new Chunk();
    c.Push(0, 1);
    PushFirstRun();
    c.SingleRun(1);
    c.Shrink();
    c.SingleRun(1);
    c.ValidPushInBounds(2);
  }
}
