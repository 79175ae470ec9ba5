/**
 * The bytecode emitter of ccemit.c, for the part of it that the rest of
 * the compiler builds on: writing bytes and opcodes with their line and
 * stack-effect bookkeeping, jumps and their patching, and the local and
 * upvalue tables of a compiler.
 *
 * The opcode numbers and the stack-effect table come from opcodes.inc,
 * which is not part of this model: the emitter is given the table, and
 * the opcodes it writes itself, as constants.
 */
module Emit {
  import opened Lit
  import Chunk
  import LibArray
  import Bytes

  type U16 = Chunk.U16

  const UINT8_MAX: nat := 255
  const UINT8_COUNT: nat := 256
  const UINT16_MAX: nat := 65535
  const UINT16_COUNT: nat := 65536

  /** The depth of a local that is declared but not yet initialised. */
  const UNINITIALIZED: int := 65535

  /** The compile errors the emitter reports through error(). */
  datatype CompileError =
    | TooManyLocals
    | VarRedefined(name: seq<char>)
    | VariableUsedInInit(name: seq<char>)
    | TooManyUpvalues
    | TooManyConstants
    | JumpTooBig

  /** LitLocal. */
  datatype Local = Local(name: seq<char>, depth: int, captured: bool, constant: bool)

  /** LitCompilerUpvalue: a slot of the enclosing function, or one of its upvalues. */
  datatype UpvalueRef = UpvalueRef(index: bv8, isLocal: bool)

  /** The opcodes the emitter writes on its own account. */
  datatype Opcodes = Opcodes(pop: bv8, closeUpvalue: bv8, jumpBack: bv8, constant: bv8, constantLong: bv8)

  // ---------------------------------------------------------------------
  // Lines and slots

  /** The line emit_byte records: the one given, raised to the last one written. */
  function LineAfter(line: U16, last: U16): (r: U16)
    ensures r >= line && r >= last
    ensures r == line || r == last
  {
    if line < last then last else line
  }

  /** The recorded lines never go down, and the last one is at most last. */
  ghost predicate Ordered(h: seq<int>, last: int)
  {
    (h == [] || h[|h| - 1] <= last) && Rising(h)
  }

  /** Each line is at most the one after it. */
  ghost predicate Rising(h: seq<int>)
  {
    |h| < 2 || (h[|h| - 2] <= h[|h| - 1] && Rising(h[..|h| - 1]))
  }

  /** Rising means that no line is above a later one. */
  lemma {:induction false} RisingMeans(h: seq<int>)
    requires Rising(h)
    ensures forall i, j :: 0 <= i < j < |h| ==> h[i] <= h[j]
  {
    if |h| >= 2 {
      var pre := h[..|h| - 1];
      RisingMeans(pre);
      assert forall i :: 0 <= i < |pre| ==> pre[i] == h[i];
    }
  }

  /** Recording the line emit_byte picks keeps the lines in order. */
  lemma OrderedAfter(h: seq<int>, last: U16, line: U16)
    requires Ordered(h, last)
    ensures Ordered(h + [LineAfter(line, last)], LineAfter(line, last))
  {
    assert (h + [LineAfter(line, last)])[..|h|] == h;
  }

  function Sum(ds: seq<int>): int
  {
    if ds == [] then 0 else Sum(ds[..|ds| - 1]) + ds[|ds| - 1]
  }

  /**
   * The stack bookkeeping of emit_op, applied for each effect in turn:
   * slots moves by the effect and max_slots is raised to meet it.
   */
  function Account(slots: int, maxSlots: nat, ds: seq<int>): (r: (int, nat))
    ensures r.0 == slots + Sum(ds)
    ensures r.1 >= maxSlots
    ensures ds != [] || maxSlots >= slots ==> r.1 >= r.0
  {
    if ds == [] then (slots, maxSlots)
    else
      var p := Account(slots, maxSlots, ds[..|ds| - 1]);
      var s := p.0 + ds[|ds| - 1];
      (s, if s > p.1 then s else p.1)
  }

  /** max_slots is the highest value slots reaches, or where it started. */
  lemma {:induction false} AccountReaches(slots: int, maxSlots: nat, ds: seq<int>)
    ensures var r := Account(slots, maxSlots, ds);
      r.1 == maxSlots || exists k :: 1 <= k <= |ds| && r.1 == slots + Sum(ds[..k])
    ensures forall k :: 1 <= k <= |ds| ==> slots + Sum(ds[..k]) <= Account(slots, maxSlots, ds).1
  {
    if ds != [] {
      var pre := ds[..|ds| - 1];
      AccountReaches(slots, maxSlots, pre);
      assert ds[..|ds|] == ds;
      forall k | 1 <= k < |ds|
        ensures ds[..k] == pre[..k]
      {
      }
      var p := Account(slots, maxSlots, pre);
      if p.1 != maxSlots {
        var k :| 1 <= k <= |pre| && p.1 == slots + Sum(pre[..k]);
        assert ds[..k] == pre[..k];
      }
    }
  }

  // ---------------------------------------------------------------------
  // Jumps

  /** The high byte of a uint16_t, as emit_short and patch_jump compute it. */
  function High(v: nat): bv8
  {
    ((v / 256) % 256) as bv8
  }

  /** The low byte of a uint16_t. */
  function Low(v: nat): bv8
  {
    (v % 256) as bv8
  }

  /** The two bytes give the short back, high byte first. */
  lemma HighLow(v: nat)
    requires v <= UINT16_MAX
    ensures High(v) as nat * 256 + Low(v) as nat == v
  {
    var h, l := v / 256, v % 256;
    assert v == h * 256 + l && h < 256;
    assert h % 256 == h;
    Bytes.RoundTrip(h);
    Bytes.RoundTrip(l);
  }

  /** The distance patch_jump writes: from just after the two placeholder bytes to the end of the code. */
  function JumpDistance(count: nat, offset: nat): (d: nat)
    requires offset + 2 <= count
    ensures offset + 2 + d == count
  {
    count - offset - 2
  }

  /** The distance emit_loop writes: back from just after the operand to start. */
  function LoopDistance(count: nat, start: nat): (d: nat)
    requires start <= count
    ensures count + 2 - d == start
  {
    count - start + 2
  }

  // ---------------------------------------------------------------------
  // Locals

  /** A local add_local stops at: initialised, in a scope outside the current one. */
  predicate Outer(l: Local, depth: int)
  {
    l.depth != UNINITIALIZED && l.depth < depth
  }

  /**
   * Where the current scope's locals begin: just after the last local of
   * an outer scope.
   */
  function ScopeStart(ls: seq<Local>, depth: int): (n: nat)
    ensures n <= |ls|
    ensures n > 0 ==> Outer(ls[n - 1], depth)
    ensures forall i :: n <= i < |ls| ==> !Outer(ls[i], depth)
  {
    if ls == [] then 0
    else if Outer(ls[|ls| - 1], depth) then |ls|
    else ScopeStart(ls[..|ls| - 1], depth)
  }

  /**
   * The redefinition errors add_local reports for the locals from k on,
   * walking them from the end.
   */
  function Clashes(ls: seq<Local>, k: nat, name: seq<char>): seq<CompileError>
    requires k <= |ls|
    decreases |ls| - k
  {
    if k == |ls| then [] else Clashes(ls, k + 1, name) + (if ls[k].name == name then [VarRedefined(name)] else [])
  }

  /** Every error names the local, and there is one exactly when some local from k on has that name. */
  lemma {:induction false} ClashesMean(ls: seq<Local>, k: nat, name: seq<char>)
    requires k <= |ls|
    ensures forall e :: e in Clashes(ls, k, name) ==> e == VarRedefined(name)
    ensures Clashes(ls, k, name) == [] <==> forall i :: k <= i < |ls| ==> ls[i].name != name
    decreases |ls| - k
  {
    if k < |ls| {
      ClashesMean(ls, k + 1, name);
    }
  }

  /** The error resolve_local reports when the local it found is still being initialised. */
  function InitError(ls: seq<Local>, r: int, name: seq<char>): seq<CompileError>
  {
    if 0 <= r < |ls| && ls[r].depth == UNINITIALIZED then [VariableUsedInInit(name)] else []
  }

  /** The last local of that name, or -1. */
  function LastIndex(ls: seq<Local>, name: seq<char>): (r: int)
    ensures -1 <= r < |ls|
    ensures r >= 0 ==> ls[r].name == name
    ensures forall j :: r < j < |ls| ==> ls[j].name != name
  {
    if ls == [] then -1
    else if ls[|ls| - 1].name == name then |ls| - 1
    else LastIndex(ls[..|ls| - 1], name)
  }

  /**
   * A local just added by add_local is what resolve_local finds for its
   * name, with the used-in-its-own-initialiser error until
   * mark_local_initialized gives it a depth, and without it after.
   */
  lemma DeclareThenResolve(ls: seq<Local>, name: seq<char>, constant: bool, depth: int)
    requires depth != UNINITIALIZED
    ensures var added := ls + [Local(name, UNINITIALIZED, false, constant)];
      var marked := added[|ls| := added[|ls|].(depth := depth)];
      LastIndex(added, name) == |ls| && InitError(added, |ls|, name) == [VariableUsedInInit(name)] &&
      LastIndex(marked, name) == |ls| && InitError(marked, |ls|, name) == []
  {
  }

  /** How many locals survive a scope exit to depth: the ones left once every deeper one is popped off the end. */
  function Survivors(ls: seq<Local>, depth: int): (n: nat)
    ensures n <= |ls|
    ensures n > 0 ==> ls[n - 1].depth <= depth
    ensures forall i :: n <= i < |ls| ==> ls[i].depth > depth
  {
    if ls != [] && ls[|ls| - 1].depth > depth then Survivors(ls[..|ls| - 1], depth) else |ls|
  }

  /** Survivors is where the scan back from the end stops: at the start or at a local no deeper than depth. */
  lemma {:induction false} SurvivorsAre(ls: seq<Local>, depth: int, k: nat)
    requires k <= |ls| && Deeper(ls, k, depth)
    requires k == 0 || ls[k - 1].depth <= depth
    ensures Survivors(ls, depth) == k
    decreases |ls|
  {
    if k < |ls| {
      var init := ls[..|ls| - 1];
      DeeperMeans(ls, k, depth);
      DeeperMeans(init, k, depth);
      assert k == 0 || init[k - 1] == ls[k - 1];
      SurvivorsAre(init, depth, k);
    }
  }

  /** Every one of the locals from k on is deeper than depth. */
  ghost predicate Deeper(ls: seq<Local>, k: nat, depth: int)
    requires k <= |ls|
    decreases |ls| - k
  {
    k == |ls| || (ls[k].depth > depth && Deeper(ls, k + 1, depth))
  }

  lemma {:induction false} DeeperMeans(ls: seq<Local>, k: nat, depth: int)
    requires k <= |ls|
    ensures Deeper(ls, k, depth) <==> forall i :: k <= i < |ls| ==> ls[i].depth > depth
    decreases |ls| - k
  {
    if k < |ls| {
      DeeperMeans(ls, k + 1, depth);
    }
  }

  /** Depths never go down along the list. */
  predicate Nested(ls: seq<Local>)
  {
    forall i, j :: 0 <= i < j < |ls| ==> ls[i].depth <= ls[j].depth
  }

  /** On nested locals, exactly the ones deeper than depth are popped. */
  lemma SurvivorsAreShallow(ls: seq<Local>, depth: int)
    requires Nested(ls)
    ensures forall i :: 0 <= i < |ls| ==> (i < Survivors(ls, depth) <==> ls[i].depth <= depth)
  {
  }

  /** The opcode end_scope emits for one local. */
  function ExitOp(l: Local, o: Opcodes): bv8
  {
    if l.captured then o.closeUpvalue else o.pop
  }

  /** What end_scope emits for the locals from k on, from the last one back. */
  function ExitOps(ls: seq<Local>, k: nat, o: Opcodes): (r: seq<bv8>)
    requires k <= |ls|
    ensures |r| == |ls| - k
    decreases |ls| - k
  {
    if k == |ls| then [] else ExitOps(ls, k + 1, o) + [ExitOp(ls[k], o)]
  }

  /** ExitOps walks the locals backwards: its j-th opcode is for the j-th local from the end. */
  lemma {:induction false} ExitOpsBackwards(ls: seq<Local>, k: nat, o: Opcodes)
    requires k <= |ls|
    ensures forall j :: 0 <= j < |ls| - k ==> ExitOps(ls, k, o)[j] == ExitOp(ls[|ls| - 1 - j], o)
    decreases |ls| - k
  {
    if k < |ls| {
      ExitOpsBackwards(ls, k + 1, o);
    }
  }

  /** An opcode's entry in the stack-effect table. */
  function Effect(op: bv8, effects: seq<int>): int
  {
    if op as int < |effects| then effects[op as int] else 0
  }

  /** The stack effects of a run of opcodes. */
  function Effects(ops: seq<bv8>, effects: seq<int>): (r: seq<int>)
    ensures |r| == |ops|
  {
    if ops == [] then [] else Effects(ops[..|ops| - 1], effects) + [Effect(ops[|ops| - 1], effects)]
  }

  // ---------------------------------------------------------------------
  // Upvalues

  function FirstUpvalue(ups: seq<UpvalueRef>, u: UpvalueRef): (r: int)
    ensures -1 <= r < |ups|
    ensures r == -1 <==> u !in ups
    ensures r >= 0 ==> ups[r] == u && u !in ups[..r]
  {
    if ups == [] then -1
    else if ups[0] == u then 0
    else
      var r := FirstUpvalue(ups[1..], u);
      assert ups == [ups[0]] + ups[1..];
      if r == -1 then -1
      else
        assert ups[..r + 1] == [ups[0]] + ups[1..][..r];
        r + 1
  }

  /** No entry appears twice. */
  predicate Distinct(ups: seq<UpvalueRef>)
  {
    forall i, j :: 0 <= i < j < |ups| ==> ups[i] != ups[j]
  }

  /**
   * The entries after add_upvalue, corrected: unchanged when u is there or
   * the array of UINT8_COUNT entries is full, u appended otherwise. The
   * source bounds the count by UINT16_COUNT instead (AddUpvalueAsWritten).
   */
  function WithUpvalue(ups: seq<UpvalueRef>, u: UpvalueRef): seq<UpvalueRef>
  {
    if u in ups || |ups| >= UINT8_COUNT then ups else ups + [u]
  }

  /** What add_upvalue returns, corrected: the existing entry, 0 when the array is full, or the new entry. */
  function UpvalueSlot(ups: seq<UpvalueRef>, u: UpvalueRef): nat
  {
    if u in ups then FirstUpvalue(ups, u) else if |ups| >= UINT8_COUNT then 0 else |ups|
  }

  /**
   * add_upvalue keeps the entries distinct and within the array, keeps
   * the old ones where they were, and, unless the array is full, returns
   * the index of u.
   */
  lemma UpvalueAdded(ups: seq<UpvalueRef>, u: UpvalueRef)
    requires Distinct(ups) && |ups| <= UINT8_COUNT
    ensures var r := WithUpvalue(ups, u);
      Distinct(r) && |r| <= UINT8_COUNT && r[..|ups|] == ups
    ensures u in ups || |ups| < UINT8_COUNT ==>
      UpvalueSlot(ups, u) < |WithUpvalue(ups, u)| && WithUpvalue(ups, u)[UpvalueSlot(ups, u)] == u
  {
    assert (ups + [u])[..|ups|] == ups;
  }

  /** The error add_upvalue reports: u is new and the array is full. */
  function FullError(ups: seq<UpvalueRef>, u: UpvalueRef): seq<CompileError>
  {
    if u !in ups && |ups| >= UINT8_COUNT then [TooManyUpvalues] else []
  }

  /** The outcome of add_upvalue as written. */
  datatype AddOutcome = Reused(slot: nat) | Added(ups: seq<UpvalueRef>, slot: nat) | Full | PastArray

  /**
   * add_upvalue as written checks for a full array against UINT16_COUNT,
   * but the array holds UINT8_COUNT entries, so the 257th distinct entry
   * is written past its end.
   */
  function AddUpvalueAsWritten(ups: seq<UpvalueRef>, u: UpvalueRef): AddOutcome
    requires |ups| <= UINT8_COUNT
  {
    if u in ups then Reused(FirstUpvalue(ups, u))
    else if |ups| == UINT16_COUNT then Full
    else if |ups| >= UINT8_COUNT then PastArray
    else Added(ups + [u], |ups|)
  }

  /** 256 entries capturing the enclosing function's slots 0 to 255. */
  function FullUpvalues(): (r: seq<UpvalueRef>)
    ensures |r| == UINT8_COUNT && forall k :: 0 <= k < |r| ==> r[k].isLocal
  {
    seq(UINT8_COUNT, k requires 0 <= k < UINT8_COUNT => UpvalueRef(k as bv8, true))
  }

  /**
   * A closure capturing 256 slots, then an upvalue of its enclosing
   * function: as written the new entry goes past the array, while the
   * bounded check reports the error and returns 0.
   */
  lemma UpvalueOverflow()
    ensures AddUpvalueAsWritten(FullUpvalues(), UpvalueRef(0, false)) == PastArray
    ensures WithUpvalue(FullUpvalues(), UpvalueRef(0, false)) == FullUpvalues()
    ensures UpvalueSlot(FullUpvalues(), UpvalueRef(0, false)) == 0
  {
    assert UpvalueRef(0, false) !in FullUpvalues();
  }

  // ---------------------------------------------------------------------
  // The compiler's tables

  /**
   * LitCompiler, for the fields the emitter helpers touch. The first
   * function->upvalue_count entries of the upvalue array are `upvalues`.
   * `level` counts the enclosing compilers; `chain` is every compiler of
   * the chain, and `funcs` their functions.
   */
  class Compiler {
    var locals: seq<Local>
    var scopeDepth: int
    var upvalues: seq<UpvalueRef>
    var slots: int
    const func: Function
    const enclosing: Compiler?
    ghost const level: nat
    ghost const chain: set<Compiler>
    ghost const funcs: set<Function>

    /** The chain of enclosing compilers is finite and its members distinct. */
    ghost predicate Linked()
      decreases level
    {
      this in chain && func in funcs &&
      (enclosing == null ==> chain == {this} && funcs == {func}) &&
      (enclosing != null ==>
        enclosing.level < level && enclosing in enclosing.chain &&
        chain == {this} + enclosing.chain && funcs == {func} + enclosing.funcs &&
        this !in enclosing.chain && func !in enclosing.funcs && enclosing.Linked())
    }

    /** Every compiler of the chain has distinct upvalues within the array, counted by its function. */
    ghost predicate Valid()
      reads chain`upvalues, funcs`upvalueCount
      decreases level
    {
      Linked() && |upvalues| == func.upvalueCount <= UINT8_COUNT && Distinct(upvalues) &&
      (enclosing != null ==> enclosing.Valid())
    }

    /** init_compiler: the reserved slot 0 ("this" in methods), depth 0, one slot in use. */
    constructor (func: Function, enclosing: Compiler?, isMethod: bool)
      requires func.upvalueCount == 0
      requires enclosing != null ==> enclosing.Valid() && func !in enclosing.funcs
      ensures Valid() && this.func == func && this.enclosing == enclosing
      ensures locals == [Local(if isMethod then "this" else "", -1, false, false)]
      ensures scopeDepth == 0 && upvalues == [] && slots == 1
    {
      locals := [Local(if isMethod then "this" else "", -1, false, false)];
      scopeDepth := 0;
      upvalues := [];
      slots := 1;
      this.func := func;
      this.enclosing := enclosing;
      level := if enclosing == null then 0 else enclosing.level + 1;
      chain := {this} + (if enclosing == null then {} else enclosing.chain);
      funcs := {func} + (if enclosing == null then {} else enclosing.funcs);
      new;
      assert enclosing != null ==> this !in enclosing.chain;
    }
  }

  /** Whether resolve_upvalue finds the name in some enclosing compiler's locals. */
  ghost predicate Resolves(c: Compiler, name: seq<char>)
    requires c.Linked()
    reads c.chain`locals
    decreases c.level
  {
    c.enclosing != null &&
    (LastIndex(c.enclosing.locals, name) != -1 || Resolves(c.enclosing, name))
  }

  /** What resolve_upvalue gives: the slot (-1 when not found), the entry it adds, and the errors it reports. */
  datatype Resolution = Resolution(slot: int, ref: UpvalueRef, errs: seq<CompileError>)

  /**
   * resolve_upvalue on the state before it runs: the nearest enclosing
   * compiler's local of that name becomes an upvalue entry marked local,
   * its index truncated to a byte; failing that, the enclosing
   * compiler's own upvalue for the name becomes an entry that is not.
   */
  ghost function Resolve(c: Compiler, name: seq<char>): (r: Resolution)
    requires c.Linked()
    reads c.chain`locals, c.chain`upvalues
    decreases c.level
  {
    if c.enclosing == null then Resolution(-1, UpvalueRef(0, false), [])
    else
      var ls := c.enclosing.locals;
      var l := LastIndex(ls, name);
      if l != -1 then
        var u := UpvalueRef(Low(l), true);
        Resolution(UpvalueSlot(c.upvalues, u), u, InitError(ls, l, name) + FullError(c.upvalues, u))
      else
        var inner := Resolve(c.enclosing, name);
        if inner.slot == -1 then inner
        else
          var u := UpvalueRef(Low(inner.slot), false);
          Resolution(UpvalueSlot(c.upvalues, u), u, inner.errs + FullError(c.upvalues, u))
  }

  /** resolve_upvalue fails exactly when no enclosing compiler has a local of that name. */
  lemma {:induction false} ResolveFails(c: Compiler, name: seq<char>)
    requires c.Linked()
    ensures Resolve(c, name).slot == -1 <==> !Resolves(c, name)
    decreases c.level
  {
    if c.enclosing != null && LastIndex(c.enclosing.locals, name) == -1 {
      ResolveFails(c.enclosing, name);
    }
  }

  /** Every element of the list is the line. */
  lemma RepeatMore(line: int, k: nat)
    ensures Chunk.Repeat(line, k) + [line] == Chunk.Repeat(line, k + 1)
  {
  }

  // ---------------------------------------------------------------------
  // The emitter

  /**
   * LitEmitter while it compiles one function: that function's chunk and
   * compiler, the stack-effect table indexed by opcode, the last line
   * written and the errors reported so far.
   */
  class Emitter {
    const chunk: Chunk.Chunk
    const compiler: Compiler
    const ops: Opcodes
    const effects: seq<int>
    var lastLine: U16
    var errors: seq<CompileError>

    /** The opcode has an entry in the stack-effect table. */
    predicate Known(op: bv8)
    {
      op as int < |effects|
    }

    /**
     * The chunk is well formed, and with line
     * information on the recorded lines never go down and end at last_line.
     */
    ghost predicate Valid()
      reads this`lastLine, chunk, chunk.constants
    {
      chunk.Valid() && chunk.constants.Valid() && chunk.constants.values as object != chunk.lines && Known(ops.pop) && Known(ops.closeUpvalue) && Known(ops.jumpBack) &&
      Known(ops.constant) && Known(ops.constantLong) &&
      (chunk.hasLineInfo ==> Ordered(chunk.history, lastLine))
    }

    /**
     * The bytes were appended to the chunk, each recorded on the line
     * emit_byte picks, which becomes last_line.
     */
    twostate predicate Wrote(bytes: seq<bv8>, line: U16)
      reads this`lastLine, chunk, chunk.code
    {
      chunk.Code() == old(chunk.Code()) + bytes &&
      chunk.hasLineInfo == old(chunk.hasLineInfo) &&
      lastLine == (if bytes == [] then old(lastLine) else LineAfter(line, old(lastLine))) &&
      chunk.history == old(chunk.history) + (if chunk.hasLineInfo then Chunk.Repeat(lastLine, |bytes|) else []) &&
      (chunk.code == old(chunk.code) || fresh(chunk.code)) &&
      (chunk.lines == old(chunk.lines) || fresh(chunk.lines))
    }

    /** slots and the function's max_slots moved by the effects, as Account says. */
    twostate predicate Counted(ds: seq<int>)
      reads compiler, compiler.func
    {
      (compiler.slots, compiler.func.maxSlots) == Account(old(compiler.slots), old(compiler.func.maxSlots), ds)
    }

    constructor (chunk: Chunk.Chunk, compiler: Compiler, ops: Opcodes, effects: seq<int>)
      requires chunk.Valid() && chunk.constants.Valid() && chunk.history == [] && compiler.Valid()
      requires chunk.constants.values as object != chunk.lines
      requires ops.pop as int < |effects| && ops.closeUpvalue as int < |effects| && ops.jumpBack as int < |effects|
      requires ops.constant as int < |effects| && ops.constantLong as int < |effects|
      ensures Valid() && this.chunk == chunk && this.compiler == compiler && this.ops == ops && this.effects == effects
      ensures lastLine == 0 && errors == []
    {
      this.chunk := chunk;
      this.compiler := compiler;
      this.ops := ops;
      this.effects := effects;
      lastLine := 0;
      errors := [];
    }

    /** lit_write_chunk on a line no earlier than last_line, which it becomes. */
    method Put(line: U16, byte: bv8)
      requires Valid() && line >= lastLine
      modifies this`lastLine, chunk, chunk.code, chunk.lines
      ensures Valid() && Wrote([byte], line)
    {
      ghost var h := chunk.history;
      chunk.Push(byte, line);
      if chunk.hasLineInfo {
        OrderedAfter(h, lastLine, line);
      }
      lastLine := line;
    }

    /** emit_byte: the byte goes on the given line, or on last_line when that is later. */
    method EmitByte(line: U16, byte: bv8)
      requires Valid()
      modifies this`lastLine, chunk, chunk.code, chunk.lines
      ensures Valid() && Wrote([byte], line)
    {
      var l := line;
      if l < lastLine {
        l := lastLine;
      }
      Put(l, byte);
    }

    /** emit_bytes: both bytes on the line emit_byte would pick. */
    method EmitBytes(line: U16, a: bv8, b: bv8)
      requires Valid()
      modifies this`lastLine, chunk, chunk.code, chunk.lines
      ensures Valid() && Wrote([a, b], line)
    {
      var l := line;
      if l < lastLine {
        l := lastLine;
      }
      ghost var c, h := chunk.Code(), chunk.history;
      Put(l, a);
      ghost var c1, h1 := chunk.Code(), chunk.history;
      assert c1 == c + [a] && h1 == h + (if chunk.hasLineInfo then [l] else []);
      Put(l, b);
      assert chunk.Code() == c1 + [b] && chunk.history == h1 + (if chunk.hasLineInfo then [l] else []);
      assert chunk.Code() == c + [a, b];
      assert chunk.history == h + (if chunk.hasLineInfo then Chunk.Repeat(l, 2) else []);
    }

    /** emit_op: the opcode byte, with its stack effect added to slots and max_slots raised to it. */
    method EmitOp(line: U16, op: bv8)
      requires Valid() && Known(op)
      modifies this`lastLine, chunk, chunk.code, chunk.lines, compiler`slots, compiler.func`maxSlots
      ensures Valid() && Wrote([op], line) && Counted([Effect(op, effects)])
      ensures compiler.func.maxSlots >= compiler.slots
      ensures State() == Emitted(old(State()), [op], line, effects)
    {
      EmitByte(line, op);
      compiler.slots := compiler.slots + effects[op as int];
      if compiler.slots > compiler.func.maxSlots {
        compiler.func.maxSlots := compiler.slots;
      }
      assert [Effect(op, effects)][..0] == [];
    }

    /** emit_ops: two opcodes, their effects added together before max_slots is compared. */
    method EmitOps(line: U16, a: bv8, b: bv8)
      requires Valid() && Known(a) && Known(b)
      modifies this`lastLine, chunk, chunk.code, chunk.lines, compiler`slots, compiler.func`maxSlots
      ensures Valid() && Wrote([a, b], line) && Counted([Effect(a, effects) + Effect(b, effects)])
      ensures compiler.func.maxSlots >= compiler.slots
    {
      EmitBytes(line, a, b);
      compiler.slots := compiler.slots + (effects[a as int] + effects[b as int]);
      if compiler.slots > compiler.func.maxSlots {
        compiler.func.maxSlots := compiler.slots;
      }
      assert [Effect(a, effects) + Effect(b, effects)][..0] == [];
    }

    /** emit_varying_op: the opcode and its argument, which is the number of slots it takes off. */
    method EmitVaryingOp(line: U16, op: bv8, arg: bv8)
      requires Valid()
      modifies this`lastLine, chunk, chunk.code, chunk.lines, compiler`slots, compiler.func`maxSlots
      ensures Valid() && Wrote([op, arg], line) && Counted([-(arg as int)])
    {
      EmitBytes(line, op, arg);
      compiler.slots := compiler.slots - arg as int;
      if compiler.slots > compiler.func.maxSlots {
        compiler.func.maxSlots := compiler.slots;
      }
      assert [-(arg as int)][..0] == [];
    }

    /** emit_arged_op: the opcode and its argument, with the opcode's own stack effect. */
    method EmitArgedOp(line: U16, op: bv8, arg: bv8)
      requires Valid() && Known(op)
      modifies this`lastLine, chunk, chunk.code, chunk.lines, compiler`slots, compiler.func`maxSlots
      ensures Valid() && Wrote([op, arg], line) && Counted([Effect(op, effects)])
    {
      EmitBytes(line, op, arg);
      compiler.slots := compiler.slots + effects[op as int];
      if compiler.slots > compiler.func.maxSlots {
        compiler.func.maxSlots := compiler.slots;
      }
      assert [Effect(op, effects)][..0] == [];
    }

    /** emit_short: the value big-endian. */
    method EmitShort(line: U16, value: U16)
      requires Valid()
      modifies this`lastLine, chunk, chunk.code, chunk.lines
      ensures Valid() && Wrote([High(value), Low(value)], line)
    {
      EmitBytes(line, ((value / 256) % 256) as bv8, (value % 256) as bv8);
    }

    /**
     * emit_byte_or_short: an index up to 255 goes after the short form as
     * one byte; a larger one after the long form as a big-endian short.
     */
    method EmitByteOrShort(line: U16, a: bv8, b: bv8, index: U16)
      requires Valid() && Known(a) && Known(b)
      modifies this`lastLine, chunk, chunk.code, chunk.lines, compiler`slots, compiler.func`maxSlots
      ensures Valid()
      ensures index > UINT8_MAX ==> Wrote([b, High(index), Low(index)], line) && Counted([Effect(b, effects)])
      ensures index <= UINT8_MAX ==> Wrote([a, index as bv8], line) && Counted([Effect(a, effects)])
    {
      if index > UINT8_MAX {
        EmitByteOrShortLong(line, b, index);
      } else {
        EmitArgedOp(line, a, index as bv8);
      }
    }

    /**
     * emit_constant: the constant's index in the chunk, emitted after
     * OP_CONSTANT below 255, after OP_CONSTANT_LONG below 65535, and
     * otherwise an error with nothing emitted.
     */
    method EmitConstant(line: U16, value: Value) returns (constant: nat)
      requires Valid()
      modifies this`lastLine, this`errors, chunk, chunk.code, chunk.lines, compiler`slots, compiler.func`maxSlots
      modifies chunk.constants, chunk.constants.values
      ensures Valid()
      ensures chunk.constants.Elements() == old(if value in chunk.constants.Elements() then chunk.constants.Elements()
                                                 else chunk.constants.Elements() + [value])
      ensures constant < |chunk.constants.Elements()| && chunk.constants.Elements()[constant] == value
      ensures constant == LibArray.FirstIndex(chunk.constants.Elements(), value)
      ensures constant < UINT8_MAX ==>
        Wrote([ops.constant, constant as bv8], line) && Counted([Effect(ops.constant, effects)]) && errors == old(errors)
      ensures UINT8_MAX <= constant < UINT16_MAX ==>
        Wrote([ops.constantLong, High(constant), Low(constant)], line) && Counted([Effect(ops.constantLong, effects)]) &&
        errors == old(errors)
      ensures constant >= UINT16_MAX ==> Wrote([], line) && Counted([]) && errors == old(errors) + [TooManyConstants]
    {
      constant := chunk.AddConst(value);
      ghost var els := chunk.constants.Elements();
      EmitConstantIndex(line, constant);
      assert chunk.constants.Elements() == els;
    }

    /** The emitting half of emit_constant, for the index the chunk gave the constant. */
    method EmitConstantIndex(line: U16, constant: nat)
      requires Valid()
      modifies this`lastLine, this`errors, chunk, chunk.code, chunk.lines, compiler`slots, compiler.func`maxSlots
      ensures Valid()
      ensures constant < UINT8_MAX ==>
        Wrote([ops.constant, constant as bv8], line) && Counted([Effect(ops.constant, effects)]) && errors == old(errors)
      ensures UINT8_MAX <= constant < UINT16_MAX ==>
        Wrote([ops.constantLong, High(constant), Low(constant)], line) && Counted([Effect(ops.constantLong, effects)]) &&
        errors == old(errors)
      ensures constant >= UINT16_MAX ==> Wrote([], line) && Counted([]) && errors == old(errors) + [TooManyConstants]
    {
      if constant < UINT8_MAX {
        EmitArgedOp(line, ops.constant, constant as bv8);
      } else if constant < UINT16_MAX {
        EmitByteOrShortLong(line, ops.constantLong, constant);
      } else {
        errors := errors + [TooManyConstants];
      }
    }

    /** The long half of emit_byte_or_short: the opcode, then the index big-endian. */
    method EmitByteOrShortLong(line: U16, b: bv8, index: U16)
      requires Valid() && Known(b)
      modifies this`lastLine, chunk, chunk.code, chunk.lines, compiler`slots, compiler.func`maxSlots
      ensures Valid() && Wrote([b, High(index), Low(index)], line) && Counted([Effect(b, effects)])
    {
      ghost var c, h := chunk.Code(), chunk.history;
      EmitOp(line, b);
      ghost var l := lastLine;
      EmitShort(line, index);
      assert lastLine == l;
      assert chunk.Code() == c + [b, High(index), Low(index)];
      assert chunk.history == h + (if chunk.hasLineInfo then Chunk.Repeat(l, 3) else []);
    }

    /** emit_jump: the opcode and a 0xffff placeholder, whose offset it returns. */
    method EmitJump(code: bv8, line: U16) returns (offset: nat)
      requires Valid() && Known(code)
      modifies this`lastLine, chunk, chunk.code, chunk.lines, compiler`slots, compiler.func`maxSlots
      ensures Valid() && Wrote([code, 0xff, 0xff], line) && Counted([Effect(code, effects)])
      ensures offset == |old(chunk.Code())| + 1 && offset + 2 == |chunk.Code()|
    {
      ghost var c, h := chunk.Code(), chunk.history;
      EmitOp(line, code);
      ghost var l := lastLine;
      EmitBytes(line, 0xff, 0xff);
      assert lastLine == l;
      assert chunk.Code() == c + [code, 0xff, 0xff];
      assert chunk.history == h + (if chunk.hasLineInfo then Chunk.Repeat(l, 3) else []);
      offset := chunk.count - 2;
    }

    /**
     * patch_jump: the placeholder at offset takes the distance from just
     * after it to the end of the code, big-endian; a distance above
     * 65535 is reported, and its low 16 bits are written anyway.
     */
    method PatchJump(offset: nat, line: U16)
      requires Valid() && offset + 2 <= |chunk.Code()|
      modifies this`errors, chunk.code
      ensures Valid()
      ensures var d := JumpDistance(|old(chunk.Code())|, offset);
        chunk.Code() == old(chunk.Code())[offset := High(d)][offset + 1 := Low(d)] &&
        errors == old(errors) + (if d > UINT16_MAX then [JumpTooBig] else [])
    {
      var jump := chunk.count - offset - 2;
      if jump > UINT16_MAX {
        errors := errors + [JumpTooBig];
      }
      chunk.code[offset] := ((jump / 256) % 256) as bv8;
      chunk.code[offset + 1] := (jump % 256) as bv8;
    }

    /** The error report of patch_jump and emit_loop. */
    method JumpTooBigIf(distance: nat)
      modifies this`errors
      ensures errors == old(errors) + (if distance > UINT16_MAX then [JumpTooBig] else [])
    {
      if distance > UINT16_MAX {
        errors := errors + [JumpTooBig];
      }
    }

    /**
     * emit_loop: OP_JUMP_BACK and the distance back from the end of its
     * operand to start, truncated to 16 bits; a distance above 65535 is
     * reported.
     */
    method EmitLoop(start: nat, line: U16)
      requires Valid() && start <= |chunk.Code()|
      modifies this`lastLine, this`errors, chunk, chunk.code, chunk.lines, compiler`slots, compiler.func`maxSlots
      ensures Valid()
      ensures var d := LoopDistance(|old(chunk.Code())| + 1, start);
        Wrote([ops.jumpBack, High(d % 65536), Low(d % 65536)], line) && Counted([Effect(ops.jumpBack, effects)]) &&
        errors == old(errors) + (if d > UINT16_MAX then [JumpTooBig] else [])
    {
      // The distance is taken from the count after the opcode, as emit_loop does.
      var offset := chunk.count + 1 - start + 2;
      JumpTooBigIf(offset);
      EmitByteOrShortLong(line, ops.jumpBack, offset % 65536);
    }

    /** begin_scope. */
    method BeginScope()
      modifies compiler`scopeDepth
      ensures compiler.scopeDepth == old(compiler.scopeDepth) + 1
    {
      compiler.scopeDepth := compiler.scopeDepth + 1;
    }

    /**
     * end_scope: one scope out, the locals deeper than the new depth are
     * popped off the end, each leaving an OP_CLOSE_UPVALUE when it was
     * captured and an OP_POP otherwise.
     */
    method EndScope(line: U16)
      requires Valid()
      modifies compiler`scopeDepth, compiler`locals, compiler`slots, compiler.func`maxSlots
      modifies this`lastLine, chunk, chunk.code, chunk.lines
      ensures Valid() && compiler.scopeDepth == old(compiler.scopeDepth) - 1
      ensures var n := Survivors(old(compiler.locals), compiler.scopeDepth);
        compiler.locals == old(compiler.locals)[..n] &&
        State() == Emitted(old(State()), ExitOps(old(compiler.locals), n, ops), line, effects)
      ensures (chunk.code == old(chunk.code) || fresh(chunk.code)) && (chunk.lines == old(chunk.lines) || fresh(chunk.lines))
    {
      compiler.scopeDepth := compiler.scopeDepth - 1;
      var count := PopLocals(line, compiler.locals, compiler.scopeDepth);
      compiler.locals := compiler.locals[..count];
    }

    /**
     * end_scope's loop: back from the end of ls, one opcode for each local
     * deeper than depth; the result is the local count that is left.
     */
    method PopLocals(line: U16, ls: seq<Local>, depth: int) returns (count: nat)
      requires Valid()
      modifies compiler`slots, compiler.func`maxSlots, this`lastLine, chunk, chunk.code, chunk.lines
      ensures Valid() && count == Survivors(ls, depth)
      ensures State() == Emitted(old(State()), ExitOps(ls, count, ops), line, effects)
      ensures (chunk.code == old(chunk.code) || fresh(chunk.code)) && (chunk.lines == old(chunk.lines) || fresh(chunk.lines))
    {
      ghost var start := State();
      count := |ls|;
      while count > 0 && ls[count - 1].depth > depth
        invariant count <= |ls| && Deeper(ls, count, depth)
        invariant Valid()
        invariant State() == Emitted(start, ExitOps(ls, count, ops), line, effects)
        invariant (chunk.code == old(chunk.code) || fresh(chunk.code)) && (chunk.lines == old(chunk.lines) || fresh(chunk.lines))
      {
        PopLocal(line, ls, count, start);
        count := count - 1;
      }
      SurvivorsAre(ls, depth, count);
    }

    /** One round of end_scope's loop: the opcode for local count - 1. */
    method PopLocal(line: U16, ls: seq<Local>, count: nat, ghost start: Snapshot)
      requires Valid() && 0 < count <= |ls|
      requires State() == Emitted(start, ExitOps(ls, count, ops), line, effects)
      modifies compiler`slots, compiler.func`maxSlots, this`lastLine, chunk, chunk.code, chunk.lines
      ensures Valid() && State() == Emitted(start, ExitOps(ls, count - 1, ops), line, effects)
      ensures (chunk.code == old(chunk.code) || fresh(chunk.code)) && (chunk.lines == old(chunk.lines) || fresh(chunk.lines))
    {
      var op := ExitOp(ls[count - 1], ops);
      EmitOp(line, op);
      EmittedStep(start, ExitOps(ls, count, ops), op, line, effects);
    }

    /**
     * add_local: the new local goes at the end, uninitialised, and the
     * errors are too many locals when there are already 65535 (the local
     * is added anyway) and one redefinition for each local of the name
     * in the current scope.
     */
    method AddLocal(name: seq<char>, constant: bool) returns (index: int)
      modifies compiler`locals, this`errors
      ensures var ls := old(compiler.locals);
        compiler.locals == ls + [Local(name, UNINITIALIZED, false, constant)] && index == |ls| &&
        errors == old(errors) + (if |ls| == UINT16_MAX then [TooManyLocals] else []) +
          Clashes(ls, ScopeStart(ls, compiler.scopeDepth), name)
    {
      var ls := compiler.locals;
      if |ls| == UINT16_MAX {
        errors := errors + [TooManyLocals];
      }
      ReportClashes(ls, compiler.scopeDepth, name);
      compiler.locals := ls + [Local(name, UNINITIALIZED, false, constant)];
      index := |compiler.locals| - 1;
    }

    /** add_local's loop: back from the end until a local of an outer scope. */
    method ReportClashes(ls: seq<Local>, depth: int, name: seq<char>)
      modifies this`errors
      ensures errors == old(errors) + Clashes(ls, ScopeStart(ls, depth), name)
    {
      var i := |ls|;
      while i > 0 && !Outer(ls[i - 1], depth)
        invariant ScopeStart(ls, depth) <= i <= |ls|
        invariant errors == old(errors) + Clashes(ls, i, name)
      {
        if ls[i - 1].name == name {
          errors := errors + [VarRedefined(name)];
        }
        i := i - 1;
      }
    }

    /** mark_local_initialized: the local takes the current scope depth. */
    method MarkLocalInitialized(index: nat)
      requires index < |compiler.locals|
      modifies compiler`locals
      ensures compiler.locals == old(compiler.locals)[index := old(compiler.locals)[index].(depth := compiler.scopeDepth)]
    {
      compiler.locals := compiler.locals[index := compiler.locals[index].(depth := compiler.scopeDepth)];
    }

    /** resolve_local: the last local of that name, or -1, with an error when it is still uninitialised. */
    method ResolveLocal(c: Compiler, name: seq<char>) returns (r: int)
      modifies this`errors
      ensures r == LastIndex(c.locals, name)
      ensures errors == old(errors) + InitError(c.locals, r, name)
    {
      var ls := c.locals;
      var i: nat := |ls|;
      while i > 0 && ls[i - 1].name != name
        invariant i <= |ls|
        invariant forall j :: i <= j < |ls| ==> ls[j].name != name
      {
        i := i - 1;
      }
      r := i - 1;
      if r >= 0 && ls[r].depth == UNINITIALIZED {
        errors := errors + [VariableUsedInInit(name)];
      }
    }

    /**
     * add_upvalue, bounded by the UINT8_COUNT entries of the array: an
     * existing entry is reused, a new one appended and counted by the
     * function, and a full array reported with 0 returned.
     */
    method AddUpvalue(c: Compiler, index: bv8, isLocal: bool) returns (r: int)
      requires c.Valid()
      modifies c`upvalues, c.func`upvalueCount, this`errors
      ensures c.Valid()
      ensures var u := UpvalueRef(index, isLocal);
        c.upvalues == WithUpvalue(old(c.upvalues), u) && r == UpvalueSlot(old(c.upvalues), u) &&
        errors == old(errors) + FullError(old(c.upvalues), u)
    {
      var ups := c.upvalues;
      var count := c.func.upvalueCount;
      var u := UpvalueRef(index, isLocal);
      var i := 0;
      while i < count
        invariant i <= count == |ups|
        invariant u !in ups[..i]
      {
        if ups[i].index == index && ups[i].isLocal == isLocal {
          assert FirstUpvalue(ups, u) == i;
          return i;
        }
        assert ups[..i + 1] == ups[..i] + [ups[i]];
        i := i + 1;
      }
      assert ups[..i] == ups;
      if count == UINT8_COUNT {
        errors := errors + [TooManyUpvalues];
        return 0;
      }
      UpvalueAdded(ups, u);
      c.upvalues := ups + [u];
      c.func.upvalueCount := count + 1;
      r := count;
    }

    /**
     * resolve_upvalue: -1 without an enclosing compiler; the enclosing
     * compiler's local, marked captured, as a local entry; or the
     * enclosing compiler's upvalue as an entry that is not.
     */
    method ResolveUpvalue(c: Compiler, name: seq<char>) returns (r: int)
      requires c.Valid()
      modifies c.chain`upvalues, c.funcs`upvalueCount, c.chain`locals, this`errors
      ensures c.Valid()
      ensures var res := old(Resolve(c, name));
        r == res.slot && errors == old(errors) + res.errs &&
        c.upvalues == if r == -1 then old(c.upvalues) else WithUpvalue(old(c.upvalues), res.ref)
      decreases c.level, 1
    {
      if c.enclosing == null {
        return -1;
      }
      ghost var inner := Resolve(c.enclosing, name);
      ghost var res := Resolve(c, name);
      ghost var e0, ups := errors, c.upvalues;
      var local := ResolveLocal(c.enclosing, name);
      assert inner == Resolve(c.enclosing, name);
      if local != -1 {
        ghost var e1 := errors;
        r := CaptureLocal(c, local);
        ghost var u := UpvalueRef(Low(local), true);
        assert res.errs == InitError(old(c.enclosing.locals), local, name) + FullError(ups, u);
        assert errors == e1 + FullError(ups, u);
        assert errors == e0 + res.errs;
      } else {
        assert errors == e0;
        r := ResolveOuter(c, name);
      }
    }

    /** The found local of the enclosing compiler is marked captured and becomes an entry marked local. */
    method CaptureLocal(c: Compiler, local: nat) returns (r: int)
      requires c.Valid() && c.enclosing != null && local < |c.enclosing.locals|
      modifies c.enclosing`locals, c`upvalues, c.func`upvalueCount, this`errors
      ensures c.Valid()
      ensures var u := UpvalueRef(Low(local), true);
        c.enclosing.locals == old(c.enclosing.locals[local := c.enclosing.locals[local].(captured := true)]) &&
        c.upvalues == WithUpvalue(old(c.upvalues), u) && r == UpvalueSlot(old(c.upvalues), u) &&
        errors == old(errors) + FullError(old(c.upvalues), u)
    {
      c.enclosing.locals := c.enclosing.locals[local := c.enclosing.locals[local].(captured := true)];
      r := AddUpvalue(c, Low(local), true);
    }

    /** No local of the name in the enclosing compiler: its own upvalue for the name, as an entry that is not local. */
    method ResolveOuter(c: Compiler, name: seq<char>) returns (r: int)
      requires c.Valid() && c.enclosing != null
      modifies c.chain`upvalues, c.funcs`upvalueCount, c.chain`locals, this`errors
      ensures c.Valid()
      ensures var inner := old(Resolve(c.enclosing, name));
        if inner.slot == -1 then r == -1 && errors == old(errors) + inner.errs && c.upvalues == old(c.upvalues)
        else var u := UpvalueRef(Low(inner.slot), false);
          r == UpvalueSlot(old(c.upvalues), u) && c.upvalues == WithUpvalue(old(c.upvalues), u) &&
          errors == old(errors) + inner.errs + FullError(old(c.upvalues), u)
      decreases c.level, 0
    {
      var upvalue := ResolveUpvalue(c.enclosing, name);
      if upvalue != -1 {
        r := AddUpvalue(c, Low(upvalue), false);
      } else {
        r := -1;
      }
    }

    /** What the loops of emits below are stated over: the chunk, last_line and the slot counts. */
    ghost function State(): Snapshot
      reads this`lastLine, chunk`code, chunk`count, chunk.code, chunk`hasLineInfo, chunk`history
      reads compiler`slots, compiler.func`maxSlots
    {
      Snapshot(chunk.Code(), chunk.hasLineInfo, chunk.history, lastLine, compiler.slots, compiler.func.maxSlots)
    }
  }

  /** The emitter's state seen as a value. */
  datatype Snapshot = Snapshot(code: seq<bv8>, lineInfo: bool, history: seq<int>, lastLine: U16,
                               slots: int, maxSlots: nat)

  /**
   * The state after the opcodes xs are emitted one by one from s on the
   * given line: appended, all recorded on one line, effects counted.
   */
  ghost function Emitted(s: Snapshot, xs: seq<bv8>, line: U16, effects: seq<int>): (r: Snapshot)
    ensures r.code == s.code + xs && r.lineInfo == s.lineInfo
  {
    if xs == [] then s
    else
      var l := LineAfter(line, s.lastLine);
      var a := Account(s.slots, s.maxSlots, Effects(xs, effects));
      Snapshot(s.code + xs, s.lineInfo, if s.lineInfo then s.history + Chunk.Repeat(l, |xs|) else s.history, l, a.0, a.1)
  }

  /** Emitting one more opcode after xs is emitting xs with it appended. */
  lemma EmittedStep(s: Snapshot, xs: seq<bv8>, op: bv8, line: U16, effects: seq<int>)
    ensures Emitted(Emitted(s, xs, line, effects), [op], line, effects) == Emitted(s, xs + [op], line, effects)
  {
    assert (xs + [op])[..|xs|] == xs;
    assert [op][..0] == [];
    AccountAppend(s.slots, s.maxSlots, Effects(xs, effects), Effect(op, effects));
    if xs == [] {
      assert xs + [op] == [op];
    } else {
      RepeatMore(LineAfter(line, s.lastLine), |xs|);
    }
  }

  lemma AccountAppend(slots: int, maxSlots: nat, ds: seq<int>, d: int)
    ensures var p := Account(slots, maxSlots, ds); Account(slots, maxSlots, ds + [d]) == Account(p.0, p.1, [d])
  {
    assert (ds + [d])[..|ds|] == ds;
    assert [d][..0] == [];
  }

}
