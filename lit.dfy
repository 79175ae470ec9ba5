/**
 * The value representation and the inline helpers of the lit runtime header
 * (lit.h): NaN boxing of every value in one 64-bit word, the capacity growth
 * rule shared by all growable buffers, truthiness, the two character classes
 * of the scanner, and the heap records that the VM, the fiber library and
 * the core library share (functions, closures, upvalues, call frames,
 * fibers and modules).
 *
 * A double is represented only by its IEEE 754 binary64 bit pattern; the
 * model never computes with floating point.
 */
module Lit {

  /** A boxed value: one 64-bit word. */
  type Value = bv64

  /** An object address with no bits inside SIGN_BIT | QNAN. */
  type Ptr = bv64

  const SIGN_BIT: bv64 := 0x8000_0000_0000_0000
  const QNAN: bv64 := 0x7ffc_0000_0000_0000

  const TAG_NULL: bv64 := 1
  const TAG_FALSE: bv64 := 2
  const TAG_TRUE: bv64 := 3

  const FALSE_VALUE: Value := QNAN | TAG_FALSE
  const TRUE_VALUE: Value := QNAN | TAG_TRUE
  const NULL_VALUE: Value := QNAN | TAG_NULL

  /** Limits and magic numbers of lit.h. */
  const MAX_INTERPOLATION_NESTING: nat := 4
  const INITIAL_CALL_FRAMES: nat := 128
  const BYTECODE_MAGIC_NUMBER: nat := 6932
  const BYTECODE_END_NUMBER: nat := 2942
  const STRING_KEY: bv8 := 48

  predicate IsBool(v: Value) { v & FALSE_VALUE == FALSE_VALUE }
  predicate IsNull(v: Value) { v == NULL_VALUE }
  predicate IsNumber(v: Value) { v & QNAN != QNAN }
  predicate IsObject(v: Value) { v & (QNAN | SIGN_BIT) == (QNAN | SIGN_BIT) }

  /** A pointer that can be boxed: none of its bits overlap the tag masks. */
  predicate Untagged(p: Ptr) { p & (SIGN_BIT | QNAN) == 0 }

  function AsBool(v: Value): bool { v == TRUE_VALUE }

  function AsObject(v: Value): (p: Ptr)
    ensures Untagged(p)
  {
    v & !(SIGN_BIT | QNAN)
  }

  /** OBJECT_VALUE: boxing a pointer is undone by AS_OBJECT. */
  function ObjectValue(p: Ptr): (v: Value)
    ensures IsObject(v) && !IsNumber(v) && !IsNull(v)
    ensures Untagged(p) ==> AsObject(v) == p
  {
    SIGN_BIT | QNAN | p
  }

  /** BOOL_VALUE */
  function BoolValue(b: bool): (v: Value)
    ensures IsBool(v) && !IsNumber(v) && !IsObject(v) && !IsNull(v)
    ensures AsBool(v) == b
  {
    if b then TRUE_VALUE else FALSE_VALUE
  }

  /** The three special constants are pairwise distinct and are neither numbers nor objects. */
  lemma SpecialConstants()
    ensures TRUE_VALUE != FALSE_VALUE && TRUE_VALUE != NULL_VALUE && FALSE_VALUE != NULL_VALUE
    ensures !IsNumber(TRUE_VALUE) && !IsNumber(FALSE_VALUE) && !IsNumber(NULL_VALUE)
    ensures !IsObject(TRUE_VALUE) && !IsObject(FALSE_VALUE) && !IsObject(NULL_VALUE)
    ensures IsBool(TRUE_VALUE) && IsBool(FALSE_VALUE) && !IsBool(NULL_VALUE)
  {
  }

  /**
   * IS_BOOL only tests the FALSE_VALUE bits, so a boxed object whose pointer
   * has bit 1 set also reads as a boolean: object pointers must be 4-byte aligned.
   */
  lemma BoolTestOnObjects(p: Ptr)
    ensures IsBool(ObjectValue(p)) <==> p & 2 != 0
  {
  }

  /** A double equals 0.0 exactly when its bit pattern is +0.0 or -0.0. */
  predicate DoubleIsZero(bits: bv64) { bits == 0 || bits == SIGN_BIT }

  /** lit_is_falsey */
  function IsFalsey(v: Value): (r: bool)
    ensures r <==> v == FALSE_VALUE || v == NULL_VALUE || v == 0 || v == SIGN_BIT
  {
    (IsBool(v) && v == FALSE_VALUE) || IsNull(v) || (IsNumber(v) && DoubleIsZero(v))
  }

  /** LIT_GROW_CAPACITY */
  function GrowCapacity(capacity: nat): (r: nat)
    ensures r > capacity && r >= 8
    ensures capacity >= 8 ==> r == 2 * capacity
  {
    if capacity < 8 then 8 else capacity * 2
  }

  /** lit_is_digit: an ASCII decimal digit, which is never a letter or the underscore. */
  predicate IsDigit(c: char)
    ensures IsDigit(c) ==> !IsAlpha(c) && (c as int) < 128
  {
    '0' <= c <= '9'
  }

  /** lit_is_alpha: a letter or the underscore. */
  predicate IsAlpha(c: char)
    ensures IsAlpha(c) ==> (c as int) < 128 && c != ' ' && c != '\0'
  {
    ('a' <= c <= 'z') || ('A' <= c <= 'Z') || c == '_'
  }

  /** A compiled function object (LitFunction); its chunk is modelled by the Chunk module. */
  class Function {
    const addr: Ptr
    var argCount: nat
    var upvalueCount: nat
    var maxSlots: nat
    var vararg: bool

    constructor (addr: Ptr, argCount: nat, upvalueCount: nat, maxSlots: nat, vararg: bool)
      requires argCount < 256 && upvalueCount < 65536
      ensures this.addr == addr && this.argCount == argCount && this.upvalueCount == upvalueCount
      ensures this.maxSlots == maxSlots && this.vararg == vararg
    {
      this.addr := addr;
      this.argCount := argCount;
      this.upvalueCount := upvalueCount;
      this.maxSlots := maxSlots;
      this.vararg := vararg;
    }
  }

  /** Where an upvalue's location points: a stack slot (an address) or its own closed cell. */
  datatype Location = StackSlot(address: int) | OwnClosed

  /** LitUpvalue */
  class Upvalue {
    var location: Location
    var closed: Value

    constructor (address: int)
      ensures location == StackSlot(address) && closed == NULL_VALUE
    {
      location := StackSlot(address);
      closed := NULL_VALUE;
    }
  }

  // ---------------------------------------------------------------------
  // The open upvalue list of a fiber, as the locations of its entries

  /** The locations of a list of upvalues, in list order. */
  ghost function Locs(ups: seq<Upvalue>): (r: seq<Location>)
    reads set u | u in ups
    ensures |r| == |ups|
  {
    if ups == [] then [] else Locs(ups[..|ups| - 1]) + [ups[|ups| - 1].location]
  }

  lemma {:induction false} LocsAt(ups: seq<Upvalue>, i: nat)
    requires i < |ups|
    ensures Locs(ups)[i] == ups[i].location
  {
    if i < |ups| - 1 {
      LocsAt(ups[..|ups| - 1], i);
    }
  }

  lemma {:induction false} LocsAll(ups: seq<Upvalue>)
    ensures forall i :: 0 <= i < |ups| ==> Locs(ups)[i] == ups[i].location
  {
    forall i | 0 <= i < |ups|
      ensures Locs(ups)[i] == ups[i].location
    {
      LocsAt(ups, i);
    }
  }

  lemma {:induction false} LocsAppend(a: seq<Upvalue>, b: seq<Upvalue>)
    ensures Locs(a + b) == Locs(a) + Locs(b)
  {
    if b != [] {
      assert (a + b)[..|a + b| - 1] == a + b[..|b| - 1];
      LocsAppend(a, b[..|b| - 1]);
    } else {
      assert a + b == a;
    }
  }

  /**
   * The open upvalue list: every entry still points into the stack, and
   * each entry's slot lies above the next one's.
   */
  predicate Descending(ls: seq<Location>)
  {
    ls == [] ||
    (ls[0].StackSlot? &&
     (|ls| == 1 || (ls[1].StackSlot? && ls[0].address > ls[1].address && Descending(ls[1..]))))
  }

  /** The same order stated over all pairs of entries. */
  ghost predicate PairwiseDescending(ls: seq<Location>)
  {
    (forall i :: 0 <= i < |ls| ==> ls[i].StackSlot?) &&
    (forall i, j :: 0 <= i < j < |ls| ==> ls[i].address > ls[j].address)
  }

  /** Ordering each neighbour is ordering every pair. */
  lemma {:induction false} DescendingOrdered(ls: seq<Location>)
    ensures Descending(ls) <==> PairwiseDescending(ls)
  {
    if |ls| > 1 {
      var t := ls[1..];
      DescendingOrdered(t);
      assert forall i :: 1 <= i < |ls| ==> t[i - 1] == ls[i];
      if PairwiseDescending(ls) {
        assert PairwiseDescending(t) by {
          forall i, j | 0 <= i < j < |t|
            ensures t[i].address > t[j].address
          {
            assert ls[i + 1].address > ls[j + 1].address;
          }
        }
      }
    }
  }

  /** Entries at distinct locations are distinct upvalues. */
  lemma {:induction false} DistinctUpvalues(ups: seq<Upvalue>)
    requires Descending(Locs(ups))
    ensures forall i, j :: 0 <= i < j < |ups| ==> ups[i] != ups[j]
  {
    var ls := Locs(ups);
    DescendingOrdered(ls);
    forall i, j | 0 <= i < j < |ups|
      ensures ups[i] != ups[j]
    {
      LocsAt(ups, i);
      LocsAt(ups, j);
      assert ls[i].address > ls[j].address;
    }
  }

  /** Every location is a slot of a stack array of the given size whose first slot is at base. */
  predicate InStack(ls: seq<Location>, base: int, size: int)
  {
    forall i :: 0 <= i < |ls| ==> ls[i].StackSlot? && 0 <= ls[i].address - base < size
  }

  // ---------------------------------------------------------------------

  /** LitClosure */
  class Closure {
    const func: Function
    const upvalues: array<Upvalue?>

    constructor (func: Function, upvalues: array<Upvalue?>)
      ensures this.func == func && this.upvalues == upvalues
    {
      this.func := func;
      this.upvalues := upvalues;
    }
  }

  /** LitCallFrame: a value record inside the fiber's frame array; ip is an offset into the function's code. */
  datatype Frame = Frame(func: Function?, closure: Closure?, ip: nat, slots: int,
                         resultIgnored: bool, returnToC: bool)

  /** The part of LitModule that fibers touch. */
  class Module {
    var mainFiber: Fiber?

    constructor ()
      ensures mainFiber == null
    {
      mainFiber := null;
    }
  }

  /**
   * LitFiber. Pointers into the value stack are addresses counted in slots:
   * the stack array starts at stackBase and stackTop, the frames' slots and
   * the open upvalues' locations are addresses too.
   */
  class Fiber {
    const addr: Ptr
    var parent: Fiber?
    var stack: array<Value>
    var stackBase: int
    var stackTop: int
    var frames: array<Frame>
    var frameCount: nat
    var argCount: nat
    var openUpvalues: seq<Upvalue>
    var owner: Module?
    var error: Value
    var abort: bool
    var catcher: bool

    /** Offset of stack_top from the stack base. */
    function Top(): int
      reads this`stackTop, this`stackBase
    {
      stackTop - stackBase
    }

    predicate Valid()
      reads this`stackTop, this`stackBase, this`stack, this`frameCount, this`frames
    {
      0 <= Top() <= stack.Length && frameCount <= frames.Length && stack != frames as object
    }

    /** The live part of the stack. */
    function Live(): seq<Value>
      reads this`stackTop, this`stackBase, this`stack, this`frameCount, this`frames, stack
      requires Valid()
    {
      stack[..Top()]
    }

    constructor (addr: Ptr, stack: array<Value>, stackBase: int, frames: array<Frame>, owner: Module?)
      requires stack != frames as object
      ensures Valid() && this.addr == addr && this.stack == stack && this.stackBase == stackBase
      ensures stackTop == stackBase && this.frames == frames && frameCount == 0 && argCount == 0
      ensures openUpvalues == [] && this.owner == owner && parent == null
      ensures error == NULL_VALUE && !abort && !catcher
    {
      this.addr := addr;
      this.stack := stack;
      this.stackBase := stackBase;
      this.stackTop := stackBase;
      this.frames := frames;
      this.frameCount := 0;
      this.argCount := 0;
      this.openUpvalues := [];
      this.owner := owner;
      this.parent := null;
      this.error := NULL_VALUE;
      this.abort := false;
      this.catcher := false;
    }

    /** lit_push: store at stack_top, then advance it. */
    method Push(v: Value)
      requires Valid() && Top() < stack.Length
      modifies this`stackTop, stack
      ensures Valid() && stackTop == old(stackTop) + 1
      ensures stack[..] == old(stack[..])[old(Top()) := v]
      ensures Live() == old(Live()) + [v]
    {
      stack[stackTop - stackBase] := v;
      stackTop := stackTop + 1;
    }

    /**
     * lit_pop as written: it reads the slot AT stack_top (one above the last
     * pushed value) and only then moves stack_top down.
     */
    method Pop() returns (r: Value)
      requires Valid() && 0 < Top() < stack.Length
      modifies this`stackTop
      ensures Valid() && stackTop == old(stackTop) - 1
      ensures r == stack[old(Top())]
      ensures Live() == old(Live())[..old(Top()) - 1]
    {
      r := stack[stackTop - stackBase];
      stackTop := stackTop - 1;
    }

    /**
     * The pop that lit_push is evidently paired with (corrected): move
     * stack_top down first, then read the slot it now points to.
     */
    method PopLast() returns (r: Value)
      requires Valid() && 0 < Top()
      modifies this`stackTop
      ensures Valid() && stackTop == old(stackTop) - 1
      ensures r == old(Live())[old(Top()) - 1]
      ensures Live() + [r] == old(Live())
    {
      stackTop := stackTop - 1;
      r := stack[stackTop - stackBase];
    }
  }

  /** The part of LitVM the fiber operations touch: the running fiber. */
  class VM {
    var fiber: Fiber?

    constructor (fiber: Fiber?)
      ensures this.fiber == fiber
    {
      this.fiber := fiber;
    }
  }

  /**
   * A push followed by lit_pop does not give back the pushed value: it
   * returns whatever the slot above held (here a fresh zeroed slot).
   */
  method PushThenPopReturnsSlotAbove() returns (pushed: Value, popped: Value)
    ensures pushed == TRUE_VALUE && popped == 0 && popped != pushed
  {
    var stack := new Value[2];
    stack[0], stack[1] := 0, 0;
    var frames := new Frame[0];
    var fiber := new Fiber(0, stack, 0, frames, null);
    pushed := TRUE_VALUE;
    fiber.Push(pushed);
    popped := fiber.Pop();
  }

  /** With the corrected pop, a push followed by a pop gives the pushed value back and leaves the stack as it was. */
  method PushThenPopLastRoundTrip(fiber: Fiber, v: Value) returns (popped: Value)
    requires fiber.Valid() && fiber.Top() < fiber.stack.Length
    modifies fiber`stackTop, fiber.stack
    ensures popped == v
    ensures fiber.Valid() && fiber.Live() == old(fiber.Live())
  {
    fiber.Push(v);
    popped := fiber.PopLast();
  }
}
