/**
 * The object constructors and fiber helpers of object.c (and their twins
 * in libfiber.c): which values are callable, creating a fiber and a
 * closure, and growing a fiber's stack, which moves every pointer into it.
 */
module Object {
  import opened Lit
  import opened Values

  /** lit_is_callable_function: an object of one of the seven callable types. */
  predicate IsCallableFunction(v: Value, header: Ptr -> ObjType)
  {
    IsObject(v) &&
    var t := header(AsObject(v));
    t == ClosureType || t == FunctionType || t == NativeFunctionType || t == NativePrimitiveType ||
    t == NativeMethodType || t == PrimitiveMethodType || t == BoundMethodType
  }

  /** The seven types, and no other, make a boxed object callable; nothing else is. */
  lemma CallableTypes(v: Value, header: Ptr -> ObjType)
    ensures !IsObject(v) ==> !IsCallableFunction(v, header)
    ensures IsObject(v) ==>
      (IsCallableFunction(v, header) <==>
       header(AsObject(v)) in {ClosureType, FunctionType, NativeFunctionType, NativePrimitiveType,
                               NativeMethodType, PrimitiveMethodType, BoundMethodType})
  {
  }

  /** A power of two: 1, 2, 4, 8, ... */
  predicate IsPowerOfTwo(c: nat)
  {
    c == 1 || (c >= 2 && c % 2 == 0 && IsPowerOfTwo(c / 2))
  }

  /**
   * The capacity lit_ensure_fiber_stack grows a stack to: the least power
   * of two at or above needed, as lit_closest_power_of_two rounds up.
   */
  function StackCapacity(needed: nat): (c: nat)
    requires needed >= 1
    ensures IsPowerOfTwo(c) && needed <= c && (c == 1 || c / 2 < needed)
  {
    if needed == 1 then 1 else 2 * StackCapacity((needed + 1) / 2)
  }

  /** No power of two lies in [needed, StackCapacity(needed)): it is the least one at or above needed. */
  lemma {:induction false} StackCapacityLeast(needed: nat, p: nat)
    requires needed >= 1 && IsPowerOfTwo(p) && needed <= p
    ensures StackCapacity(needed) <= p
  {
    if needed > 1 {
      assert p >= 2;
      StackCapacityLeast((needed + 1) / 2, p / 2);
    }
  }

  // ---------------------------------------------------------------------
  // Creating fibers and closures

  /** The stack capacity lit_create_fiber allocates: one slot more than the function needs, rounded up. */
  function FiberCapacity(func: Function?): (c: nat)
    reads func
    requires func != null ==> func.maxSlots < 0x4000_0000
    ensures func == null ==> c == 1
    ensures func != null ==> IsPowerOfTwo(c) && func.maxSlots < c
  {
    if func == null then 1 else StackCapacity(func.maxSlots + 1)
  }

  /**
   * lit_create_fiber: a stack of FiberCapacity slots at stackAddr, 128
   * call frames of which the first is in use with its slots at the stack
   * base, nothing pushed, and the fiber becomes its module's main fiber
   * when that has none yet. A null module is tolerated as in libfiber.c.
   */
  method CreateFiber(owner: Module?, func: Function?, addr: Ptr, stackAddr: int) returns (fiber: Fiber)
    requires func != null ==> func.maxSlots < 0x4000_0000
    modifies owner
    ensures fresh(fiber) && fresh(fiber.stack) && fresh(fiber.frames) && fiber.Valid()
    ensures fiber.addr == addr && fiber.stack.Length == FiberCapacity(func) && fiber.stackBase == stackAddr
    ensures fiber.Live() == [] && fiber.openUpvalues == [] && fiber.parent == null && fiber.owner == owner
    ensures fiber.frames.Length == INITIAL_CALL_FRAMES && fiber.frameCount == 1
    ensures fiber.frames[0] == Frame(func, null, 0, stackAddr, false, false)
    ensures fiber.argCount == 0 && fiber.error == NULL_VALUE && !fiber.abort && !fiber.catcher
    ensures owner != null ==> owner.mainFiber == if old(owner.mainFiber) == null then fiber else old(owner.mainFiber)
  {
    var capacity := FiberCapacity(func);
    var stack := new Value[capacity];
    var frames := new Frame[INITIAL_CALL_FRAMES](_ => Frame(null, null, 0, 0, false, false));
    fiber := new Fiber(addr, stack, stackAddr, frames, owner);
    if owner != null && owner.mainFiber == null {
      owner.mainFiber := fiber;
    }
    fiber.frameCount := 1;
    frames[0] := Frame(func, null, 0, stackAddr, false, false);
  }

  /** lit_create_closure: one upvalue slot per upvalue of the func, each null. */
  method CreateClosure(func: Function) returns (closure: Closure)
    ensures fresh(closure) && fresh(closure.upvalues) && closure.func == func
    ensures closure.upvalues.Length == func.upvalueCount
    ensures forall i :: 0 <= i < closure.upvalues.Length ==> closure.upvalues[i] == null
  {
    var upvalues := new Upvalue?[func.upvalueCount];
    var i := 0;
    while i < func.upvalueCount
      invariant i <= upvalues.Length == func.upvalueCount
      invariant forall j :: 0 <= j < i ==> upvalues[j] == null
    {
      upvalues[i] := null;
      i := i + 1;
    }
    closure := new Closure(func, upvalues);
  }

  // ---------------------------------------------------------------------
  // Growing a fiber's stack

  /** An address moved by delta; a closed location does not move. */
  function Moved(l: Location, delta: int): (r: Location)
    ensures r.StackSlot? <==> l.StackSlot?
    ensures l.StackSlot? ==> r.address - delta == l.address
  {
    if l.StackSlot? then StackSlot(l.address + delta) else l
  }

  /** The locations of the open list after the stack moved by delta. */
  function Shift(ls: seq<Location>, delta: int): (r: seq<Location>)
    ensures |r| == |ls|
  {
    if ls == [] then [] else Shift(ls[..|ls| - 1], delta) + [Moved(ls[|ls| - 1], delta)]
  }

  lemma {:induction false} ShiftAt(ls: seq<Location>, delta: int, i: nat)
    requires i < |ls|
    ensures Shift(ls, delta)[i] == Moved(ls[i], delta)
  {
    if i < |ls| - 1 {
      ShiftAt(ls[..|ls| - 1], delta, i);
    }
  }

  /**
   * Moving the whole stack keeps each open upvalue at the same offset
   * from the stack base, so the list stays sorted and inside the stack.
   */
  lemma ShiftKeepsOffsets(ls: seq<Location>, base: int, size: int, newBase: int, newSize: int)
    requires Descending(ls) && InStack(ls, base, size) && size <= newSize
    ensures var r := Shift(ls, newBase - base);
      Descending(r) && InStack(r, newBase, newSize) &&
      forall i :: 0 <= i < |ls| ==> r[i].address - newBase == ls[i].address - base
  {
    var r := Shift(ls, newBase - base);
    forall i | 0 <= i < |ls|
      ensures r[i] == StackSlot(ls[i].address + newBase - base)
    {
      ShiftAt(ls, newBase - base, i);
    }
    DescendingOrdered(ls);
    assert PairwiseDescending(r);
    DescendingOrdered(r);
  }

  /** A call frame whose slots pointer moved by delta. */
  function MovedFrame(f: Frame, delta: int): (g: Frame)
    ensures g.slots - delta == f.slots
    ensures g.(slots := 0) == f.(slots := 0)
  {
    f.(slots := f.slots + delta)
  }

  /** Every frame's slots moved by delta. */
  function MovedFrames(fs: seq<Frame>, delta: int): (r: seq<Frame>)
    ensures |r| == |fs|
  {
    seq(|fs|, i requires 0 <= i < |fs| => MovedFrame(fs[i], delta))
  }

  /** Moving by nothing leaves every frame where it was. */
  lemma MovedFramesNone(fs: seq<Frame>)
    ensures MovedFrames(fs, 0) == fs
  {
  }

  /**
   * lit_ensure_fiber_stack (object.c and libfiber.c alike): nothing happens
   * when the capacity already holds needed slots. Otherwise the stack is
   * reallocated to the least power of two at or above needed, and newBase
   * is where the allocator put it; when it moved, every frame's slots
   * (over the whole frame capacity), every open upvalue's location and
   * stack_top are moved with it, so each keeps its offset from the base.
   */
  method EnsureStack(fiber: Fiber, needed: nat, newBase: int) returns (ghost ls: seq<Location>)
    requires fiber.Valid() && Descending(Locs(fiber.openUpvalues))
    modifies fiber`stack, fiber`stackBase, fiber`stackTop, fiber.frames, fiber.openUpvalues
    ensures ls == old(Locs(fiber.openUpvalues))
    ensures fiber.Valid() && fiber.Top() == old(fiber.Top()) && fiber.Live() == old(fiber.Live())
    ensures fiber.frames == old(fiber.frames) && fiber.openUpvalues == old(fiber.openUpvalues)
    ensures old(fiber.stack.Length) >= needed ==>
      fiber.stack == old(fiber.stack) && fiber.stackBase == old(fiber.stackBase) &&
      fiber.stackTop == old(fiber.stackTop) && Locs(fiber.openUpvalues) == ls
    ensures old(fiber.stack.Length) < needed ==>
      fresh(fiber.stack) && fiber.stack.Length == StackCapacity(needed) && fiber.stackBase == newBase &&
      fiber.stack[..old(fiber.stack.Length)] == old(fiber.stack[..])
    ensures var delta := fiber.stackBase - old(fiber.stackBase);
      fiber.frames[..] == MovedFrames(old(fiber.frames[..]), delta) && Locs(fiber.openUpvalues) == Shift(ls, delta)
    ensures forall u :: u in fiber.openUpvalues ==> u.closed == old(u.closed)
  {
    ls := Locs(fiber.openUpvalues);
    if fiber.stack.Length >= needed {
      ShiftNone(ls);
      MovedFramesNone(fiber.frames[..]);
      return;
    }
    var capacity := StackCapacity(needed);
    ls := Grow(fiber, capacity, newBase);
  }

  /** The reallocating half of lit_ensure_fiber_stack. */
  method Grow(fiber: Fiber, capacity: nat, newBase: int) returns (ghost ls: seq<Location>)
    requires fiber.Valid() && Descending(Locs(fiber.openUpvalues)) && fiber.stack.Length < capacity
    modifies fiber`stack, fiber`stackBase, fiber`stackTop, fiber.frames, fiber.openUpvalues
    ensures ls == old(Locs(fiber.openUpvalues))
    ensures fiber.Valid() && fiber.Top() == old(fiber.Top()) && fiber.Live() == old(fiber.Live())
    ensures fiber.frames == old(fiber.frames) && fiber.openUpvalues == old(fiber.openUpvalues)
    ensures fresh(fiber.stack) && fiber.stack.Length == capacity && fiber.stackBase == newBase
    ensures fiber.stack[..old(fiber.stack.Length)] == old(fiber.stack[..])
    ensures var delta := newBase - old(fiber.stackBase);
      fiber.frames[..] == MovedFrames(old(fiber.frames[..]), delta) && Locs(fiber.openUpvalues) == Shift(ls, delta)
    ensures forall u :: u in fiber.openUpvalues ==> u.closed == old(u.closed)
  {
    var oldBase := fiber.stackBase;
    Regrow(fiber, capacity, newBase);
    ls := Rebase(fiber, oldBase);
  }

  /** Where stack_top, the frames and the open upvalues point once the stack moved from oldBase. */
  method Rebase(fiber: Fiber, oldBase: int) returns (ghost ls: seq<Location>)
    requires fiber.stack != fiber.frames as object && Descending(Locs(fiber.openUpvalues))
    modifies fiber`stackTop, fiber.frames, fiber.openUpvalues
    ensures var delta := fiber.stackBase - oldBase;
      ls == old(Locs(fiber.openUpvalues)) && Locs(fiber.openUpvalues) == Shift(ls, delta) &&
      fiber.stackTop == old(fiber.stackTop) + delta
    ensures fiber.frames[..] == MovedFrames(old(fiber.frames[..]), fiber.stackBase - oldBase)
    ensures forall u :: u in fiber.openUpvalues ==> u.closed == old(u.closed)
  {
    if fiber.stackBase != oldBase {
      ls := Relocate(fiber, fiber.stackBase - oldBase);
    } else {
      ls := Locs(fiber.openUpvalues);
      ShiftNone(ls);
      MovedFramesNone(fiber.frames[..]);
    }
  }

  /** The moving loops of lit_ensure_fiber_stack, once the stack itself has moved by delta. */
  method Relocate(fiber: Fiber, delta: int) returns (ghost ls: seq<Location>)
    requires fiber.stack != fiber.frames as object && Descending(Locs(fiber.openUpvalues))
    modifies fiber`stackTop, fiber.frames, fiber.openUpvalues
    ensures ls == old(Locs(fiber.openUpvalues)) && Locs(fiber.openUpvalues) == Shift(ls, delta)
    ensures fiber.stackTop == old(fiber.stackTop) + delta
    ensures forall u :: u in fiber.openUpvalues ==> u.closed == old(u.closed)
    ensures fiber.frames[..] == MovedFrames(old(fiber.frames[..]), delta)
  {
    MoveFrames(fiber.frames, delta);
    ls := MoveUpvalues(fiber.openUpvalues, delta);
    fiber.stackTop := fiber.stackTop + delta;
  }

  /** Moving by nothing leaves every location where it was. */
  lemma {:induction false} ShiftNone(ls: seq<Location>)
    ensures Shift(ls, 0) == ls
  {
    if ls != [] {
      ShiftNone(ls[..|ls| - 1]);
      assert ls == ls[..|ls| - 1] + [ls[|ls| - 1]];
    }
  }

  /**
   * The realloc of the stack: a new buffer of the given capacity, at
   * newBase, starting with the old slots; stack_top is not moved yet.
   */
  method Regrow(fiber: Fiber, capacity: nat, newBase: int)
    requires fiber.Valid() && fiber.stack.Length <= capacity
    modifies fiber`stack, fiber`stackBase
    ensures fresh(fiber.stack) && fiber.stack.Length == capacity && fiber.stackBase == newBase
    ensures fiber.stack[..old(fiber.stack.Length)] == old(fiber.stack[..])
  {
    var old_ := fiber.stack;
    var grown := new Value[capacity](i reads old_ => if 0 <= i < old_.Length then old_[i] else 0);
    assert grown[..old_.Length] == old_[..];
    fiber.stack := grown;
    fiber.stackBase := newBase;
  }

  /** The frame loop of lit_ensure_fiber_stack: every one of the frame_capacity frames is moved. */
  method MoveFrames(frames: array<Frame>, delta: int)
    modifies frames
    ensures frames[..] == MovedFrames(old(frames[..]), delta)
  {
    var i := 0;
    while i < frames.Length
      invariant i <= frames.Length
      invariant forall j :: 0 <= j < i ==> frames[j] == MovedFrame(old(frames[j]), delta)
      invariant forall j :: i <= j < frames.Length ==> frames[j] == old(frames[j])
    {
      frames[i] := MovedFrame(frames[i], delta);
      i := i + 1;
    }
    assert frames[..] == MovedFrames(old(frames[..]), delta);
  }

  /** The state of the upvalue loop after i rounds: the first i moved, the rest as they were. */
  ghost predicate MovedUpTo(ups: seq<Upvalue>, ls: seq<Location>, cl: seq<Value>, delta: int, i: nat)
    reads set u | u in ups
  {
    |ls| == |ups| == |cl| && i <= |ups| &&
    (forall j :: 0 <= j < i ==> ups[j].location == Moved(ls[j], delta)) &&
    (forall j :: i <= j < |ups| ==> ups[j].location == ls[j]) &&
    (forall j :: 0 <= j < |ups| ==> ups[j].closed == cl[j])
  }

  /** One round of the upvalue loop: ups[i], a distinct entry, is moved. */
  method MoveUpvalue(ups: seq<Upvalue>, ghost ls: seq<Location>, ghost cl: seq<Value>,
                     ghost pos: map<Upvalue, nat>, delta: int, i: nat)
    requires MovedUpTo(ups, ls, cl, delta, i) && i < |ups|
    requires forall j :: 0 <= j < |ups| ==> ups[j] in pos && pos[ups[j]] == j
    modifies ups[i]
    ensures MovedUpTo(ups, ls, cl, delta, i + 1)
  {
    ups[i].location := Moved(ups[i].location, delta);
  }

  /** The open-upvalue loop of lit_ensure_fiber_stack: every entry of the list is moved by delta. */
  method MoveUpvalues(ups: seq<Upvalue>, delta: int) returns (ghost ls: seq<Location>)
    requires Descending(Locs(ups))
    modifies set u | u in ups
    ensures ls == old(Locs(ups)) && Locs(ups) == Shift(ls, delta)
    ensures forall u :: u in ups ==> u.closed == old(u.closed)
  {
    ghost var cl, pos;
    ls, cl, pos := StartMoving(ups, delta);
    var i := 0;
    while i < |ups|
      invariant MovedUpTo(ups, ls, cl, delta, i)
    {
      MoveUpvalue(ups, ls, cl, pos, delta, i);
      i := i + 1;
    }
    FinishMoving(ups, ls, cl, delta);
    forall u | u in ups
      ensures u.closed == old(u.closed)
    {
      var j :| 0 <= j < |ups| && ups[j] == u;
    }
  }

  /** Before the first round: the locations, the closed values and each entry's index. */
  lemma StartMoving(ups: seq<Upvalue>, delta: int) returns (ls: seq<Location>, cl: seq<Value>, pos: map<Upvalue, nat>)
    requires Descending(Locs(ups))
    ensures ls == Locs(ups) && MovedUpTo(ups, ls, cl, delta, 0)
    ensures forall j :: 0 <= j < |ups| ==> ups[j] in pos && pos[ups[j]] == j && cl[j] == ups[j].closed
  {
    ls := Locs(ups);
    LocsAll(ups);
    DistinctUpvalues(ups);
    pos := map j | 0 <= j < |ups| :: ups[j] := j;
    cl := seq(|ups|, j requires 0 <= j < |ups| reads ups => ups[j].closed);
  }

  /** After the last round the list's locations are the shifted ones. */
  lemma FinishMoving(ups: seq<Upvalue>, ls: seq<Location>, cl: seq<Value>, delta: int)
    requires MovedUpTo(ups, ls, cl, delta, |ups|)
    ensures Locs(ups) == Shift(ls, delta)
  {
    LocsAll(ups);
    forall j | 0 <= j < |ups|
      ensures Shift(ls, delta)[j] == Moved(ls[j], delta)
    {
      ShiftAt(ls, delta, j);
    }
  }
}
