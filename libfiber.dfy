/**
 * The Fiber class of libfiber.c: its constructor, and yield, yeet and
 * abort, which hand control back from the running fiber to its parent
 * or report a runtime error when there is none.
 */
module LibFiber {
  import opened Lit
  import opened Wrappers
  import Object
  import Core

  const CONSTRUCTOR_ERROR := "Fiber constructor expects a function as its argument"
  const YIELDED := "Fiber was yielded"
  const YEETED := "Fiber was yeeted"
  const ABORTED := "Fiber was aborted"

  /**
   * The string a runtime error of these methods reports: a fixed text
   * when there is no argument, otherwise the string object lit_to_string
   * makes of the first argument.
   */
  datatype Message = Text(text: string) | Converted(addr: Ptr)

  function Said(argc: nat, text: string, converted: Ptr): (m: Message)
    ensures argc == 0 <==> m == Text(text)
    ensures argc > 0 <==> m == Converted(converted)
  {
    if argc == 0 then Text(text) else Converted(converted)
  }

  /**
   * The value yield and yeet hand to the parent: null without an
   * argument, else the string object lit_to_string makes of it.
   */
  function Handed(argc: nat, converted: Ptr): (v: Value)
    ensures argc == 0 <==> v == NULL_VALUE
    ensures argc > 0 ==> IsObject(v) && (Untagged(converted) ==> AsObject(v) == converted)
  {
    if argc == 0 then NULL_VALUE else ObjectValue(converted)
  }

  /**
   * objfn_fiber_constructor. func is the function the first argument is
   * (null when it is not one). Without a function argument it is an
   * error; otherwise a new fiber for the function in the running fiber's
   * module, whose parent is the running fiber.
   */
  method Construct(vm: VM, argc: nat, func: Function?, addr: Ptr, stackAddr: int) returns (r: Result<Fiber, string>)
    requires vm.fiber != null
    requires func != null ==> func.maxSlots < 0x4000_0000
    modifies vm.fiber.owner
    ensures argc < 1 || func == null <==> r.Failure?
    ensures r.Failure? ==> r.error == CONSTRUCTOR_ERROR && (vm.fiber.owner != null ==> unchanged(vm.fiber.owner))
    ensures r.Success? ==> var fiber := r.value;
      fresh(fiber) && fiber.Valid() && fiber.addr == addr && fiber.parent == vm.fiber &&
      fiber.owner == vm.fiber.owner && fiber.frameCount == 1 && fiber.Live() == [] &&
      fiber.frames[0] == Frame(func, null, 0, stackAddr, false, false) &&
      fiber.stack.Length == Object.FiberCapacity(func) && !Core.IsFiberDone(fiber)
    ensures r.Success? && vm.fiber.owner != null ==>
      vm.fiber.owner.mainFiber == if old(vm.fiber.owner.mainFiber) == null then r.value else old(vm.fiber.owner.mainFiber)
  {
    if argc < 1 || func == null {
      return Failure(CONSTRUCTOR_ERROR);
    }
    var fiber := Object.CreateFiber(vm.fiber.owner, func, addr, stackAddr);
    fiber.parent := vm.fiber;
    return Success(fiber);
  }

  /**
   * What yield and yeet do, from child, the running fiber. With no parent
   * it is a runtime error saying text, or the first argument as a string,
   * and nothing changes. Otherwise the parent becomes the VM's fiber,
   * loses the child's arg_count slots from its top and gets the handed
   * value in its new top slot; the child's slot just below the
   * arguments, where the receiver sat, becomes null.
   */
  twostate predicate Left(vm: VM, child: Fiber, parent: Fiber?, argc: nat, converted: Ptr, text: string,
                          new r: Result<(), Message>)
    reads vm, child, child.stack, if parent != null then {parent, parent.stack} else {}
  {
    (parent == null <==> r.Failure?) &&
    (r.Failure? ==> r.error == Said(argc, text, converted) && vm.fiber == child &&
                    unchanged(child) && unchanged(child.stack)) &&
    (r.Success? ==>
      parent != null && old(child.Valid()) && old(parent.Valid()) &&
      var live := old(parent.Live());
      var n := |live| - old(child.argCount);
      1 <= n <= |live| && old(child.Top()) >= argc + 1 &&
      vm.fiber == parent && parent.Valid() && child.Valid() &&
      parent.stack == old(parent.stack) && child.stack == old(child.stack) &&
      parent.Live() == live[..n - 1] + [Handed(argc, converted)] &&
      child.Live() == old(child.Live())[old(child.Top()) - argc - 1 := NULL_VALUE])
  }

  /** The running fiber hands control to its parent, as Left says. */
  method Leave(vm: VM, argc: nat, converted: Ptr, text: string) returns (r: Result<(), Message>)
    requires vm.fiber != null && vm.fiber.Valid() && argc + 1 <= vm.fiber.Top()
    requires var p := vm.fiber.parent;
      p != null ==> p != vm.fiber && p.Valid() && p.stack != vm.fiber.stack && vm.fiber.argCount + 1 <= p.Top()
    modifies vm`fiber, vm.fiber`stackTop, vm.fiber.stack
    modifies if vm.fiber.parent != null then {vm.fiber.parent, vm.fiber.parent.stack} else {}
    ensures Left(vm, old(vm.fiber), old(vm.fiber.parent), argc, converted, text, r)
  {
    var child := vm.fiber;
    if child.parent == null {
      return Failure(Said(argc, text, converted));
    }
    var parent := child.parent;
    vm.fiber := parent;
    parent.stackTop := parent.stackTop - child.argCount;
    parent.stack[parent.Top() - 1] := Handed(argc, converted);
    child.stack[child.Top() - argc - 1] := NULL_VALUE;
    return Success(());
  }

  /** objfn_fiber_yield: Left, with "Fiber was yielded" as the error without a parent. */
  method Yield(vm: VM, argc: nat, converted: Ptr) returns (r: Result<(), Message>)
    requires vm.fiber != null && vm.fiber.Valid() && argc + 1 <= vm.fiber.Top()
    requires var p := vm.fiber.parent;
      p != null ==> p != vm.fiber && p.Valid() && p.stack != vm.fiber.stack && vm.fiber.argCount + 1 <= p.Top()
    modifies vm`fiber, vm.fiber`stackTop, vm.fiber.stack
    modifies if vm.fiber.parent != null then {vm.fiber.parent, vm.fiber.parent.stack} else {}
    ensures Left(vm, old(vm.fiber), old(vm.fiber.parent), argc, converted, YIELDED, r)
  {
    r := Leave(vm, argc, converted, YIELDED);
  }

  /** objfn_fiber_yeet: the same as yield, with "Fiber was yeeted" as the error. */
  method Yeet(vm: VM, argc: nat, converted: Ptr) returns (r: Result<(), Message>)
    requires vm.fiber != null && vm.fiber.Valid() && argc + 1 <= vm.fiber.Top()
    requires var p := vm.fiber.parent;
      p != null ==> p != vm.fiber && p.Valid() && p.stack != vm.fiber.stack && vm.fiber.argCount + 1 <= p.Top()
    modifies vm`fiber, vm.fiber`stackTop, vm.fiber.stack
    modifies if vm.fiber.parent != null then {vm.fiber.parent, vm.fiber.parent.stack} else {}
    ensures Left(vm, old(vm.fiber), old(vm.fiber.parent), argc, converted, YEETED, r)
  {
    r := Leave(vm, argc, converted, YEETED);
  }

  /**
   * objfn_fiber_abort: always a runtime error ("Fiber was aborted", or
   * the first argument as a string); the receiver's slot below the
   * arguments becomes null.
   */
  method Abort(fiber: Fiber, argc: nat, converted: Ptr) returns (m: Message)
    requires fiber.Valid() && argc + 1 <= fiber.Top()
    modifies fiber.stack
    ensures m == Said(argc, ABORTED, converted)
    ensures fiber.Live() == old(fiber.Live())[fiber.Top() - argc - 1 := NULL_VALUE]
  {
    m := Said(argc, ABORTED, converted);
    fiber.stack[fiber.Top() - argc - 1] := NULL_VALUE;
  }

  /**
   * A fiber that run or try resumed hands control back, on yield, to the
   * fiber that was running when it was resumed, and gets it the value.
   */
  method ResumeThenYield(vm: VM, fiber: Fiber, catcher: bool, argc: nat, converted: Ptr) returns (r: Result<(), Message>)
    requires vm.fiber != null && vm.fiber != fiber && vm.fiber.Valid() && fiber.Valid() && vm.fiber.stack != fiber.stack
    requires argc + 1 <= fiber.Top() && fiber.argCount + 1 <= vm.fiber.Top()
    modifies vm, fiber, fiber.stack, vm.fiber, vm.fiber.stack
    ensures r.Success? && vm.fiber == old(vm.fiber) && fiber.parent == old(vm.fiber) && vm.fiber.Valid()
    ensures var live := old(vm.fiber.Live());
      vm.fiber.Live() == live[..|live| - old(fiber.argCount) - 1] + [Handed(argc, converted)]
  {
    Core.Resume(vm, fiber, catcher);
    r := Yield(vm, argc, converted);
  }
}
