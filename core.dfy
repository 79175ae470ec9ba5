/**
 * The sorting and fiber-running helpers of libcore.c: the two in-place
 * quicksorts behind Array.sort, util_is_fiber_done and util_run_fiber.
 */
module Core {
  import opened Lit
  import opened Wrappers
  import LibArray
  import Object
  import Vm

  // ---------------------------------------------------------------------
  // Sorting

  /**
   * compare in libcore.c: two numbers are ordered by `<` on their doubles
   * (numLess), anything else by calling the left value's `<` method
   * (callLess) and testing the result for truth.
   */
  function Compare(numLess: (Value, Value) -> bool, callLess: (Value, Value) -> Value, a: Value, b: Value): (r: bool)
  {
    if IsNumber(a) && IsNumber(b) then numLess(a, b) else !IsFalsey(callLess(a, b))
  }

  /** Two numbers never reach the `<` method, and anything else never reaches the double comparison. */
  lemma CompareDispatch(numLess: (Value, Value) -> bool, callLess: (Value, Value) -> Value, a: Value, b: Value)
    ensures IsNumber(a) && IsNumber(b) ==> (Compare(numLess, callLess, a, b) <==> numLess(a, b))
    ensures !IsNumber(a) || !IsNumber(b) ==>
      (Compare(numLess, callLess, a, b) <==> callLess(a, b) != FALSE_VALUE && callLess(a, b) != NULL_VALUE &&
                                              callLess(a, b) != 0 && callLess(a, b) != SIGN_BIT)
  {
  }

  /** after[lo..lo + length] is a permutation of before's, and nothing outside it differs. */
  predicate PermutedSeq(before: seq<Value>, after: seq<Value>, lo: nat, length: nat)
    requires lo + length <= |before| == |after|
  {
    multiset(after[lo..lo + length]) == multiset(before[lo..lo + length]) &&
    after[..lo] == before[..lo] && after[lo + length..] == before[lo + length..]
  }

  /** a[lo..lo + length] is a permutation of what it was, and nothing outside it changed. */
  twostate predicate Permuted(a: array<Value>, lo: nat, length: nat)
    reads a
    requires lo + length <= a.Length
  {
    PermutedSeq(old(a[..]), a[..], lo, length)
  }

  /**
   * Sorting the two halves of a partitioned range one after the other
   * permutes the whole range.
   */
  lemma Combine(s0: seq<Value>, s1: seq<Value>, s2: seq<Value>, s3: seq<Value>, lo: nat, i: nat, length: nat)
    requires i <= length && lo + length <= |s0| == |s1| == |s2| == |s3|
    requires PermutedSeq(s0, s1, lo, length)
    requires PermutedSeq(s1, s2, lo, i)
    requires PermutedSeq(s2, s3, lo + i, length - i)
    ensures PermutedSeq(s0, s3, lo, length)
  {
    Halves(s1, lo, i, length);
    Halves(s2, lo, i, length);
    Halves(s3, lo, i, length);
    assert s2[lo + i..lo + length] == s1[lo + i..lo + length] by {
      assert s2[lo + i..] == s1[lo + i..];
    }
    assert s3[lo..lo + i] == s2[lo..lo + i] by {
      assert s3[..lo + i] == s2[..lo + i];
    }
    assert s3[..lo] == s2[..lo + i][..lo];
    assert s2[..lo] == s2[..lo + i][..lo];
    assert s3[lo + length..] == s2[lo + i..][length - i..];
    assert s2[lo + length..] == s2[lo + i..][length - i..];
  }

  /** The swap of the partition loop: l[i] and l[j] trade places. */
  method Swap(a: array<Value>, lo: nat, length: nat, i: nat, j: nat)
    requires lo + length <= a.Length && i < length && j < length
    modifies a
    ensures a[..] == old(a[..])[lo + i := old(a[lo + j])][lo + j := old(a[lo + i])]
    ensures Permuted(a, lo, length)
  {
    a[lo + i], a[lo + j] := a[lo + j], a[lo + i];
    assert a[lo..lo + length] == old(a[lo..lo + length])[i := old(a[lo + j])][j := old(a[lo + i])];
    assert a[..lo] == old(a[..lo]);
    assert a[lo + length..] == old(a[lo + length..]);
  }

  /** The two halves of a range together are the range. */
  lemma Halves(s: seq<Value>, lo: nat, i: nat, length: nat)
    requires lo + i <= lo + length <= |s|
    ensures multiset(s[lo..lo + length]) == multiset(s[lo..lo + i]) + multiset(s[lo + i..lo + length])
  {
    assert s[lo..lo + length] == s[lo..lo + i] + s[lo + i..lo + length];
  }

  /**
   * The partition loop of util_basic_quick_sort: i walks up while l[i] is
   * below the pivot (but not past the pivot index), j walks down while the
   * pivot is below l[j], and the two trade places until they meet. The
   * returned i is where the range is split for the recursive calls.
   */
  method Partition(a: array<Value>, lo: nat, length: nat, numLess: (Value, Value) -> bool,
                   callLess: (Value, Value) -> Value) returns (i: nat)
    requires lo + length <= a.Length && length >= 2
    modifies a
    ensures 1 <= i < length
    ensures Permuted(a, lo, length)
  {
    var p := length / 2;
    var pivot := a[lo + p];
    var j: int := length - 1;
    i := 0;
    while true
      invariant 0 <= i < length && 0 <= j < length && i <= j + 1
      invariant i >= 1 || j >= p
      invariant Permuted(a, lo, length)
      decreases j - i + 1
    {
      ghost var d := j - i;
      while i < p && Compare(numLess, callLess, a[lo + i], pivot)
        invariant 0 <= i < length && j - i <= d
        invariant i >= 1 || j >= p
        decreases p - i
      {
        i := i + 1;
      }
      while j > p && Compare(numLess, callLess, pivot, a[lo + j])
        invariant 0 <= j < length && j - i <= d
        invariant i >= 1 || j >= p
        decreases j - p
      {
        j := j - 1;
      }
      if i >= j {
        break;
      }
      Swap(a, lo, length, i, j);
      i, j := i + 1, j - 1;
    }
  }

  /**
   * util_basic_quick_sort over l = a[lo..lo + length]: ranges shorter than
   * two are left alone, and otherwise the array changes only by swaps, so
   * the range ends a permutation of what it was.
   */
  method BasicQuickSort(a: array<Value>, lo: nat, length: nat, numLess: (Value, Value) -> bool,
                        callLess: (Value, Value) -> Value)
    requires lo + length <= a.Length
    modifies a
    ensures Permuted(a, lo, length)
    ensures length < 2 ==> a[..] == old(a[..])
    decreases length
  {
    if length < 2 {
      return;
    }
    ghost var s0 := a[..];
    var i := Partition(a, lo, length, numLess, callLess);
    ghost var s1 := a[..];
    BasicQuickSort(a, lo, i, numLess, callLess);
    ghost var s2 := a[..];
    BasicQuickSort(a, lo + i, length - i, numLess, callLess);
    Combine(s0, s1, s2, a[..], lo, i, length);
  }

  /**
   * The comparator of util_custom_quick_sort: a call of the script's
   * function on two values, which either returns a value (LITRESULT_OK)
   * or fails (None).
   */
  type Comparator = (Value, Value) -> Option<Value>

  /** Every comparator call fails. */
  ghost predicate AlwaysFails(cmp: Comparator)
  {
    forall x, y :: cmp(x, y).None?
  }

  lemma Succeeds(cmp: Comparator, x: Value, y: Value)
    requires cmp(x, y).Some?
    ensures !AlwaysFails(cmp)
  {
  }

  /**
   * The partition loop of util_custom_quick_sort: as in the basic sort,
   * but a failing comparator call ends the sort of this range at once
   * (ok is false).
   */
  method CustomPartition(a: array<Value>, lo: nat, length: nat, cmp: Comparator) returns (i: nat, ok: bool)
    requires lo + length <= a.Length && length >= 2
    modifies a
    ensures ok ==> 1 <= i < length
    ensures Permuted(a, lo, length)
    ensures AlwaysFails(cmp) ==> !ok && a[..] == old(a[..])
  {
    var p := length / 2;
    var pivot := a[lo + p];
    var j: int := length - 1;
    i := 0;
    while true
      invariant 0 <= i < length && 0 <= j < length && i <= j + 1
      invariant i >= 1 || j >= p
      invariant Permuted(a, lo, length)
      invariant AlwaysFails(cmp) ==> i == 0 && a[..] == old(a[..])
      decreases j - i + 1
    {
      ghost var d := j - i;
      while i < p
        invariant 0 <= i < length && j - i <= d
        invariant i >= 1 || j >= p
        invariant AlwaysFails(cmp) ==> i == 0 && a[..] == old(a[..])
        invariant Permuted(a, lo, length)
        decreases p - i
      {
        var rt := cmp(a[lo + i], pivot);
        if rt.None? {
          return i, false;
        }
        Succeeds(cmp, a[lo + i], pivot);
        if IsFalsey(rt.value) {
          break;
        }
        i := i + 1;
      }
      assert p >= 1;
      assert !AlwaysFails(cmp);
      while j > p
        invariant 0 <= j < length && j - i <= d
        invariant i >= 1 || j >= p
        invariant Permuted(a, lo, length)
        decreases j - p
      {
        var rt := cmp(pivot, a[lo + j]);
        if rt.None? {
          return i, false;
        }
        if IsFalsey(rt.value) {
          break;
        }
        j := j - 1;
      }
      if i >= j {
        break;
      }
      Swap(a, lo, length, i, j);
      i, j := i + 1, j - 1;
    }
    ok := true;
  }

  /**
   * util_custom_quick_sort over l = a[lo..lo + length]: swap-only, so the
   * range ends a permutation of what it was; ranges shorter than two are
   * left alone; and a failing comparator call returns at once, so a
   * comparator that always fails leaves the array as it was.
   */
  method CustomQuickSort(a: array<Value>, lo: nat, length: nat, cmp: Comparator)
    requires lo + length <= a.Length
    modifies a
    ensures Permuted(a, lo, length)
    ensures length < 2 ==> a[..] == old(a[..])
    ensures AlwaysFails(cmp) ==> a[..] == old(a[..])
    decreases length
  {
    if length < 2 {
      return;
    }
    ghost var s0 := a[..];
    var i, ok := CustomPartition(a, lo, length, cmp);
    if !ok {
      return;
    }
    ghost var s1 := a[..];
    CustomQuickSort(a, lo, i, cmp);
    ghost var s2 := a[..];
    CustomQuickSort(a, lo + i, length - i, cmp);
    Combine(s0, s1, s2, a[..], lo, i, length);
  }

  // ---------------------------------------------------------------------
  // Running a fiber

  /** util_is_fiber_done: no frame left, or aborted. */
  predicate IsFiberDone(fiber: Fiber)
    reads fiber
    ensures !IsFiberDone(fiber) ==> fiber.frameCount > 0
  {
    fiber.frameCount == 0 || fiber.abort
  }

  /** The first to argument slots: the arguments passed, then nulls. */
  function Padded(argv: seq<Value>, to: nat): (r: seq<Value>)
    ensures |r| == to
  {
    seq(to, i requires 0 <= i < to => if i < |argv| then argv[i] else NULL_VALUE)
  }

  /** The slots util_run_fiber pushes for the arguments are the ones a call leaves (Vm.Arguments). */
  lemma PaddedArguments(argv: seq<Value>, arity: nat, vararg: bool, arrayValue: Value)
    requires vararg ==> arity >= 1
    ensures Padded(argv, arity - (if vararg then 1 else 0)) + (if vararg then [arrayValue] else [])
         == Vm.Arguments(argv, arity, vararg, arrayValue)
  {
    var to := arity - (if vararg then 1 else 0);
    var r := Vm.Arguments(argv, arity, vararg, arrayValue);
    Vm.ArgumentsMeaning(argv, arity, vararg, arrayValue);
    assert Padded(argv, to) == r[..to];
    assert r == r[..to] + (if vararg then [arrayValue] else []);
  }

  /**
   * What util_run_fiber does to a fiber whose top frame has not started:
   * lit_ensure_fiber_stack for max_slots + 1 slots above the live ones,
   * the top frame's slots at the old top, and above it the function, the
   * argument slots and, when vararg, the array.
   */
  ghost function Started(v: Vm.FiberView, funcValue: Value, arity: nat, vararg: bool, maxSlots: nat, argv: seq<Value>,
                         newBase: int, arrayValue: Value): Vm.FiberView
    requires 0 < v.frameCount <= |v.frames| && (vararg ==> arity >= 1)
  {
    WithCall(Slotted(Vm.Stacked(v, maxSlots + 1 + |v.live|, newBase)), funcValue, arity, vararg, argv, arrayValue)
  }

  /** The top frame's slots at stack_top. */
  ghost function Slotted(v: Vm.FiberView): Vm.FiberView
    requires 0 < v.frameCount <= |v.frames|
  {
    v.(frames := v.frames[v.frameCount - 1 := v.frames[v.frameCount - 1].(slots := v.base + |v.live|)])
  }

  /** The function, then its argument slots, pushed. */
  ghost function WithCall(v: Vm.FiberView, funcValue: Value, arity: nat, vararg: bool, argv: seq<Value>, arrayValue: Value): Vm.FiberView
    requires vararg ==> arity >= 1
  {
    v.(live := v.live + [funcValue] + Vm.Arguments(argv, arity, vararg, arrayValue))
  }

  /**
   * A fresh start leaves room for the whole frame, points the top frame's
   * slots at the function, which sits at the old top with exactly arity
   * argument slots above it, and moves the frames below with the stack.
   */
  lemma StartedMeaning(v: Vm.FiberView, funcValue: Value, arity: nat, vararg: bool, maxSlots: nat, argv: seq<Value>,
                       newBase: int, arrayValue: Value)
    requires 0 < v.frameCount <= |v.frames| && (vararg ==> arity >= 1) && arity <= maxSlots
    ensures var r := Started(v, funcValue, arity, vararg, maxSlots, argv, newBase, arrayValue);
      var slot := r.frames[v.frameCount - 1].slots - r.base;
      |r.live| <= r.capacity && r.frameCount == v.frameCount &&
      slot == |v.live| && r.live[..slot] == v.live && r.live[slot] == funcValue &&
      |r.live| == slot + 1 + arity &&
      (forall i :: 0 <= i < v.frameCount - 1 ==> r.frames[i] == Object.MovedFrame(v.frames[i], r.base - v.base))
  {
    var needed := maxSlots + 1 + |v.live|;
    var s := Vm.Stacked(v, needed, newBase);
    if v.capacity < needed {
      assert forall i :: 0 <= i < v.frameCount - 1 ==> s.frames[i] == Object.MovedFrame(v.frames[i], s.base - v.base);
    } else {
      Object.MovedFramesNone(v.frames);
    }
    var r := Started(v, funcValue, arity, vararg, maxSlots, argv, newBase, arrayValue);
    assert r.live[..|v.live|] == v.live;
  }

  /**
   * util_run_fiber: a finished fiber is an error. Otherwise the fiber is
   * resumed from the running one (its parent) with the given catcher flag
   * and becomes the VM's fiber; when its top frame has not started, its
   * stack is prepared as Started says and its arg_count becomes the
   * function's arity. newBase is where the allocator would put a grown
   * stack and arrayAddr the vararg array's address.
   */
  method RunFiber(vm: VM, fiber: Fiber, argv: seq<Value>, catcher: bool, newBase: int, arrayAddr: Ptr)
      returns (r: Result<LibArray.ValueList?, string>)
    requires fiber.Valid() && Descending(Locs(fiber.openUpvalues))
    requires fiber.frameCount > 0 ==> var f := fiber.frames[fiber.frameCount - 1].func;
      f != null && f.argCount <= f.maxSlots && (f.vararg ==> f.argCount >= 1)
    modifies vm, fiber, fiber.stack, fiber.frames, fiber.openUpvalues
    ensures old(IsFiberDone(fiber)) <==> r.Failure?
    ensures r.Failure? ==> r.error == "Fiber already finished executing" && unchanged(vm, fiber)
    ensures r.Success? ==> (fiber.Valid() && vm.fiber == fiber && fiber.parent == old(vm.fiber) &&
                            fiber.catcher == catcher)
    ensures r.Success? && old(fiber.frames[fiber.frameCount - 1].ip) != 0 ==> (r.value == null &&
      unchanged(fiber`stack, fiber`stackBase, fiber`stackTop, fiber`frames, fiber`frameCount, fiber`argCount) &&
      unchanged(fiber.frames))
    ensures r.Success? && old(fiber.frames[fiber.frameCount - 1].ip) == 0 ==>
      var f := old(fiber.frames[fiber.frameCount - 1].func);
      var arity, vararg := old(f.argCount), old(f.vararg);
      Vm.View(fiber) == Started(old(Vm.View(fiber)), ObjectValue(f.addr), arity, vararg, old(f.maxSlots), argv,
                                newBase, ObjectValue(arrayAddr)) &&
      fiber.argCount == arity && (r.value != null) == vararg &&
      (r.value != null ==> (fresh(r.value) && r.value.Valid() && r.value.Elements() == Vm.Packed(argv, arity, vararg)))
  {
    if IsFiberDone(fiber) {
      return Failure("Fiber already finished executing");
    }
    Resume(vm, fiber, catcher);
    var packed := Begin(fiber, argv, newBase, arrayAddr);
    return Success(packed);
  }

  /** The fresh-frame test of util_run_fiber: only a top frame at its first instruction is set up. */
  method Begin(fiber: Fiber, argv: seq<Value>, newBase: int, arrayAddr: Ptr) returns (packed: LibArray.ValueList?)
    requires fiber.Valid() && Descending(Locs(fiber.openUpvalues)) && fiber.frameCount > 0
    requires var f := fiber.frames[fiber.frameCount - 1].func;
      f != null && f.argCount <= f.maxSlots && (f.vararg ==> f.argCount >= 1)
    modifies fiber`stack, fiber`stackBase, fiber`stackTop, fiber`argCount, fiber.stack, fiber.frames, fiber.openUpvalues
    ensures fiber.Valid()
    ensures old(fiber.frames[fiber.frameCount - 1].ip) != 0 ==> (packed == null &&
      unchanged(fiber`stack, fiber`stackBase, fiber`stackTop, fiber`frames, fiber`frameCount, fiber`argCount) &&
      unchanged(fiber.frames))
    ensures old(fiber.frames[fiber.frameCount - 1].ip) == 0 ==>
      var f := old(fiber.frames[fiber.frameCount - 1].func);
      var arity, vararg := old(f.argCount), old(f.vararg);
      Vm.View(fiber) == Started(old(Vm.View(fiber)), ObjectValue(f.addr), arity, vararg, old(f.maxSlots), argv,
                                newBase, ObjectValue(arrayAddr)) &&
      fiber.argCount == arity && (packed != null) == vararg &&
      (packed != null ==> (fresh(packed) && packed.Valid() && packed.Elements() == Vm.Packed(argv, arity, vararg)))
  {
    packed := null;
    var frame := fiber.frames[fiber.frameCount - 1];
    if frame.ip == 0 {
      var func := frame.func;
      packed := StartFrame(fiber, ObjectValue(func.addr), func.argCount, func.vararg, func.maxSlots, argv, newBase,
                           ObjectValue(arrayAddr));
    }
  }

  /** The fiber resumes from the running one and becomes the VM's fiber. */
  method Resume(vm: VM, fiber: Fiber, catcher: bool)
    modifies vm`fiber, fiber`parent, fiber`catcher
    ensures fiber.parent == old(vm.fiber) && fiber.catcher == catcher && vm.fiber == fiber
  {
    fiber.parent := vm.fiber;
    fiber.catcher := catcher;
    vm.fiber := fiber;
  }

  /** The fresh-frame branch of util_run_fiber. */
  method StartFrame(fiber: Fiber, funcValue: Value, arity: nat, vararg: bool, maxSlots: nat, argv: seq<Value>, newBase: int,
                    arrayValue: Value) returns (packed: LibArray.ValueList?)
    requires fiber.Valid() && Descending(Locs(fiber.openUpvalues)) && fiber.frameCount > 0
    requires arity <= maxSlots && (vararg ==> arity >= 1)
    modifies fiber`stack, fiber`stackBase, fiber`stackTop, fiber`argCount, fiber.stack, fiber.frames, fiber.openUpvalues
    ensures fiber.Valid()
    ensures Vm.View(fiber) == Started(old(Vm.View(fiber)), funcValue, arity, vararg, maxSlots, argv, newBase, arrayValue)
    ensures fiber.argCount == arity && fiber.frames == old(fiber.frames)
    ensures fiber.openUpvalues == old(fiber.openUpvalues)
    ensures (packed != null) == vararg
    ensures packed != null ==> (fresh(packed) && packed.Valid() && packed.Elements() == Vm.Packed(argv, arity, vararg))
  {
    ghost var v := Vm.View(fiber);
    FrameRoom(fiber, arity, maxSlots, newBase);
    ghost var room := Vm.View(fiber);
    assert room == Slotted(Vm.Stacked(v, maxSlots + 1 + |v.live|, newBase));
    packed := PushCall(fiber, funcValue, arity, vararg, argv, arrayValue);
    assert Vm.View(fiber) == WithCall(room, funcValue, arity, vararg, argv, arrayValue);
  }

  /**
   * lit_ensure_fiber_stack for the function's slots, itself and the live
   * values, then the top frame's slots at the stack top.
   */
  method FrameRoom(fiber: Fiber, arity: nat, maxSlots: nat, newBase: int)
    requires fiber.Valid() && Descending(Locs(fiber.openUpvalues)) && fiber.frameCount > 0
    modifies fiber`stack, fiber`stackBase, fiber`stackTop, fiber`argCount, fiber.frames, fiber.openUpvalues
    ensures fiber.Valid() && fiber.argCount == arity
    ensures Vm.View(fiber) == Slotted(Vm.Stacked(old(Vm.View(fiber)), maxSlots + 1 + |old(Vm.View(fiber)).live|, newBase))
    ensures fiber.frameCount == old(fiber.frameCount) && fiber.Top() == old(fiber.Top())
    ensures fiber.stack.Length >= maxSlots + 1 + fiber.Top()
    ensures fiber.openUpvalues == old(fiber.openUpvalues) && fiber.frames == old(fiber.frames)
    ensures fiber.stack == old(fiber.stack) || fresh(fiber.stack)
  {
    Vm.StackRoom(fiber, maxSlots + 1 + fiber.Top(), newBase);
    SetSlots(fiber, arity);
  }

  /**
   * frame->slots = fiber->stack_top, for the top frame, and arg_count the
   * function's arity (util_run_fiber first stores argc there and then
   * overwrites it; only the arity is seen).
   */
  method SetSlots(fiber: Fiber, arity: nat)
    requires fiber.Valid() && fiber.frameCount > 0
    modifies fiber.frames, fiber`argCount
    ensures fiber.Valid() && fiber.argCount == arity
    ensures Vm.View(fiber) == Slotted(old(Vm.View(fiber)))
  {
    fiber.argCount := arity;
    var top := fiber.frames[fiber.frameCount - 1];
    fiber.frames[fiber.frameCount - 1] := top.(slots := fiber.stackTop);
  }

  /** The pushes of util_run_fiber: the function, the argument slots and, when vararg, the array. */
  method PushCall(fiber: Fiber, funcValue: Value, arity: nat, vararg: bool, argv: seq<Value>, arrayValue: Value)
      returns (packed: LibArray.ValueList?)
    requires fiber.Valid() && fiber.Top() + 1 + arity <= fiber.stack.Length && (vararg ==> arity >= 1)
    modifies fiber`stackTop, fiber.stack
    ensures fiber.Valid()
    ensures Vm.View(fiber) == WithCall(old(Vm.View(fiber)), funcValue, arity, vararg, argv, arrayValue)
    ensures (packed != null) == vararg
    ensures packed != null ==> (fresh(packed) && packed.Valid() && packed.Elements() == Vm.Packed(argv, arity, vararg))
  {
    ghost var v := Vm.View(fiber);
    Vm.Push(fiber, funcValue);
    var to := arity - (if vararg then 1 else 0);
    PushPadded(fiber, argv, to);
    packed := null;
    if vararg {
      packed := VarargArray(argv, arity);
      Vm.Push(fiber, arrayValue);
    }
    PaddedArguments(argv, arity, vararg, arrayValue);
    assert Vm.View(fiber) == v.(live := fiber.Live());
  }

  /** The argument loop of util_run_fiber: argv[i] for the first to slots, null past argc. */
  method PushPadded(fiber: Fiber, argv: seq<Value>, to: nat)
    requires fiber.Valid() && fiber.Top() + to <= fiber.stack.Length
    modifies fiber`stackTop, fiber.stack
    ensures fiber.Valid() && fiber.Live() == old(fiber.Live()) + Padded(argv, to)
  {
    var i := 0;
    while i < to
      invariant i <= to && fiber.Valid() && fiber.Top() == old(fiber.Top()) + i
      invariant fiber.Live() == old(fiber.Live()) + Padded(argv, to)[..i]
    {
      Vm.Push(fiber, if i < |argv| then argv[i] else NULL_VALUE);
      assert Padded(argv, to)[..i + 1] == Padded(argv, to)[..i] + [Padded(argv, to)[i]];
      i := i + 1;
    }
  }

  /**
   * The vararg array of util_run_fiber: a new array holding the
   * argc - arity + 1 arguments from the last parameter on, when there
   * are any.
   */
  method VarargArray(argv: seq<Value>, arity: nat) returns (array_: LibArray.ValueList)
    requires arity >= 1
    ensures fresh(array_) && fresh(array_.values) && array_.Valid()
    ensures array_.Elements() == Vm.Packed(argv, arity, true)
  {
    array_ := new LibArray.ValueList();
    if |argv| - arity + 1 > 0 {
      var count := |argv| - arity + 1;
      array_.EnsureSize(count);
      var i := 0;
      while i < count
        invariant i <= count && array_.Valid() && array_.count == count && fresh(array_.values)
        invariant array_.Elements() == argv[arity - 1..arity - 1 + i] + LibArray.Nulls(count - i)
      {
        var _ := array_.Set(i, argv[i + arity - 1]);
        assert argv[arity - 1..arity - 1 + i + 1] == argv[arity - 1..arity - 1 + i] + [argv[i + arity - 1]];
        i := i + 1;
      }
    }
  }
}
