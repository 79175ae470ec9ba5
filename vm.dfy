/**
 * The parts of the virtual machine in vm.c that are not the dispatch loop
 * itself: reading operands at the instruction pointer, the value stack of
 * the running fiber, the jump and short-circuit handlers, the sorted list
 * of open upvalues, the frame set-up of a call with its arity
 * adjustment, and the `is` test on the superclass chain.
 */
module Vm {
  import opened Lit
  import opened Wrappers
  import Emit
  import Bytes
  import LibArray
  import Object

  // ---------------------------------------------------------------------
  // Operands

  /**
   * The short lit_vmexec_readshort composes, high byte first; the bits
   * of the two bytes do not overlap, so the or is their sum.
   */
  function Short(hi: bv8, lo: bv8): (v: nat)
    ensures v <= Emit.UINT16_MAX
  {
    hi as nat * 256 + lo as nat
  }

  /** Reading back what emit_short wrote gives the short. */
  lemma ShortOfEmitted(v: nat)
    requires v <= Emit.UINT16_MAX
    ensures Short(Emit.High(v), Emit.Low(v)) == v
  {
    Emit.HighLow(v);
  }

  /**
   * A forward jump patched by patch_jump without error: the VM reads the
   * operand at offset, and ip, now just past it, moves on to the code
   * count at patch time.
   */
  lemma JumpLands(count: nat, offset: nat)
    requires offset + 2 <= count && Emit.JumpDistance(count, offset) <= Emit.UINT16_MAX
    ensures var d := Emit.JumpDistance(count, offset);
      offset + 2 + Short(Emit.High(d), Emit.Low(d)) == count
  {
    ShortOfEmitted(Emit.JumpDistance(count, offset));
  }

  /**
   * A loop emitted by emit_loop at code count `count` without error: the
   * operand is read at count + 1, and ip moves back from just past it to
   * start.
   */
  lemma LoopLands(count: nat, start: nat)
    requires start <= count + 1 && Emit.LoopDistance(count + 1, start) <= Emit.UINT16_MAX
    ensures var d := Emit.LoopDistance(count + 1, start) % 65536;
      count + 1 + 2 - Short(Emit.High(d), Emit.Low(d)) == start
  {
    ShortOfEmitted(Emit.LoopDistance(count + 1, start));
  }

  // ---------------------------------------------------------------------
  // The value stack

  /** lit_vmexec_push: the value goes at stack_top, which moves up. */
  method Push(fiber: Fiber, v: Value)
    requires fiber.Valid() && fiber.Top() < fiber.stack.Length
    modifies fiber`stackTop, fiber.stack
    ensures fiber.Valid() && fiber.stackTop == old(fiber.stackTop) + 1
    ensures fiber.Live() == old(fiber.Live()) + [v]
  {
    fiber.stack[fiber.stackTop - fiber.stackBase] := v;
    fiber.stackTop := fiber.stackTop + 1;
  }

  /** lit_vmexec_pop: stack_top moves down onto the last value, which is returned. */
  method Pop(fiber: Fiber) returns (v: Value)
    requires fiber.Valid() && fiber.Top() > 0
    modifies fiber`stackTop
    ensures fiber.Valid() && fiber.stackTop == old(fiber.stackTop) - 1
    ensures v == old(fiber.Live())[fiber.Top()] && fiber.Live() == old(fiber.Live())[..fiber.Top()]
  {
    fiber.stackTop := fiber.stackTop - 1;
    v := fiber.stack[fiber.stackTop - fiber.stackBase];
  }

  /** lit_vmexec_drop. */
  method Drop(fiber: Fiber)
    requires fiber.Valid() && fiber.Top() > 0
    modifies fiber`stackTop
    ensures fiber.Valid() && fiber.Live() == old(fiber.Live())[..old(fiber.Top()) - 1]
  {
    fiber.stackTop := fiber.stackTop - 1;
  }

  /** lit_vmexec_dropn. */
  method DropN(fiber: Fiber, amount: int)
    requires fiber.Valid() && 0 <= amount <= fiber.Top()
    modifies fiber`stackTop
    ensures fiber.Valid() && fiber.Live() == old(fiber.Live())[..old(fiber.Top()) - amount]
  {
    fiber.stackTop := fiber.stackTop - amount;
  }

  /**
   * lit_vmexec_peek: the slot distance + 1 below stack_top, which for a
   * distance from 0 is the value that far down from the top.
   */
  method Peek(fiber: Fiber, distance: int) returns (v: Value)
    requires fiber.Valid() && 0 <= fiber.Top() - 1 - distance < fiber.stack.Length
    ensures v == fiber.stack[fiber.Top() - 1 - distance]
    ensures 0 <= distance ==> v == fiber.Live()[|fiber.Live()| - 1 - distance]
  {
    v := fiber.stack[fiber.stackTop - fiber.stackBase - 1 - distance];
  }

  /** A push followed by a pop gives the value back and leaves the stack as it was. */
  method PushThenPop(fiber: Fiber, v: Value) returns (r: Value)
    requires fiber.Valid() && fiber.Top() < fiber.stack.Length
    modifies fiber`stackTop, fiber.stack
    ensures r == v && fiber.stackTop == old(fiber.stackTop) && fiber.Live() == old(fiber.Live())
  {
    Push(fiber, v);
    r := Pop(fiber);
  }

  // ---------------------------------------------------------------------
  // Jumps and short circuits

  /** The three short-circuit opcodes. */
  datatype Connective = And | Or | NullOr

  /**
   * Whether OP_AND, OP_OR or OP_NULL_OR jumps over the right operand,
   * keeping the left one on the stack, rather than popping it.
   */
  predicate Jumps(op: Connective, left: Value)
  {
    match op
    case And => IsFalsey(left)
    case Or => !IsFalsey(left)
    case NullOr => left != NULL_VALUE
  }

  /** The value the expression leaves: the left operand when it jumps, otherwise the right one. */
  function Outcome(op: Connective, left: Value, right: Value): Value
  {
    if Jumps(op, left) then left else right
  }

  /**
   * `and` is falsy when either side is, `or` when both are, and `??`
   * gives null only when both sides are null.
   */
  lemma ShortCircuit(left: Value, right: Value)
    ensures IsFalsey(Outcome(And, left, right)) <==> IsFalsey(left) || IsFalsey(right)
    ensures IsFalsey(Outcome(Or, left, right)) <==> IsFalsey(left) && IsFalsey(right)
    ensures Outcome(NullOr, left, right) == NULL_VALUE <==> left == NULL_VALUE && right == NULL_VALUE
    ensures left != NULL_VALUE ==> Outcome(NullOr, left, right) == left
  {
  }

  // ---------------------------------------------------------------------
  // Open upvalues

  /** How many entries from the head point above local: where captureupvalue stops. */
  function Above(ls: seq<Location>, local: int): (n: nat)
    requires Descending(ls)
    ensures n <= |ls|
  {
    if ls == [] || ls[0].address <= local then 0 else 1 + Above(ls[1..], local)
  }

  /** On a descending list, Above counts exactly the entries above local. */
  lemma {:induction false} AboveMeans(ls: seq<Location>, local: int)
    requires Descending(ls)
    ensures forall i :: 0 <= i < |ls| ==> ls[i].StackSlot? && (i < Above(ls, local) <==> ls[i].address > local)
  {
    DescendingOrdered(ls);
    if ls != [] && ls[0].address > local {
      AboveMeans(ls[1..], local);
      forall i | 1 <= i < |ls|
        ensures i < Above(ls, local) <==> ls[i].address > local
      {
        assert ls[1..][i - 1] == ls[i];
      }
    }
  }

  /** Whether local already has an open upvalue: the entry where the scan stops points at it. */
  predicate Captured(ls: seq<Location>, local: int)
    requires Descending(ls)
  {
    Above(ls, local) < |ls| && ls[Above(ls, local)] == StackSlot(local)
  }

  /** The locations after captureupvalue: unchanged when local is captured, otherwise local inserted where the scan stopped. */
  function Capture(ls: seq<Location>, local: int): seq<Location>
    requires Descending(ls)
  {
    if Captured(ls, local) then ls
    else var i := Above(ls, local); ls[..i] + [StackSlot(local)] + ls[i..]
  }

  /** captureupvalue keeps the list strictly decreasing. */
  lemma {:induction false} CaptureKeepsOrder(ls: seq<Location>, local: int)
    requires Descending(ls)
    ensures Descending(Capture(ls, local))
  {
    var i := Above(ls, local);
    AboveMeans(ls, local);
    DescendingOrdered(ls);
    var r := ls[..i] + [StackSlot(local)] + ls[i..];
    if !Captured(ls, local) {
      forall k | i <= k < |ls|
        ensures ls[k].address < local
      {
        assert ls[i].address > ls[k].address || k == i;
      }
      InsertKeepsPairwise(ls, i, StackSlot(local));
      DescendingOrdered(r);
    }
  }

  /** An entry placed below the ones above it and above the ones below it keeps every pair ordered. */
  lemma InsertKeepsPairwise(ls: seq<Location>, i: nat, x: Location)
    requires PairwiseDescending(ls) && i <= |ls| && x.StackSlot?
    requires forall k :: 0 <= k < i ==> ls[k].address > x.address
    requires forall k :: i <= k < |ls| ==> ls[k].address < x.address
    ensures PairwiseDescending(ls[..i] + [x] + ls[i..])
  {
    var r := ls[..i] + [x] + ls[i..];
    assert forall k :: 0 <= k < i ==> r[k] == ls[k];
    assert forall k :: i < k < |r| ==> r[k] == ls[k - 1];
  }

  /**
   * Afterwards the list points at local and at what it pointed at
   * before, and nothing else; local was captured exactly when the list
   * already pointed at it.
   */
  lemma {:induction false} CaptureContents(ls: seq<Location>, local: int)
    requires Descending(ls)
    ensures forall l :: l in Capture(ls, local) <==> l in ls || l == StackSlot(local)
    ensures Captured(ls, local) <==> StackSlot(local) in ls
  {
    AboveMeans(ls, local);
    DescendingOrdered(ls);
    var i := Above(ls, local);
    assert ls == ls[..i] + ls[i..];
  }

  /** How many entries from the head point at last or above: what closeupvalues closes. */
  function AtLeast(ls: seq<Location>, last: int): (n: nat)
    requires Descending(ls)
    ensures n <= |ls|
  {
    if ls == [] || ls[0].address < last then 0 else 1 + AtLeast(ls[1..], last)
  }

  /** On a descending list, AtLeast counts exactly the entries at last or above. */
  lemma {:induction false} AtLeastMeans(ls: seq<Location>, last: int)
    requires Descending(ls)
    ensures forall i :: 0 <= i < |ls| ==> ls[i].StackSlot? && (i < AtLeast(ls, last) <==> ls[i].address >= last)
  {
    DescendingOrdered(ls);
    if ls != [] && ls[0].address >= last {
      AtLeastMeans(ls[1..], last);
      forall i | 1 <= i < |ls|
        ensures i < AtLeast(ls, last) <==> ls[i].address >= last
      {
        assert ls[1..][i - 1] == ls[i];
      }
    }
  }

  /** The scan of captureupvalue: past every entry above local. */
  method ScanOpen(ups: seq<Upvalue>, local: int) returns (i: nat)
    requires Descending(Locs(ups))
    ensures i == Above(Locs(ups), local)
  {
    ghost var ls := Locs(ups);
    AboveMeans(ls, local);
    DescendingOrdered(ls);
    LocsAll(ups);
    i := 0;
    while i < |ups| && ups[i].location.address > local
      invariant i <= |ups| && i <= Above(ls, local)
    {
      i := i + 1;
    }
  }

  /**
   * lit_execvm_captureupvalue: the open upvalue of the slot at address
   * local, created and linked in at its sorted place when there is none.
   */
  method CaptureUpvalue(fiber: Fiber, local: int) returns (u: Upvalue)
    requires Descending(Locs(fiber.openUpvalues))
    modifies fiber`openUpvalues
    ensures Descending(Locs(fiber.openUpvalues))
    ensures Locs(fiber.openUpvalues) == Capture(old(Locs(fiber.openUpvalues)), local)
    ensures u in fiber.openUpvalues && u.location == StackSlot(local)
    ensures Captured(old(Locs(fiber.openUpvalues)), local) <==> !fresh(u)
    ensures Captured(old(Locs(fiber.openUpvalues)), local) ==> fiber.openUpvalues == old(fiber.openUpvalues)
    ensures !Captured(old(Locs(fiber.openUpvalues)), local) ==>
      (var i := old(Above(Locs(fiber.openUpvalues), local));
       u.closed == NULL_VALUE && fiber.openUpvalues == old(fiber.openUpvalues[..i]) + [u] + old(fiber.openUpvalues[i..]))
  {
    var ups := fiber.openUpvalues;
    ghost var ls := Locs(ups);
    DescendingOrdered(ls);
    var i := ScanOpen(ups, local);
    LocsAll(ups);
    if i < |ups| && ups[i].location.address == local {
      return ups[i];
    }
    u := new Upvalue(local);
    fiber.openUpvalues := ups[..i] + [u] + ups[i..];
    LocsSplice(ups, i, u);
    CaptureKeepsOrder(ls, local);
  }

  /** Linking u in at i puts its location there. */
  lemma LocsSplice(ups: seq<Upvalue>, i: nat, u: Upvalue)
    requires i <= |ups|
    ensures Locs(ups[..i] + [u] + ups[i..]) == Locs(ups)[..i] + [u.location] + Locs(ups)[i..]
  {
    LocsAppend(ups[..i] + [u], ups[i..]);
    LocsAppend(ups[..i], [u]);
    assert ups == ups[..i] + ups[i..];
    LocsAppend(ups[..i], ups[i..]);
  }

  /**
   * The value an upvalue stands for: its stack slot while it is open, its
   * own copy once closed. A slot outside the stack array reads as null.
   */
  function Get(fiber: Fiber, u: Upvalue): Value
    reads fiber`stack, fiber`stackBase, fiber.stack, u
  {
    match u.location
    case StackSlot(address) =>
      if 0 <= address - fiber.stackBase < fiber.stack.Length then fiber.stack[address - fiber.stackBase] else NULL_VALUE
    case OwnClosed => u.closed
  }

  /** Closing one upvalue: copy the slot's value into it and point it at its own copy. */
  method Close(fiber: Fiber, u: Upvalue)
    requires u.location.StackSlot? && 0 <= u.location.address - fiber.stackBase < fiber.stack.Length
    modifies u
    ensures u.closed == fiber.stack[old(u.location).address - fiber.stackBase] && u.location == OwnClosed
  {
    u.closed := fiber.stack[u.location.address - fiber.stackBase];
    u.location := OwnClosed;
  }

  /**
   * The state of closeupvalues after i rounds over the list ups, whose
   * locations were ls and closed values cl: the first i are closed with
   * their slot's value and unlinked, the rest are as they were.
   */
  ghost predicate Rounds(fiber: Fiber, ups: seq<Upvalue>, ls: seq<Location>, cl: seq<Value>, last: int, i: nat)
    reads fiber`openUpvalues, fiber`stack, fiber`stackBase, fiber.stack, set u | u in ups
  {
    |ls| == |ups| == |cl| && i <= |ups| && InStack(ls, fiber.stackBase, fiber.stack.Length) &&
    fiber.openUpvalues == ups[i..] &&
    (forall j :: 0 <= j < i ==>
      ls[j].address >= last && ups[j].location == OwnClosed &&
      ups[j].closed == fiber.stack[ls[j].address - fiber.stackBase]) &&
    (forall j :: i <= j < |ups| ==> ups[j].location == ls[j] && ups[j].closed == cl[j])
  }

  /** One round of closeupvalues: close the head ups[i], at last or above, and unlink it. */
  method CloseHead(fiber: Fiber, ups: seq<Upvalue>, ghost ls: seq<Location>, ghost cl: seq<Value>,
                   ghost pos: map<Upvalue, nat>, last: int, i: nat)
    requires Rounds(fiber, ups, ls, cl, last, i) && i < |ups| && ls[i].address >= last
    requires forall j :: 0 <= j < |ups| ==> ups[j] in pos && pos[ups[j]] == j
    modifies fiber`openUpvalues, ups[i]
    ensures Rounds(fiber, ups, ls, cl, last, i + 1)
  {
    Close(fiber, ups[i]);
    fiber.openUpvalues := ups[i + 1..];
  }

  /**
   * lit_vm_closeupvalues: closes, from the head, exactly the open
   * upvalues at last or above. Each takes the value of its slot; the rest
   * stay open, untouched, and all lie below last.
   */
  method CloseUpvalues(fiber: Fiber, last: int) returns (ghost ls: seq<Location>)
    requires Descending(Locs(fiber.openUpvalues))
    requires InStack(Locs(fiber.openUpvalues), fiber.stackBase, fiber.stack.Length)
    modifies fiber`openUpvalues, fiber.openUpvalues
    ensures ls == old(Locs(fiber.openUpvalues))
    ensures fiber.openUpvalues == old(fiber.openUpvalues)[AtLeast(ls, last)..]
    ensures Closed(fiber, old(fiber.openUpvalues), ls, AtLeast(ls, last))
    ensures var rest := Locs(fiber.openUpvalues);
      rest == ls[AtLeast(ls, last)..] && Descending(rest) &&
      forall i :: 0 <= i < |rest| ==> rest[i].StackSlot? && rest[i].address < last
  {
    var ups := fiber.openUpvalues;
    ghost var cl, pos;
    ls, cl, pos := StartRounds(fiber, ups, last);
    var i := 0;
    while i < |ups| && ups[i].location.address >= last
      invariant Rounds(fiber, ups, ls, cl, last, i)
    {
      CloseHead(fiber, ups, ls, cl, pos, last, i);
      i := i + 1;
    }
    AtLeastExit(ls, last, i);
    FinishRounds(fiber, ups, ls, cl, last, i);
  }

  /**
   * After closing the first n upvalues of ups, whose slots were ls: those n
   * own their value, and every upvalue, closed or still open, reads the
   * value of its own slot.
   */
  ghost predicate Closed(fiber: Fiber, ups: seq<Upvalue>, ls: seq<Location>, n: nat)
    reads fiber`stack, fiber`stackBase, fiber.stack, set u | u in ups
  {
    |ls| == |ups| && n <= |ups| && InStack(ls, fiber.stackBase, fiber.stack.Length) &&
    (forall j :: 0 <= j < n ==> ups[j].location == OwnClosed) &&
    (forall j :: 0 <= j < |ups| ==> Get(fiber, ups[j]) == fiber.stack[ls[j].address - fiber.stackBase])
  }

  /** After the last round, what is left open is still descending, lies below last, and every upvalue reads its slot. */
  lemma FinishRounds(fiber: Fiber, ups: seq<Upvalue>, ls: seq<Location>, cl: seq<Value>, last: int, i: nat)
    requires Rounds(fiber, ups, ls, cl, last, i) && Descending(ls) && i == AtLeast(ls, last)
    ensures Closed(fiber, ups, ls, i)
    ensures var rest := Locs(fiber.openUpvalues);
      rest == ls[i..] && Descending(rest) && forall j :: 0 <= j < |rest| ==> rest[j].StackSlot? && rest[j].address < last
  {
    RoundsClosed(fiber, ups, ls, cl, last, i);
    OpenSuffix(fiber.openUpvalues, ups, ls, i);
    RemainBelow(ls, last, i);
  }

  /** Rounds done so far have closed the first i upvalues, and each one reads its own slot. */
  lemma RoundsClosed(fiber: Fiber, ups: seq<Upvalue>, ls: seq<Location>, cl: seq<Value>, last: int, i: nat)
    requires Rounds(fiber, ups, ls, cl, last, i)
    ensures Closed(fiber, ups, ls, i)
  {
  }

  /**
   * Before the first round: the list's locations and closed values, and
   * the index of each of its upvalues, which are distinct.
   */
  lemma StartRounds(fiber: Fiber, ups: seq<Upvalue>, last: int)
    returns (ls: seq<Location>, cl: seq<Value>, pos: map<Upvalue, nat>)
    requires fiber.openUpvalues == ups && Descending(Locs(ups))
    requires InStack(Locs(ups), fiber.stackBase, fiber.stack.Length)
    ensures ls == Locs(ups) && Rounds(fiber, ups, ls, cl, last, 0)
    ensures forall j :: 0 <= j < |ups| ==> ups[j] in pos && pos[ups[j]] == j && cl[j] == ups[j].closed
  {
    ls := Locs(ups);
    LocsAll(ups);
    DistinctUpvalues(ups);
    pos := map j | 0 <= j < |ups| :: ups[j] := j;
    cl := seq(|ups|, j requires 0 <= j < |ups| reads ups => ups[j].closed);
  }

  /** What closeupvalues leaves open is still descending, and lies below last. */
  lemma {:induction false} RemainBelow(ls: seq<Location>, last: int, i: nat)
    requires Descending(ls) && i == AtLeast(ls, last)
    ensures Descending(ls[i..]) && forall j :: 0 <= j < |ls[i..]| ==> ls[i..][j].StackSlot? && ls[i..][j].address < last
  {
    AtLeastMeans(ls, last);
    DescendingOrdered(ls);
    DescendingOrdered(ls[i..]);
    assert forall j :: 0 <= j < |ls| - i ==> ls[i..][j] == ls[i + j];
  }

  /**
   * The loop of closeupvalues, over the distinct upvalues ups (pos gives
   * each one's index) whose locations are ls and closed values cl: while
   * the head is at last or above, close it and unlink it.
   */
  /** The loop stops at AtLeast: everything before i is at last or above, and i is the end or below last. */
  lemma {:induction false} AtLeastExit(ls: seq<Location>, last: int, i: nat)
    requires i <= |ls| && Descending(ls) && forall j :: 0 <= j < |ls| ==> ls[j].StackSlot?
    requires forall j :: 0 <= j < i ==> ls[j].address >= last
    requires i < |ls| ==> ls[i].address < last
    ensures AtLeast(ls, last) == i
  {
    if i > 0 {
      assert ls[1..][i - 1..] == ls[i..];
      AtLeastExit(ls[1..], last, i - 1);
    }
  }

  /** The upvalues left open are those of the suffix, at the same locations. */
  lemma {:induction false} OpenSuffix(rest: seq<Upvalue>, ups: seq<Upvalue>, ls: seq<Location>, i: nat)
    requires i <= |ups| == |ls| && rest == ups[i..]
    requires forall j :: i <= j < |ups| ==> ups[j].location == ls[j]
    ensures Locs(rest) == ls[i..]
  {
    LocsAll(rest);
  }

  /** LitExecState, for the instruction pointer into the running function's code. */
  class ExecState {
    const code: seq<bv8>
    var ip: nat

    constructor (code: seq<bv8>, ip: nat)
      ensures this.code == code && this.ip == ip
    {
      this.code := code;
      this.ip := ip;
    }

    /** lit_vmexec_readbyte. */
    method ReadByte() returns (b: bv8)
      requires ip < |code|
      modifies this`ip
      ensures b == code[old(ip)] && ip == old(ip) + 1
    {
      b := code[ip];
      ip := ip + 1;
    }

    /** lit_vmexec_readshort: two bytes, high first, and ip past them. */
    method ReadShort() returns (v: nat)
      requires ip + 2 <= |code|
      modifies this`ip
      ensures ip == old(ip) + 2 && v == Short(code[old(ip)], code[old(ip) + 1])
    {
      ip := ip + 2;
      v := Short(code[ip - 2], code[ip - 1]);
    }

    /** The operand at ip. */
    function Operand(): nat
      reads this`ip
      requires ip + 2 <= |code|
    {
      Short(code[ip], code[ip + 1])
    }

    /** OP_JUMP: forward by the operand, from just past it. */
    method Jump()
      requires ip + 2 <= |code|
      modifies this`ip
      ensures ip == old(ip) + 2 + old(Operand())
    {
      var offset := ReadShort();
      ip := ip + offset;
    }

    /** OP_JUMP_BACK: back by the operand, from just past it. */
    method JumpBack()
      requires ip + 2 <= |code| && Operand() <= ip + 2
      modifies this`ip
      ensures ip == old(ip) + 2 - old(Operand())
    {
      var offset := ReadShort();
      ip := ip - offset;
    }

    /** OP_JUMP_IF_FALSE: pops the condition and jumps when it is falsy. */
    method JumpIfFalse(fiber: Fiber)
      requires ip + 2 <= |code| && fiber.Valid() && fiber.Top() > 0
      modifies this`ip, fiber`stackTop
      ensures fiber.Valid()
      ensures var live := old(fiber.Live()); var top := live[|live| - 1];
        fiber.Live() == live[..|live| - 1] && ip == old(ip) + 2 + (if IsFalsey(top) then old(Operand()) else 0)
    {
      var offset := ReadShort();
      var v := Pop(fiber);
      if IsFalsey(v) {
        ip := ip + offset;
      }
    }

    /** OP_JUMP_IF_NULL: jumps when the top is null, which stays. */
    method JumpIfNull(fiber: Fiber)
      requires ip + 2 <= |code| && fiber.Valid() && fiber.Top() > 0
      modifies this`ip
      ensures var live := fiber.Live();
        ip == old(ip) + 2 + (if live[|live| - 1] == NULL_VALUE then old(Operand()) else 0)
    {
      var offset := ReadShort();
      var v := Peek(fiber, 0);
      if v == NULL_VALUE {
        ip := ip + offset;
      }
    }

    /** OP_JUMP_IF_NULL_POPPING: pops the top and jumps when it was null. */
    method JumpIfNullPopping(fiber: Fiber)
      requires ip + 2 <= |code| && fiber.Valid() && fiber.Top() > 0
      modifies this`ip, fiber`stackTop
      ensures fiber.Valid()
      ensures var live := old(fiber.Live()); var top := live[|live| - 1];
        fiber.Live() == live[..|live| - 1] && ip == old(ip) + 2 + (if top == NULL_VALUE then old(Operand()) else 0)
    {
      var offset := ReadShort();
      var v := Pop(fiber);
      if v == NULL_VALUE {
        ip := ip + offset;
      }
    }

    /**
     * OP_AND, OP_OR and OP_NULL_OR: past the operand, a jump keeps the
     * left operand as the result, and otherwise it is popped for the
     * right one.
     */
    method ShortCircuitJump(op: Connective, fiber: Fiber)
      requires ip + 2 <= |code| && fiber.Valid() && fiber.Top() > 0
      modifies this`ip, fiber`stackTop
      ensures fiber.Valid()
      ensures var live := old(fiber.Live()); var left := live[|live| - 1];
        if Jumps(op, left) then ip == old(ip) + 2 + old(Operand()) && fiber.Live() == live
        else ip == old(ip) + 2 && fiber.Live() == live[..|live| - 1]
    {
      var offset := ReadShort();
      var left := Peek(fiber, 0);
      if op.And? {
        if IsFalsey(left) {
          ip := ip + offset;
        } else {
          Drop(fiber);
        }
      } else if op.Or? {
        if IsFalsey(left) {
          Drop(fiber);
        } else {
          ip := ip + offset;
        }
      } else {
        if left == NULL_VALUE {
          Drop(fiber);
        } else {
          ip := ip + offset;
        }
      }
    }
  }

  // ---------------------------------------------------------------------
  // Calls

  /** The frame slots memrealloc adds when the frames array doubles (their contents are indeterminate). */
  const BLANK_FRAME := Frame(null, null, 0, 0, false, false)

  /**
   * The argument slots lit_vm_callcallable leaves above the callee for a
   * function of the given arity, from the argc arguments pushed by the
   * caller: the first arity (or arity - 1, when vararg) arguments stay,
   * missing ones are null, and a vararg function gets the array in its
   * last slot.
   */
  function Arguments(args: seq<Value>, arity: nat, vararg: bool, arrayValue: Value): (r: seq<Value>)
    requires vararg ==> arity >= 1
    ensures |r| == arity
  {
    if |args| < arity then
      args + LibArray.Nulls(arity - |args| - (if vararg then 1 else 0)) + (if vararg then [arrayValue] else [])
    else if vararg then args[..arity - 1] + [arrayValue]
    else args[..arity]
  }

  /**
   * Slot by slot: an argument the caller passed stays in its parameter's
   * slot, a parameter without one is null, and a vararg function's last
   * slot holds the array.
   */
  lemma ArgumentsMeaning(args: seq<Value>, arity: nat, vararg: bool, arrayValue: Value)
    requires vararg ==> arity >= 1
    ensures var r := Arguments(args, arity, vararg, arrayValue);
      (forall i :: 0 <= i < |args| && i < arity - (if vararg then 1 else 0) ==> r[i] == args[i]) &&
      (forall i :: |args| <= i < arity - (if vararg then 1 else 0) ==> r[i] == NULL_VALUE) &&
      (vararg ==> r[arity - 1] == arrayValue)
  {
  }

  /** The elements of the vararg array: every argument from the last parameter on. */
  function Packed(args: seq<Value>, arity: nat, vararg: bool): seq<Value>
    requires vararg ==> arity >= 1
  {
    if vararg && |args| >= arity then args[arity - 1..] else []
  }

  /**
   * Packing loses no argument: the fixed parameters followed by the array's
   * elements are the arguments the caller pushed.
   */
  lemma NothingLost(args: seq<Value>, arity: nat, arrayValue: Value)
    requires 1 <= arity <= |args|
    ensures Arguments(args, arity, true, arrayValue)[..arity - 1] + Packed(args, arity, true) == args
  {
    var r := Arguments(args, arity, true, arrayValue);
    assert r[..arity - 1] == args[..arity - 1];
    assert args[..arity - 1] + args[arity - 1..] == args;
  }

  /** A vararg function called with too few arguments gets an empty array. */
  lemma PaddedArrayEmpty(args: seq<Value>, arity: nat)
    requires |args| < arity
    ensures Packed(args, arity, true) == []
  {
  }

  /**
   * The frames array of lit_vm_callcallable: when it is full it is
   * reallocated at twice its capacity, keeping the frames it held.
   */
  method GrowFrames(fiber: Fiber)
    requires fiber.Valid() && fiber.frames.Length > 0
    modifies fiber`frames
    ensures fiber.Valid() && fiber.frameCount < fiber.frames.Length
    ensures if old(fiber.frameCount) + 1 > old(fiber.frames.Length)
      then fresh(fiber.frames) && fiber.frames.Length == 2 * old(fiber.frames.Length)
      else fiber.frames == old(fiber.frames)
    ensures fiber.frames[..] == if old(fiber.frameCount) + 1 > old(fiber.frames.Length)
      then old(fiber.frames[..]) + Blanks(old(fiber.frames.Length)) else old(fiber.frames[..])
    ensures View(fiber) == old(View(fiber)).(frames := RoomForFrame(old(View(fiber))))
  {
    if fiber.frameCount + 1 > fiber.frames.Length {
      var old_ := fiber.frames;
      fiber.frames := new Frame[2 * old_.Length](i reads old_ => if 0 <= i < old_.Length then old_[i] else BLANK_FRAME);
      assert fiber.frames[..] == old_[..] + Blanks(old_.Length);
    }
  }

  /** The new frame: the function, its closure, ip at the start of the code, slots at the callee. */
  method PushFrame(fiber: Fiber, func: Function, closure: Closure?, argc: nat)
    requires fiber.Valid() && fiber.frameCount < fiber.frames.Length
    modifies fiber`frameCount, fiber.frames
    ensures fiber.Valid() && fiber.frameCount == old(fiber.frameCount) + 1
    ensures fiber.frames[..] == old(fiber.frames[..])[old(fiber.frameCount) := Frame(func, closure, 0, fiber.stackTop - argc - 1, false, false)]
    ensures argc <= fiber.Top() ==> View(fiber) == Pushed(old(View(fiber)), func, closure, argc)
  {
    fiber.frames[fiber.frameCount] := Frame(func, closure, 0, fiber.stackTop - argc - 1, false, false);
    fiber.frameCount := fiber.frameCount + 1;
  }

  /**
   * Fewer arguments than parameters: nulls up to the last fixed parameter,
   * then, for a vararg function, a new empty array.
   */
  method PadArguments(fiber: Fiber, amount: nat, vararg: bool, arrayValue: Value) returns (packed: LibArray.ValueList?)
    requires fiber.Valid() && fiber.Top() + amount + (if vararg then 1 else 0) <= fiber.stack.Length
    modifies fiber`stackTop, fiber.stack
    ensures fiber.Valid()
    ensures fiber.Live() == old(fiber.Live()) + LibArray.Nulls(amount) + (if vararg then [arrayValue] else [])
    ensures (packed != null) == vararg
    ensures packed != null ==> fresh(packed) && packed.Valid() && packed.Elements() == []
  {
    var i := 0;
    while i < amount
      invariant i <= amount && fiber.Valid() && fiber.Top() == old(fiber.Top()) + i
      invariant fiber.Live() == old(fiber.Live()) + LibArray.Nulls(i)
    {
      Push(fiber, NULL_VALUE);
      assert LibArray.Nulls(i) + [NULL_VALUE] == LibArray.Nulls(i + 1);
      i := i + 1;
    }
    packed := null;
    if vararg {
      packed := new LibArray.ValueList();
      Push(fiber, arrayValue);
    }
  }

  /**
   * More arguments than fixed parameters for a vararg function: the last
   * count of them move into a new array, which takes their place.
   */
  method PackArguments(fiber: Fiber, count: nat, arrayValue: Value) returns (packed: LibArray.ValueList)
    requires fiber.Valid() && 1 <= count <= fiber.Top()
    modifies fiber`stackTop, fiber.stack
    ensures fiber.Valid()
    ensures var live := old(fiber.Live()); var k := |live| - count;
      fiber.Live() == live[..k] + [arrayValue] && fresh(packed) && packed.Valid() && packed.Elements() == live[k..]
  {
    ghost var live := fiber.Live();
    packed := CopyArguments(fiber, count);
    DropN(fiber, count);
    assert fiber.Live() == live[..|live| - count];
    Push(fiber, arrayValue);
  }

  /** The loop of the packing: a new list holding the last count values of the stack, in order. */
  method CopyArguments(fiber: Fiber, count: nat) returns (packed: LibArray.ValueList)
    requires fiber.Valid() && count <= fiber.Top()
    ensures fresh(packed) && fresh(packed.values) && packed.Valid()
    ensures packed.Elements() == fiber.Live()[fiber.Top() - count..]
  {
    packed := new LibArray.ValueList();
    packed.EnsureSize(count);
    ghost var live := fiber.Live();
    var k := fiber.stackTop - fiber.stackBase - count;
    var i := 0;
    while i < count
      invariant i <= count && packed.Valid() && packed.count == count && fresh(packed.values)
      invariant packed.values[..i] == live[k..k + i]
      modifies packed.values
    {
      var _ := packed.Set(i, fiber.stack[k + i]);
      i := i + 1;
    }
    assert k + count == |live|;
    assert live[k..k + count] == live[k..];
  }

  /** Exactly arity arguments for a vararg function: the last one is wrapped into a new array in place. */
  method WrapLast(fiber: Fiber, arrayValue: Value) returns (packed: LibArray.ValueList)
    requires fiber.Valid() && fiber.Top() >= 1
    modifies fiber`stackTop, fiber.stack
    ensures fiber.Valid() && fiber.stackTop == old(fiber.stackTop)
    ensures var live := old(fiber.Live()); var k := |live| - 1;
      fiber.Live() == live[..k] + [arrayValue] && fresh(packed) && packed.Valid() && packed.Elements() == [live[k]]
  {
    packed := new LibArray.ValueList();
    var last := Peek(fiber, 0);
    packed.Push(last);
    fiber.stack[fiber.stackTop - fiber.stackBase - 1] := arrayValue;
  }

  /**
   * The arity adjustment of lit_vm_callcallable, on the argc arguments at
   * the top of the stack: pad, pack, wrap or drop, so that exactly arity
   * argument slots remain.
   */
  method FixArguments(fiber: Fiber, arity: nat, vararg: bool, argc: nat, arrayValue: Value) returns (packed: LibArray.ValueList?)
    requires fiber.Valid() && argc <= fiber.Top() && (vararg ==> arity >= 1)
    requires fiber.Top() - argc + arity <= fiber.stack.Length
    modifies fiber`stackTop, fiber.stack
    ensures fiber.Valid()
    ensures var live := old(fiber.Live()); var k := |live| - argc;
      fiber.Live() == live[..k] + Arguments(live[k..], arity, vararg, arrayValue)
    ensures (packed != null) == vararg
    ensures var live := old(fiber.Live());
      packed != null ==> fresh(packed) && packed.Valid() && packed.Elements() == Packed(live[|live| - argc..], arity, vararg)
  {
    ghost var live := fiber.Live();
    ghost var args := live[|live| - argc..];
    ghost var target := live[..|live| - argc] + Arguments(args, arity, vararg, arrayValue);
    packed := null;
    if argc != arity {
      if argc < arity {
        PadShape(live, argc, arity, vararg, arrayValue);
        packed := PadArguments(fiber, arity - argc - (if vararg then 1 else 0), vararg, arrayValue);
        assert fiber.Live() == target;
        assert vararg ==> Packed(args, arity, vararg) == [];
      } else if vararg {
        PackShape(live, argc, arity, arrayValue);
        packed := PackArguments(fiber, argc - arity + 1, arrayValue);
        assert fiber.Live() == target && packed.Elements() == Packed(args, arity, vararg);
      } else {
        DropShape(live, argc, arity, arrayValue);
        DropN(fiber, argc - arity);
        assert fiber.Live() == target;
      }
    } else if vararg {
      PackShape(live, argc, arity, arrayValue);
      packed := WrapLast(fiber, arrayValue);
      assert fiber.Live() == target && packed.Elements() == Packed(args, arity, vararg);
    } else {
      assert Arguments(args, arity, vararg, arrayValue) == args;
      assert live[..|live| - argc] + args == live;
    }
  }

  /** Padding, on the whole stack: the arguments are followed by nulls and, when vararg, the array. */
  lemma PadShape(live: seq<Value>, argc: nat, arity: nat, vararg: bool, arrayValue: Value)
    requires argc <= |live| && argc < arity
    ensures var k := |live| - argc;
      live[..k] + Arguments(live[k..], arity, vararg, arrayValue) ==
      live + LibArray.Nulls(arity - argc - (if vararg then 1 else 0)) + (if vararg then [arrayValue] else [])
  {
    var k := |live| - argc;
    assert live[..k] + live[k..] == live;
  }

  /** Packing, on the whole stack: the last argc - arity + 1 values make way for the array and become its elements. */
  lemma PackShape(live: seq<Value>, argc: nat, arity: nat, arrayValue: Value)
    requires 1 <= arity <= argc <= |live|
    ensures var k := |live| - argc; var j := |live| - (argc - arity + 1);
      live[..k] + Arguments(live[k..], arity, true, arrayValue) == live[..j] + [arrayValue] &&
      Packed(live[k..], arity, true) == live[j..]
  {
    var k := |live| - argc;
    assert live[..k] + live[k..][..arity - 1] == live[..|live| - (argc - arity + 1)];
  }

  /** Dropping, on the whole stack: the arguments past the arity go. */
  lemma DropShape(live: seq<Value>, argc: nat, arity: nat, arrayValue: Value)
    requires arity <= argc <= |live|
    ensures var k := |live| - argc;
      live[..k] + Arguments(live[k..], arity, false, arrayValue) == live[..|live| - (argc - arity)]
  {
    var k := |live| - argc;
    assert live[..k] + live[k..][..arity] == live[..|live| - (argc - arity)];
  }

  // ---------------------------------------------------------------------
  // What a call changes, as values

  /**
   * The parts of a fiber lit_vm_callcallable changes: the frames array and
   * the frame count, where the stack lies and how large it is, its live
   * part, and where the open upvalues point.
   */
  datatype FiberView = FiberView(frames: seq<Frame>, frameCount: nat, base: int, capacity: nat,
                                 live: seq<Value>, locs: seq<Location>)

  ghost function View(fiber: Fiber): FiberView
    reads fiber`frames, fiber`frameCount, fiber`stack, fiber`stackBase, fiber`stackTop, fiber`openUpvalues
    reads fiber.frames, fiber.stack, set u | u in fiber.openUpvalues
    requires fiber.Valid()
  {
    FiberView(fiber.frames[..], fiber.frameCount, fiber.stackBase, fiber.stack.Length, fiber.Live(),
              Locs(fiber.openUpvalues))
  }

  function Blanks(n: nat): (r: seq<Frame>)
    ensures |r| == n
  {
    seq(n, _ => BLANK_FRAME)
  }

  /** The frames array once there is room for one more frame: doubled, with blank frames, when full. */
  function RoomForFrame(v: FiberView): seq<Frame>
  {
    if v.frameCount + 1 > |v.frames| then v.frames + Blanks(|v.frames|) else v.frames
  }

  /**
   * lit_ensure_fiber_stack on the view: nothing changes when the capacity
   * holds needed slots; otherwise the stack lies at newBase with the least
   * power of two at or above needed as its capacity, and the frames and
   * the open upvalues move with it.
   */
  ghost function Stacked(v: FiberView, needed: nat, newBase: int): (r: FiberView)
    ensures r.frameCount == v.frameCount && |r.frames| == |v.frames| && r.live == v.live
  {
    if v.capacity >= needed then v
    else
      var delta := newBase - v.base;
      v.(frames := Object.MovedFrames(v.frames, delta), base := newBase, capacity := Object.StackCapacity(needed),
         locs := Object.Shift(v.locs, delta))
  }

  /**
   * The first half of lit_vm_callcallable on the view: room for one more
   * frame, then lit_ensure_fiber_stack for maxSlots slots above the live
   * ones, which moves the stack to newBase when it grows.
   */
  ghost function Room(v: FiberView, maxSlots: nat, newBase: int): (r: FiberView)
    requires 0 < |v.frames| && v.frameCount <= |v.frames|
    ensures r.frameCount == v.frameCount < |r.frames| && r.live == v.live
  {
    Stacked(v.(frames := RoomForFrame(v)), maxSlots + |v.live|, newBase)
  }

  /** The second half on the view: the new frame at the callee, and the arguments adjusted to the arity. */
  ghost function Entered(v: FiberView, func: Function, closure: Closure?, argc: nat, arity: nat, vararg: bool,
                         arrayValue: Value): FiberView
    requires v.frameCount < |v.frames| && argc <= |v.live| && (vararg ==> arity >= 1)
  {
    Adjusted(Pushed(v, func, closure, argc), argc, arity, vararg, arrayValue)
  }

  /** The new frame on the view: func from its first instruction, slots at the callee argc + 1 below the top. */
  ghost function Pushed(v: FiberView, func: Function, closure: Closure?, argc: nat): (r: FiberView)
    requires v.frameCount < |v.frames| && argc <= |v.live|
    ensures r.live == v.live && r.base == v.base && |r.frames| == |v.frames|
  {
    v.(frames := v.frames[v.frameCount := Frame(func, closure, 0, v.base + |v.live| - argc - 1, false, false)],
       frameCount := v.frameCount + 1)
  }

  /** The arity adjustment on the view: the argc arguments on top become the arity slots Arguments lays out. */
  ghost function Adjusted(v: FiberView, argc: nat, arity: nat, vararg: bool, arrayValue: Value): (r: FiberView)
    requires argc <= |v.live| && (vararg ==> arity >= 1)
    ensures r.frames == v.frames && r.base == v.base
  {
    var k := |v.live| - argc;
    v.(live := v.live[..k] + Arguments(v.live[k..], arity, vararg, arrayValue))
  }

  /** lit_vm_callcallable on the view, for a function of the given arity, vararg flag and max_slots. */
  ghost function Called(v: FiberView, func: Function, closure: Closure?, argc: nat, arity: nat, vararg: bool,
                        maxSlots: nat, newBase: int, arrayValue: Value): FiberView
    requires 0 < |v.frames| && v.frameCount <= |v.frames| && argc <= |v.live| && (vararg ==> arity >= 1)
  {
    Entered(Room(v, maxSlots, newBase), func, closure, argc, arity, vararg, arrayValue)
  }

  /**
   * The frames after a call: one more of them; the array doubled exactly
   * when it was full; the frames already there moved with the stack; and
   * the new frame running func from its first instruction with slots at
   * the callee, argc + 1 below the old top.
   */
  lemma CalledFrames(v: FiberView, func: Function, closure: Closure?, argc: nat, arity: nat, vararg: bool,
                     maxSlots: nat, newBase: int, arrayValue: Value)
    requires 0 < |v.frames| && v.frameCount <= |v.frames| && argc < |v.live| && (vararg ==> arity >= 1)
    ensures var r := Called(v, func, closure, argc, arity, vararg, maxSlots, newBase, arrayValue);
      r.frameCount == v.frameCount + 1 &&
      |r.frames| == (if v.frameCount + 1 > |v.frames| then 2 * |v.frames| else |v.frames|) &&
      (forall i :: 0 <= i < v.frameCount ==> r.frames[i] == Object.MovedFrame(v.frames[i], r.base - v.base)) &&
      r.frames[v.frameCount] == Frame(func, closure, 0, r.base + |v.live| - argc - 1, false, false)
  {
    var m := Room(v, maxSlots, newBase);
    var frames := RoomForFrame(v);
    assert forall i :: 0 <= i < v.frameCount ==> frames[i] == v.frames[i];
    if v.capacity < maxSlots + |v.live| {
      assert forall i :: 0 <= i < v.frameCount ==> m.frames[i] == Object.MovedFrame(frames[i], m.base - v.base);
    }
  }

  /**
   * The stack after a call: it holds at least maxSlots slots above the old
   * top; it is untouched when it already did, and otherwise it lies at
   * newBase with the least power of two at or above that as its capacity.
   * The open upvalues move with it.
   */
  lemma CalledStack(v: FiberView, func: Function, closure: Closure?, argc: nat, arity: nat, vararg: bool,
                    maxSlots: nat, newBase: int, arrayValue: Value)
    requires 0 < |v.frames| && v.frameCount <= |v.frames| && argc <= |v.live| && (vararg ==> arity >= 1)
    ensures var r := Called(v, func, closure, argc, arity, vararg, maxSlots, newBase, arrayValue);
      var needed := maxSlots + |v.live|;
      needed <= r.capacity &&
      (if needed <= v.capacity then r.base == v.base && r.capacity == v.capacity
       else r.base == newBase && r.capacity == Object.StackCapacity(needed)) &&
      r.locs == Object.Shift(v.locs, r.base - v.base)
  {
    if maxSlots + |v.live| <= v.capacity {
      Object.ShiftNone(v.locs);
    }
  }

  /**
   * The live stack after a call: everything below the arguments is kept,
   * and exactly arity argument slots follow the callee, as Arguments
   * lays them out.
   */
  lemma CalledArguments(v: FiberView, func: Function, closure: Closure?, argc: nat, arity: nat, vararg: bool,
                        maxSlots: nat, newBase: int, arrayValue: Value)
    requires 0 < |v.frames| && v.frameCount <= |v.frames| && argc < |v.live| && (vararg ==> arity >= 1)
    ensures var r := Called(v, func, closure, argc, arity, vararg, maxSlots, newBase, arrayValue);
      var k := |v.live| - argc;
      r.live[..k] == v.live[..k] && r.live[k..] == Arguments(v.live[k..], arity, vararg, arrayValue) &&
      |r.live| == (r.frames[v.frameCount].slots - r.base) + 1 + arity
  {
    var m := Room(v, maxSlots, newBase);
    var p := Pushed(m, func, closure, argc);
    var r := Adjusted(p, argc, arity, vararg, arrayValue);
    var k := |v.live| - argc;
    var args := Arguments(v.live[k..], arity, vararg, arrayValue);
    assert Called(v, func, closure, argc, arity, vararg, maxSlots, newBase, arrayValue) == r;
    assert r.live == v.live[..k] + args;
    Halves(v.live[..k], args);
    assert r.frames[v.frameCount].slots == m.base + |v.live| - argc - 1;
  }

  /** The two parts of a concatenation, cut where the first ends. */
  lemma Halves<T>(a: seq<T>, b: seq<T>)
    ensures (a + b)[..|a|] == a && (a + b)[|a|..] == b
  {
  }

  // ---------------------------------------------------------------------
  // The call itself

  /**
   * The second half of lit_vm_callcallable: the new frame, whose slots start
   * at the callee, and the arity adjustment.
   */
  method Enter(fiber: Fiber, func: Function, closure: Closure?, argc: nat, arrayValue: Value)
      returns (packed: LibArray.ValueList?)
    requires fiber.Valid() && fiber.frameCount < fiber.frames.Length && argc + 1 <= fiber.Top()
    requires func.vararg ==> func.argCount >= 1
    requires fiber.Top() - argc + func.argCount <= fiber.stack.Length
    modifies fiber`frameCount, fiber.frames, fiber`stackTop, fiber.stack
    ensures fiber.Valid()
    ensures View(fiber) == Entered(old(View(fiber)), func, closure, argc, func.argCount, func.vararg, arrayValue)
    ensures (packed != null) == func.vararg
    ensures var live := old(fiber.Live());
      packed != null ==> (fresh(packed) && packed.Valid() &&
        packed.Elements() == Packed(live[|live| - argc..], func.argCount, func.vararg))
  {
    PushFrame(fiber, func, closure, argc);
    packed := AdjustArguments(fiber, func.argCount, func.vararg, argc, arrayValue);
  }

  /** The arity adjustment, stated on the view. */
  method AdjustArguments(fiber: Fiber, arity: nat, vararg: bool, argc: nat, arrayValue: Value)
      returns (packed: LibArray.ValueList?)
    requires fiber.Valid() && argc <= fiber.Top() && (vararg ==> arity >= 1)
    requires fiber.Top() - argc + arity <= fiber.stack.Length
    modifies fiber`stackTop, fiber.stack
    ensures fiber.Valid() && View(fiber) == Adjusted(old(View(fiber)), argc, arity, vararg, arrayValue)
    ensures (packed != null) == vararg
    ensures var live := old(fiber.Live());
      packed != null ==> (fresh(packed) && packed.Valid() &&
        packed.Elements() == Packed(live[|live| - argc..], arity, vararg))
  {
    ghost var v := View(fiber);
    packed := FixArguments(fiber, arity, vararg, argc, arrayValue);
    assert View(fiber) == v.(live := fiber.Live());
  }

  /**
   * The first half of lit_vm_callcallable: room for one more frame and for
   * maxSlots more stack slots than are in use.
   */
  method MakeRoom(fiber: Fiber, maxSlots: nat, newBase: int)
    requires fiber.Valid() && fiber.frames.Length > 0 && Descending(Locs(fiber.openUpvalues))
    modifies fiber`frames, fiber`stack, fiber`stackBase, fiber`stackTop, fiber.frames, fiber.openUpvalues
    ensures fiber.Valid() && View(fiber) == Room(old(View(fiber)), maxSlots, newBase)
    ensures fiber.openUpvalues == old(fiber.openUpvalues)
    ensures fiber.frames == old(fiber.frames) || fresh(fiber.frames)
    ensures fiber.stack == old(fiber.stack) || fresh(fiber.stack)
  {
    var needed := maxSlots + fiber.Top();
    GrowFrames(fiber);
    StackRoom(fiber, needed, newBase);
  }

  /** lit_ensure_fiber_stack, stated on the view. */
  method StackRoom(fiber: Fiber, needed: nat, newBase: int)
    requires fiber.Valid() && Descending(Locs(fiber.openUpvalues))
    modifies fiber`stack, fiber`stackBase, fiber`stackTop, fiber.frames, fiber.openUpvalues
    ensures fiber.Valid() && View(fiber) == Stacked(old(View(fiber)), needed, newBase)
    ensures fiber.openUpvalues == old(fiber.openUpvalues) && fiber.frames == old(fiber.frames)
    ensures fiber.stack == old(fiber.stack) || fresh(fiber.stack)
  {
    ghost var v := View(fiber);
    ghost var ls := Object.EnsureStack(fiber, needed, newBase);
    StackedIs(v, needed, newBase, View(fiber));
  }

  /** What lit_ensure_fiber_stack establishes, field by field, is Stacked. */
  lemma StackedIs(v: FiberView, needed: nat, newBase: int, w: FiberView)
    requires w.frameCount == v.frameCount && w.live == v.live
    requires w.frames == Object.MovedFrames(v.frames, w.base - v.base) && w.locs == Object.Shift(v.locs, w.base - v.base)
    requires if v.capacity >= needed then w.base == v.base && w.capacity == v.capacity
      else w.base == newBase && w.capacity == Object.StackCapacity(needed)
    ensures w == Stacked(v, needed, newBase)
  {
    if v.capacity >= needed {
      Object.MovedFramesNone(v.frames);
      Object.ShiftNone(v.locs);
    }
  }

  /**
   * lit_vm_callcallable: make room for one more frame (doubling the frames
   * array when it is full), make the stack hold max_slots more slots than
   * are in use (which may move it to newBase), push a frame whose slots
   * start at the callee, and adjust the arguments to the arity. arrayAddr
   * is the address lit_create_array gives a vararg array.
   */
  method CallCallable(fiber: Fiber, func: Function, closure: Closure?, argc: nat, newBase: int, arrayAddr: Ptr)
      returns (packed: LibArray.ValueList?)
    requires fiber.Valid() && fiber.frames.Length > 0 && Descending(Locs(fiber.openUpvalues))
    requires argc < 256 && argc + 1 <= fiber.Top()
    requires func.vararg ==> func.argCount >= 1
    requires func.argCount <= func.maxSlots
    modifies fiber`frames, fiber`frameCount, fiber`stack, fiber`stackBase, fiber`stackTop
    modifies fiber.frames, fiber.stack, fiber.openUpvalues
    ensures fiber.Valid()
    ensures View(fiber) == Called(old(View(fiber)), func, closure, argc, func.argCount, func.vararg, func.maxSlots,
                                  newBase, ObjectValue(arrayAddr))
    ensures fiber.openUpvalues == old(fiber.openUpvalues)
    ensures fiber.frames == old(fiber.frames) || fresh(fiber.frames)
    ensures fiber.stack == old(fiber.stack) || fresh(fiber.stack)
    ensures (packed != null) == func.vararg
    ensures var live := old(fiber.Live());
      packed != null ==> (fresh(packed) && packed.Valid() &&
        packed.Elements() == Packed(live[|live| - argc..], func.argCount, func.vararg))
  {
    MakeRoom(fiber, func.maxSlots, newBase);
    packed := Enter(fiber, func, closure, argc, ObjectValue(arrayAddr));
  }

  // ---------------------------------------------------------------------
  // OP_IS

  /** A class, as far as `is` looks at it: the superclass link. */
  class ClassObject {
    const addr: Ptr
    var super: ClassObject?

    constructor (addr: Ptr, super: ClassObject?)
      ensures this.addr == addr && this.super == super
    {
      this.addr := addr;
      this.super := super;
    }
  }

  /**
   * chain lists k, its superclass, that one's superclass and so on, up to
   * the class without one: the classes the super links reach from k. A
   * class gets its superclass in OP_INHERIT from a class that already
   * exists, so every class has such a finite chain.
   */
  ghost predicate Chain(k: ClassObject?, chain: seq<ClassObject>)
    reads set c | c in chain
    decreases |chain|
  {
    if k == null then chain == []
    else |chain| > 0 && chain[0] == k && Chain(k.super, chain[1..])
  }

  /** The chain of a class is fixed by the super links: there is only one. */
  lemma {:induction false} ChainUnique(k: ClassObject?, c1: seq<ClassObject>, c2: seq<ClassObject>)
    requires Chain(k, c1) && Chain(k, c2)
    ensures c1 == c2
    decreases |c1|
  {
    if k != null {
      ChainUnique(k.super, c1[1..], c2[1..]);
      assert c1 == [c1[0]] + c1[1..];
      assert c2 == [c2[0]] + c2[1..];
    }
  }

  /** Each class after the first in a chain is the superclass of the one before it. */
  lemma {:induction false} ChainLinks(k: ClassObject?, chain: seq<ClassObject>, i: nat)
    requires Chain(k, chain) && 0 < i < |chain|
    ensures chain[i] == chain[i - 1].super && chain[|chain| - 1].super == null
    decreases |chain|
  {
    if i > 1 {
      ChainLinks(k.super, chain[1..], i - 1);
    } else if |chain| > 2 {
      ChainLinks(k.super, chain[1..], 1);
    } else {
      assert Chain(chain[1].super, chain[2..]);
    }
  }

  /**
   * The walk of OP_IS up the superclass links from k: type is found
   * exactly when it is k or one of its ancestors.
   */
  method InheritsFrom(k: ClassObject?, type_: ClassObject, ghost chain: seq<ClassObject>) returns (found: bool)
    requires Chain(k, chain)
    ensures found <==> type_ in chain
  {
    var c := k;
    ghost var i := 0;
    found := false;
    while c != null
      invariant 0 <= i <= |chain| && Chain(c, chain[i..]) && type_ !in chain[..i]
      decreases |chain| - i
    {
      if c == type_ {
        found := true;
        return;
      }
      assert chain[..i + 1] == chain[..i] + [c];
      c := c.super;
      i := i + 1;
    }
    assert chain[..i] == chain;
  }

  const OPERANDS_ERROR := "operands must be an instance or a class"

  /**
   * OP_IS on the instance below the class at the top of the stack. A null
   * instance gives false. Otherwise instanceClass is the class
   * lit_state_getclassfor gives for the instance and klass the class the
   * top value is (null when it is none), and either being null is a
   * runtime error that leaves the stack alone; else both operands are
   * replaced by whether klass is on the instance's superclass chain.
   */
  method Is(fiber: Fiber, instanceClass: ClassObject?, klass: ClassObject?, ghost chain: seq<ClassObject>)
      returns (r: Result<bool, string>)
    requires fiber.Valid() && fiber.Top() >= 2 && Chain(instanceClass, chain)
    requires klass != null ==> fiber.Live()[fiber.Top() - 1] == ObjectValue(klass.addr)
    modifies fiber`stackTop, fiber.stack
    ensures fiber.Valid()
    ensures var live := old(fiber.Live());
      if IsNull(live[|live| - 2]) then r == Success(false)
      else if instanceClass == null || klass == null then r == Failure(OPERANDS_ERROR)
      else r == Success(klass in chain)
    ensures var live := old(fiber.Live());
      r.Success? ==> fiber.Live() == live[..|live| - 2] + [BoolValue(r.value)]
    ensures r.Failure? ==> fiber.Live() == old(fiber.Live())
  {
    var instance := Peek(fiber, 1);
    if IsNull(instance) {
      DropN(fiber, 2);
      Push(fiber, FALSE_VALUE);
      return Success(false);
    }
    if instanceClass == null || klass == null {
      return Failure(OPERANDS_ERROR);
    }
    var found := InheritsFrom(instanceClass, klass, chain);
    DropN(fiber, 2);
    Push(fiber, BoolValue(found));
    return Success(found);
  }
}
