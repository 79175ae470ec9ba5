/**
 * The growable value list of libarray.c (LitValueList, and LitDataList,
 * which is the same list of 64-bit words) and the array methods built on
 * it: indexOf, removeAt, insert, splice, subscript, iterator, pop and
 * clone.
 *
 * The backing buffer is an array whose length is the list's capacity.
 * Slots at or past count keep whatever they held: the buffer grows by
 * realloc, whose new slots are indeterminate, and pop and clear only move
 * count. Contracts therefore say nothing about those slots unless the
 * source writes them.
 *
 * Numeric arguments arrive as doubles and are converted to a C int; the
 * model takes the converted int (within the int range), and
 * `None` stands for an argument that is not a number.
 */
module LibArray {
  import opened Lit
  import opened Wrappers
  import Api

  const INT_MAX: int := 0x7fff_ffff
  const INT_MIN: int := -0x8000_0000

  predicate IsInt(x: int) { INT_MIN <= x <= INT_MAX }

  /** n null values. */
  function Nulls(n: nat): (r: seq<Value>)
    ensures |r| == n && forall i :: 0 <= i < n ==> r[i] == NULL_VALUE
  {
    seq(n, _ => NULL_VALUE)
  }

  // ---------------------------------------------------------------------
  // The list as a sequence: reference definitions of the operations

  /** The list after the element at i is removed. */
  function RemovedAt(s: seq<Value>, i: nat): (r: seq<Value>)
    requires i < |s|
    ensures |r| == |s| - 1
    ensures forall k :: 0 <= k < i ==> r[k] == s[k]
    ensures forall k :: i <= k < |r| ==> r[k] == s[k + 1]
  {
    s[..i] + s[i + 1..]
  }

  /**
   * The list after v is inserted at i: at i >= |s| the list is first
   * extended with nulls to length i.
   */
  function Inserted(s: seq<Value>, i: nat, v: Value): (r: seq<Value>)
    ensures |r| == if i < |s| then |s| + 1 else i + 1
    ensures r[i] == v
    ensures forall k :: 0 <= k < i && k < |s| ==> r[k] == s[k]
    ensures forall k :: |s| <= k < i ==> r[k] == NULL_VALUE
    ensures forall k :: i < k < |r| ==> r[k] == s[k - 1]
  {
    if i < |s| then s[..i] + [v] + s[i..] else s + Nulls(i - |s|) + [v]
  }

  /** The list after element i is set to v, extending it with nulls as needed. */
  function Assigned(s: seq<Value>, i: nat, v: Value): (r: seq<Value>)
    ensures |r| == if i < |s| then |s| else i + 1
    ensures r[i] == v
    ensures forall k :: 0 <= k < |r| && k != i ==> r[k] == if k < |s| then s[k] else NULL_VALUE
  {
    if i < |s| then s[i := v] else s + Nulls(i - |s|) + [v]
  }

  /** Removing what was just inserted gives back the list (extended with nulls when i was past its end). */
  lemma RemoveUndoesInsert(s: seq<Value>, i: nat, v: Value)
    ensures i < |Inserted(s, i, v)|
    ensures RemovedAt(Inserted(s, i, v), i) == if i <= |s| then s else s + Nulls(i - |s|)
  {
    var r := RemovedAt(Inserted(s, i, v), i);
    if i <= |s| {
      assert r == s;
    } else {
      assert r == s + Nulls(i - |s|);
    }
  }

  /** Inserting the removed element back where it was gives back the list. */
  lemma InsertUndoesRemove(s: seq<Value>, i: nat)
    requires i < |s|
    ensures Inserted(RemovedAt(s, i), i, s[i]) == s
  {
    var r := Inserted(RemovedAt(s, i), i, s[i]);
    if i < |s| - 1 {
      assert r == s;
    } else {
      assert r == s;
    }
  }

  /** The first index holding v, or -1. */
  function FirstIndex(s: seq<Value>, v: Value): (r: int)
    ensures -1 <= r < |s|
    ensures r == -1 <==> v !in s
    ensures r >= 0 ==> s[r] == v && v !in s[..r]
  {
    if s == [] then -1
    else if s[0] == v then 0
    else
      var r := FirstIndex(s[1..], v);
      assert s == [s[0]] + s[1..];
      if r == -1 then -1
      else
        assert s[..r + 1] == [s[0]] + s[1..][..r];
        r + 1
  }

  /** A value pushed onto a list that does not hold it is found at the end. */
  lemma FirstIndexOfPushed(s: seq<Value>, v: Value)
    requires v !in s
    ensures FirstIndex(s + [v], v) == |s|
  {
    assert (s + [v])[..|s|] == s;
  }

  // ---------------------------------------------------------------------
  // LitValueList

  class ValueList {
    /** The buffer; its length is the capacity. */
    var values: array<Value>
    var count: nat

    ghost predicate Valid()
      reads this
    {
      count <= values.Length
    }

    /** The elements: the first count slots. */
    function Elements(): seq<Value>
      reads this, values
      requires Valid()
    {
      values[..count]
    }

    /** lit_vallist_init and lit_datalist_init: no buffer, count and capacity zero. */
    constructor ()
      ensures Valid() && fresh(values) && values.Length == 0 && count == 0
    {
      values := new Value[0];
      count := 0;
    }

    /** lit_vallist_count, lit_vallist_size, lit_datalist_count and lit_datalist_size. */
    function Count(): (n: nat)
      reads this
      requires Valid()
      ensures n <= values.Length
    {
      count
    }

    /** lit_vallist_capacity and lit_datalist_capacity. */
    function Capacity(): (n: nat)
      reads this
      ensures n == values.Length
    {
      values.Length
    }

    /** lit_vallist_get: reads any slot of the buffer, even one past count. */
    function Get(idx: nat): (r: Value)
      reads this, values
      requires idx < values.Length
      ensures Valid() && idx < count ==> r == Elements()[idx]
    {
      values[idx]
    }

    /** lit_vallist_set: writes a slot of the buffer and returns the value. */
    method Set(idx: nat, val: Value) returns (r: Value)
      requires idx < values.Length
      modifies values
      ensures r == val && values[..] == old(values[..])[idx := val]
    {
      values[idx] := val;
      r := val;
    }

    /** lit_vallist_setcount. */
    method SetCount(nc: nat)
      requires nc <= values.Length
      modifies this`count
      ensures Valid() && count == nc
    {
      count := nc;
    }

    /** lit_vallist_clear and objfn_array_clear: only the count goes. */
    method Clear()
      requires Valid()
      modifies this`count
      ensures Valid() && Elements() == [] && count == 0
    {
      count := 0;
    }

    /** lit_vallist_destroy: the buffer is released and the list is empty again. */
    method Destroy()
      modifies this
      ensures Valid() && Elements() == [] && values.Length == 0
    {
      values := new Value[0];
      count := 0;
    }

    /** lit_vallist_deccount: the last element's slot keeps its value. */
    method DecCount()
      requires Valid() && count > 0
      modifies this`count
      ensures Valid() && count == old(count) - 1 && Elements() == old(Elements())[..count]
    {
      count := count - 1;
    }

    /**
     * LIT_GROW_ARRAY: a buffer of the new capacity whose first old-capacity
     * slots are the old ones (the rest are indeterminate).
     */
    method Grow(newCapacity: nat)
      requires Valid() && values.Length <= newCapacity
      modifies this`values
      ensures Valid() && fresh(values) && values.Length == newCapacity && count == old(count)
      ensures values[..old(values.Length)] == old(values[..])
    {
      var grown := new Value[newCapacity];
      var i := 0;
      while i < values.Length
        invariant i <= values.Length && grown[..i] == values[..i]
        modifies grown
      {
        grown[i] := values[i];
        i := i + 1;
      }
      values := grown;
    }

    /**
     * lit_vallist_push and lit_datalist_push: the value goes after the last
     * element, growing the capacity 0, 8, 16, 32, ... when it is full.
     */
    method Push(value: Value)
      requires Valid()
      modifies this, values
      ensures Valid() && Elements() == old(Elements()) + [value]
      ensures values.Length == if old(values.Length) < old(count) + 1 then GrowCapacity(old(values.Length)) else old(values.Length)
      ensures values == old(values) || fresh(values)
    {
      if values.Length < count + 1 {
        Grow(GrowCapacity(values.Length));
      }
      ghost var before := values[..count];
      values[count] := value;
      assert values[..count] == before;
      count := count + 1;
      assert values[..count] == before + [value];
    }

    /**
     * lit_vallist_ensuresize as written: when the capacity is below size it
     * becomes size and the newly allocated slots are set to null; count
     * becomes at least size. Slots between the old count and the old
     * capacity are not cleared, so they join the list with stale values.
     */
    method EnsureSizeAsWritten(size: nat)
      requires Valid()
      modifies this, values
      ensures Valid() && values.Length == if old(values.Length) < size then size else old(values.Length)
      ensures count == if old(count) < size then size else old(count)
      ensures forall k :: 0 <= k < old(values.Length) ==> values[k] == old(values[k])
      ensures forall k :: old(values.Length) <= k < values.Length ==> values[k] == NULL_VALUE
      ensures values == old(values) || fresh(values)
    {
      if values.Length < size {
        var oldCapacity := values.Length;
        Grow(size);
        var a := values;
        var i := oldCapacity;
        while i < size
          invariant oldCapacity <= i <= size && a.Length == size
          invariant forall k :: 0 <= k < oldCapacity ==> a[k] == old(values[k])
          invariant forall k :: oldCapacity <= k < i ==> a[k] == NULL_VALUE
          modifies a
        {
          a[i] := NULL_VALUE;
          i := i + 1;
        }
      }
      if count < size {
        count := size;
      }
    }

    /**
     * lit_vallist_ensuresize as evidently intended: the list becomes at
     * least size long, the elements it had are unchanged and every new
     * element is null, so the list is extended exactly as Assigned and
     * Inserted describe.
     */
    method EnsureSize(size: nat)
      requires Valid()
      modifies this, values
      ensures Valid()
      ensures Elements() == if old(count) < size then old(Elements()) + Nulls(size - old(count)) else old(Elements())
      ensures values == old(values) || fresh(values)
    {
      ghost var before := values[..count];
      if values.Length < size {
        Grow(size);
      }
      assert values[..count] == before;
      if count < size {
        var a := values;
        var i := count;
        while i < size
          invariant count <= i <= size <= a.Length
          invariant a[..count] == before
          invariant forall k :: count <= k < i ==> a[k] == NULL_VALUE
          modifies a
        {
          a[i] := NULL_VALUE;
          i := i + 1;
        }
        count := size;
        assert values[..count] == before + Nulls(size - |before|);
      }
    }
  }

  // ---------------------------------------------------------------------
  // The array methods

  /** lit_array_indexof: the first index holding a bit-identical value, or -1. */
  method IndexOf(list: ValueList, value: Value) returns (r: int)
    requires list.Valid()
    ensures r == FirstIndex(list.Elements(), value)
    ensures r == -1 <==> value !in list.Elements()
  {
    var i := 0;
    while i < list.count
      invariant i <= list.count && value !in list.values[..i]
    {
      if list.values[i] == value {
        assert list.values[..i] == list.Elements()[..i];
        FirstIndexAt(list.Elements(), value, i);
        return i;
      }
      assert list.values[..i + 1] == list.values[..i] + [list.values[i]];
      i := i + 1;
    }
    assert list.values[..i] == list.Elements();
    return -1;
  }

  lemma FirstIndexAt(s: seq<Value>, v: Value, i: nat)
    requires i < |s| && s[i] == v && v !in s[..i]
    ensures FirstIndex(s, v) == i
  {
  }

  /**
   * lit_array_removeat: past the end, null and no change; otherwise the
   * element, with the later ones shifted down and the vacated last slot
   * set to null.
   */
  method RemoveAt(list: ValueList, index: nat) returns (r: Value)
    requires list.Valid()
    modifies list, list.values
    ensures list.Valid() && list.values == old(list.values)
    ensures index >= old(list.count) ==> r == NULL_VALUE && list.count == old(list.count) && list.values[..] == old(list.values[..])
    ensures index < old(list.count) ==>
      (r == old(list.Elements())[index] && list.Elements() == RemovedAt(old(list.Elements()), index) &&
       list.values[list.count] == NULL_VALUE)
  {
    var count := list.count;
    if index >= count {
      return NULL_VALUE;
    }
    ghost var s := list.Elements();
    r := list.values[index];
    var i := index;
    while i < count - 1
      invariant index <= i <= count - 1 && list.values == old(list.values) && list.count == count
      invariant forall k :: 0 <= k < index ==> list.values[k] == s[k]
      invariant forall k :: index <= k < i ==> list.values[k] == s[k + 1]
      invariant forall k :: i <= k < count ==> list.values[k] == s[k]
    {
      list.values[i] := list.values[i + 1];
      i := i + 1;
    }
    list.values[count - 1] := NULL_VALUE;
    list.count := count - 1;
    assert list.Elements() == RemovedAt(s, index);
  }

  /** objfn_array_remove: the first element equal to value is removed and returned, or null. */
  method Remove(list: ValueList, value: Value) returns (r: Value)
    requires list.Valid()
    modifies list, list.values
    ensures list.Valid()
    ensures value !in old(list.Elements()) ==> r == NULL_VALUE && list.Elements() == old(list.Elements())
    ensures value in old(list.Elements()) ==>
      (r == value && list.Elements() == RemovedAt(old(list.Elements()), FirstIndex(old(list.Elements()), value)))
  {
    var index := IndexOf(list, value);
    if index != -1 {
      r := RemoveAt(list, index);
    } else {
      r := NULL_VALUE;
    }
  }

  /** objfn_array_contains. */
  method Contains(list: ValueList, value: Value) returns (r: bool)
    requires list.Valid()
    ensures r <==> value in list.Elements()
  {
    var index := IndexOf(list, value);
    r := index != -1;
  }

  /**
   * How subscript and insert turn a negative index into a position, as
   * written: `fmax(0, count + index)` adds the int to a size_t, so the sum
   * wraps modulo 2^64 and the floor never applies; below -count the huge
   * result does not fit the int it is converted back to, which is
   * undefined behaviour (None).
   */
  function NormalizedIndexAsWritten(count: nat, index: int): (r: Option<int>)
    requires count < 0x1_0000_0000_0000_0000 && IsInt(index)
  {
    if index >= 0 then Some(index)
    else
      var sum := (count + index) % 0x1_0000_0000_0000_0000;
      if sum <= INT_MAX then Some(sum) else None
  }

  /** The intended position: negative indices count from the end, floored at 0. */
  function NormalizedIndex(count: nat, index: int): (r: nat)
    ensures index >= 0 ==> r == index
    ensures index < 0 ==> r == if count + index < 0 then 0 else count + index
  {
    if index >= 0 then index else if count + index < 0 then 0 else count + index
  }

  /** The two agree on every index down to -count; below it the written one is undefined. */
  lemma NormalizedIndexAgrees(count: nat, index: int)
    requires count <= INT_MAX && IsInt(index)
    ensures index + count >= 0 ==> NormalizedIndexAsWritten(count, index) == Some(NormalizedIndex(count, index))
    ensures index + count < 0 ==> NormalizedIndexAsWritten(count, index) == None
  {
  }

  /** `[1, 2, 3][-5]`: the floor that should give index 0 is never reached. */
  lemma NegativeIndexBelowCountIsUndefined()
    ensures NormalizedIndexAsWritten(3, -5) == None && NormalizedIndex(3, -5) == 0
  {
  }

  /**
   * objfn_array_insert, corrected: v ends up at the position; elements
   * from there on move up by one, or the list is first extended with nulls
   * when the position is at or past its end. The position is the corrected
   * NormalizedIndex and the extension the corrected EnsureSize, where the
   * source wraps a size_t and reuses stale slots.
   */
  method Insert(list: ValueList, index: int, value: Value)
    requires list.Valid() && IsInt(index) && list.count < INT_MAX
    modifies list, list.values
    ensures list.Valid()
    ensures list.Elements() == Inserted(old(list.Elements()), NormalizedIndex(old(list.count), index), value)
  {
    ghost var s := list.Elements();
    var i := NormalizedIndex(list.count, index);
    if list.count <= i {
      list.EnsureSize(i + 1);
      assert list.Elements() == s + Nulls(i - |s|) + [NULL_VALUE] by { assert Nulls(i + 1 - |s|) == Nulls(i - |s|) + [NULL_VALUE]; }
      SetAfterExtend(s, i, value);
    } else {
      list.EnsureSize(list.count + 1);
      assert list.Elements() == s + [NULL_VALUE] by { assert Nulls(1) == [NULL_VALUE]; }
      ShiftUp(list, i, s);
      SetAfterShift(s, i, value);
    }
    ghost var e := list.Elements();
    var _ := list.Set(i, value);
    assert list.Elements() == e[i := value];
  }

  /** Setting slot i of the list extended with nulls past i inserts there. */
  lemma SetAfterExtend(s: seq<Value>, i: nat, v: Value)
    requires |s| <= i
    ensures (s + Nulls(i - |s|) + [NULL_VALUE])[i := v] == Inserted(s, i, v)
  {
  }

  /** Setting slot i of the list shifted up from i inserts there. */
  lemma SetAfterShift(s: seq<Value>, i: nat, v: Value)
    requires i < |s|
    ensures (s[..i + 1] + s[i..])[i := v] == Inserted(s, i, v)
  {
    assert (s[..i + 1] + s[i..])[i := v] == s[..i] + [v] + s[i..];
  }

  /** The shifting loop of insert: slots i+1 .. count-1 take the values below them. */
  method ShiftUp(list: ValueList, index: nat, ghost s: seq<Value>)
    requires list.Valid() && index < |s| && list.Elements() == s + [NULL_VALUE]
    modifies list.values
    ensures list.Valid() && list.count == old(list.count)
    ensures list.Elements() == s[..index + 1] + s[index..]
  {
    var i := list.count - 1;
    while i > index
      invariant index <= i < list.count
      invariant forall k :: 0 <= k <= i ==> list.values[k] == (s + [NULL_VALUE])[k]
      invariant forall k :: i < k < list.count ==> list.values[k] == s[k - 1]
    {
      list.values[i] := list.values[i - 1];
      i := i - 1;
    }
    assert list.Elements() == s[..index + 1] + s[index..];
  }

  /**
   * objfn_array_subscript with a value, corrected as Insert is: the
   * element at the position becomes v, the list being extended with nulls
   * when it is too short; the assigned value is the result. An index that
   * is not a number is a runtime error.
   */
  method SubscriptSet(list: ValueList, index: Option<int>, value: Value) returns (r: Result<Value, seq<char>>)
    requires list.Valid() && (index.Some? ==> IsInt(index.value)) && list.count < INT_MAX
    modifies list, list.values
    ensures list.Valid()
    ensures index.None? ==> r == Failure("array index must be a number") && list.Elements() == old(list.Elements())
    ensures index.Some? ==>
      (r == Success(value) &&
       list.Elements() == Assigned(old(list.Elements()), NormalizedIndex(old(list.count), index.value), value))
  {
    if index.None? {
      return Failure("array index must be a number");
    }
    ghost var s := list.Elements();
    var i := NormalizedIndex(list.count, index.value);
    list.EnsureSize(i + 1);
    assert i < list.count;
    var v := list.Set(i, value);
    if i < |s| {
      assert list.Elements() == s[i := value];
    } else {
      assert Nulls(i + 1 - |s|) == Nulls(i - |s|) + [NULL_VALUE];
      assert list.Elements() == s + Nulls(i - |s|) + [value];
    }
    return Success(v);
  }

  /**
   * objfn_array_subscript reading, as written: null only when the position
   * is at or past the capacity, so a slot past count is read as it is.
   */
  method SubscriptGetAsWritten(list: ValueList, index: int) returns (r: Value)
    requires list.Valid() && IsInt(index)
    ensures var i := NormalizedIndex(list.count, index);
      r == if i < list.values.Length then list.values[i] else NULL_VALUE
  {
    var i := NormalizedIndex(list.count, index);
    if list.values.Length <= i {
      return NULL_VALUE;
    }
    return list.Get(i);
  }

  /** objfn_array_subscript reading as intended: the element, or null past the end of the list. */
  method SubscriptGet(list: ValueList, index: int) returns (r: Value)
    requires list.Valid() && IsInt(index)
    ensures var i := NormalizedIndex(list.count, index);
      r == if i < list.count then list.Elements()[i] else NULL_VALUE
  {
    var i := NormalizedIndex(list.count, index);
    if list.count <= i {
      return NULL_VALUE;
    }
    return list.Get(i);
  }

  /**
   * objfn_array_pop: the last element, which leaves the list, or null for
   * an empty list. Its slot keeps the value.
   */
  method Pop(list: ValueList) returns (r: Value)
    requires list.Valid()
    modifies list`count
    ensures list.Valid() && list.values[..] == old(list.values[..])
    ensures old(list.count) == 0 ==> r == NULL_VALUE && list.count == 0
    ensures old(list.count) > 0 ==>
      (r == old(list.Elements())[old(list.count) - 1] && list.Elements() == old(list.Elements())[..old(list.count) - 1])
  {
    if list.count > 0 {
      r := list.Get(list.count - 1);
      list.DecCount();
      return r;
    }
    return NULL_VALUE;
  }

  /**
   * After `a = []; a.push(true); a.pop()`, `a[0]` reads the popped true
   * through the as-written subscript, and null through the intended one.
   */
  method PopThenGetReadsStale() returns (asWritten: Value, intended: Value)
    ensures asWritten == TRUE_VALUE && intended == NULL_VALUE
  {
    var list := new ValueList();
    list.Push(TRUE_VALUE);
    var _ := Pop(list);
    asWritten := SubscriptGetAsWritten(list, 0);
    intended := SubscriptGet(list, 0);
  }

  /**
   * After `a = []; a.push(true); a.pop()`, extending the list to three
   * elements with the as-written ensuresize (as `a.insert(2, v)` and
   * `a[2] = v` do) brings the popped true back as element 0; the intended
   * ensuresize makes it null.
   */
  method PopThenExtendReadsStale() returns (asWritten: Value, intended: Value)
    ensures asWritten == TRUE_VALUE && intended == NULL_VALUE
  {
    var list := new ValueList();
    list.Push(TRUE_VALUE);
    var _ := Pop(list);
    list.EnsureSizeAsWritten(3);
    asWritten := list.Elements()[0];
    var other := new ValueList();
    other.Push(TRUE_VALUE);
    var _ := Pop(other);
    other.EnsureSize(3);
    intended := other.Elements()[0];
  }

  /**
   * objfn_array_iterator: from a non-number, index 0; from n, n + 1 while
   * n is before the last index, null after; and null whenever the list
   * is empty, also for a number below -1, which passes the first test.
   */
  function Iterator(count: nat, argument: Option<int>): (r: Option<int>)
    ensures count == 0 ==> r == None
    ensures argument.None? ==> r == if count == 0 then None else Some(0)
    ensures argument.Some? ==> (r.Some? <==> count > 0 && argument.value < count - 1)
    ensures r.Some? && argument.Some? ==> r.value == argument.value + 1 && r.value < count
  {
    match argument
    case None => if count == 0 then None else Some(0)
    case Some(n) =>
      if n >= count - 1 then None
      else if count == 0 then None
      else Some(n + 1)
  }

  /** Iterating from the start visits 0, 1, ..., count - 1 and then stops. */
  lemma IteratorVisitsAll(count: nat, n: nat)
    requires n < count
    ensures Iterator(count, if n == 0 then None else Some(n - 1)) == Some(n)
    ensures Iterator(count, Some(count - 1)) == None
  {
  }

  /** The elements splice copies, as written: an error, undefined behaviour (None), or the elements. */
  datatype SpliceResult = SpliceError(message: seq<char>) | Undefined | Elements(elements: seq<Value>)

  /**
   * objfn_array_splice as written: negative bounds count from the end;
   * from > to is an error, checked before the bounds are clamped to the
   * list; the number copied is `fmin(length, to - from + 1)`, converted
   * to a size_t, which is undefined when it is negative, as it is when from
   * is past the end.
   */
  function SpliceAsWritten(s: seq<Value>, from: int, to: int): (r: SpliceResult)
    requires IsInt(from) && IsInt(to) && |s| <= INT_MAX
  {
    var f := if from < 0 then |s| + from else from;
    var t := if to < 0 then |s| + to else to;
    if f > t then SpliceError("Array.splice argument 'from' is larger than argument 'to'")
    else
      var f' := if f < 0 then 0 else f;
      var t' := if t > |s| - 1 then |s| - 1 else t;
      var n := if |s| < t' - f' + 1 then |s| else t' - f' + 1;
      if n < 0 then Undefined
      else Elements(s[f'..f' + n])
  }

  /**
   * objfn_array_splice (and slice) as evidently intended: the elements
   * from max(from, 0) through min(to, length - 1), none when that range is
   * empty.
   */
  function Splice(s: seq<Value>, from: int, to: int): (r: Result<seq<Value>, seq<char>>)
    requires IsInt(from) && IsInt(to) && |s| <= INT_MAX
    ensures var f := if from < 0 then |s| + from else from;
      var t := if to < 0 then |s| + to else to;
      (r.Failure? <==> f > t) &&
      (r.Success? ==>
        var lo := if f < 0 then 0 else f;
        var hi := if t > |s| - 1 then |s| - 1 else t;
        (lo > hi ==> r.value == []) &&
        (lo <= hi ==> lo <= hi < |s| && r.value == s[lo..hi + 1]))
  {
    var f := if from < 0 then |s| + from else from;
    var t := if to < 0 then |s| + to else to;
    if f > t then Failure("Array.splice argument 'from' is larger than argument 'to'")
    else
      var f' := if f < 0 then 0 else f;
      var t' := if t > |s| - 1 then |s| - 1 else t;
      if f' > t' then Success([]) else Success(s[f'..t' + 1])
  }

  /** Where the written version is defined, the two agree. */
  lemma SpliceAgrees(s: seq<Value>, from: int, to: int)
    requires IsInt(from) && IsInt(to) && |s| <= INT_MAX
    ensures SpliceAsWritten(s, from, to).SpliceError? <==> Splice(s, from, to).Failure?
    ensures SpliceAsWritten(s, from, to).Elements? ==> Splice(s, from, to) == Success(SpliceAsWritten(s, from, to).elements)
  {
  }

  /** `[1, 2, 3].slice(5, 10)`: from is past the end, and the copy count is negative. */
  lemma SpliceFromPastEndIsUndefined(a: Value, b: Value, c: Value)
    ensures SpliceAsWritten([a, b, c], 5, 10) == Undefined
    ensures Splice([a, b, c], 5, 10) == Success([])
  {
  }

  /** The whole list is spliced by 0 through -1. */
  lemma SpliceWhole(s: seq<Value>)
    requires 0 < |s| <= INT_MAX
    ensures Splice(s, 0, -1) == Success(s)
  {
    assert s[0..|s|] == s;
  }

  /** objfn_array_splice, pushing the selected elements onto a new list. */
  method SpliceCopy(list: ValueList, from: int, to: int) returns (r: Result<ValueList, seq<char>>)
    requires list.Valid() && IsInt(from) && IsInt(to) && list.count <= INT_MAX
    ensures r.Failure? <==> Splice(list.Elements(), from, to).Failure?
    ensures r.Failure? ==> r.error == Splice(list.Elements(), from, to).error
    ensures r.Success? ==> fresh(r.value) && r.value.Valid() && r.value.Elements() == Splice(list.Elements(), from, to).value
  {
    ghost var s := list.Elements();
    ghost var sp := Splice(s, from, to);
    var length := list.count;
    var f := if from < 0 then length + from else from;
    var t := if to < 0 then length + to else to;
    if f > t {
      assert sp.Failure? && sp.error == "Array.splice argument 'from' is larger than argument 'to'";
      return Failure("Array.splice argument 'from' is larger than argument 'to'");
    }
    f := if f < 0 then 0 else f;
    t := if t > length - 1 then length - 1 else t;
    if f > t {
      assert sp == Success([]);
      var empty := new ValueList();
      return Success(empty);
    }
    assert sp == Success(s[f..t + 1]);
    var copy := CopyRange(list, f, t - f + 1);
    return Success(copy);
  }

  method CopyRange(list: ValueList, lo: nat, n: nat) returns (copy: ValueList)
    requires list.Valid() && lo + n <= list.count
    ensures fresh(copy) && copy.Valid() && copy.Elements() == list.Elements()[lo..lo + n]
  {
    ghost var s := list.Elements();
    copy := new ValueList();
    var i := 0;
    while i < n
      invariant i <= n && copy.Valid() && fresh(copy) && fresh(copy.values)
      invariant copy.Elements() == s[lo..lo + i]
    {
      copy.Push(list.Get(lo + i));
      assert s[lo..lo + i + 1] == s[lo..lo + i] + [s[lo + i]];
      i := i + 1;
    }
  }

  /**
   * objfn_array_clone: ensuresize(count) gives the new list a buffer of
   * exactly that capacity, the count is reset to 0 and every element is
   * pushed in order.
   */
  method Clone(list: ValueList) returns (copy: ValueList)
    requires list.Valid()
    ensures fresh(copy) && copy.Valid() && copy.Elements() == list.Elements()
    ensures copy.values.Length == list.count
  {
    copy := new ValueList();
    copy.EnsureSizeAsWritten(list.count);
    copy.SetCount(0);
    var i := 0;
    while i < list.count
      invariant i <= list.count && copy.Valid() && fresh(copy) && fresh(copy.values)
      invariant copy.values.Length == list.count && copy.count == i
      invariant copy.Elements() == list.values[..i]
    {
      copy.Push(list.Get(i));
      assert list.values[..i + 1] == list.values[..i] + [list.values[i]];
      i := i + 1;
    }
  }

  /**
   * objfn_array_add, and objfn_array_addall corrected: every value is
   * pushed in order, the values being those of the argument when the call
   * starts, so an array added to itself doubles.
   */
  method AddAll(list: ValueList, more: seq<Value>)
    requires list.Valid()
    modifies list, list.values
    ensures list.Valid() && list.Elements() == old(list.Elements()) + more
  {
    var i := 0;
    while i < |more|
      invariant i <= |more| && list.Valid()
      invariant list.Elements() == old(list.Elements()) + more[..i]
      invariant list.values == old(list.values) || fresh(list.values)
    {
      list.Push(more[i]);
      assert more[..i + 1] == more[..i] + [more[i]];
      i := i + 1;
    }
  }

  /**
   * The loop of objfn_array_addall as written, run for at most fuel
   * passes: it re-reads the count of toadd before every pass. For two
   * distinct lists it finishes once fuel covers toadd; for an array added
   * to itself each push raises the bound it is chasing, so no amount of
   * fuel finishes a non-empty one.
   */
  method AddAllAsWritten(list: ValueList, toadd: ValueList, fuel: nat) returns (finished: bool)
    requires list.Valid() && toadd.Valid() && (list != toadd ==> list.values != toadd.values)
    modifies list, list.values
    ensures list.Valid()
    ensures list == toadd && old(list.count) > 0 ==> !finished
    ensures list != toadd && fuel >= old(toadd.count) ==>
      finished && list.Elements() == old(list.Elements()) + old(toadd.Elements())
  {
    ghost var s := list.Elements();
    ghost var t := toadd.Elements();
    var i := 0;
    var passes := 0;
    while i < toadd.count
      invariant list.Valid() && toadd.Valid() && passes == i <= fuel
      invariant list.values == old(list.values) || fresh(list.values)
      invariant list != toadd ==> toadd.values == old(toadd.values) && toadd.count == |t| && toadd.Elements() == t
      invariant list != toadd ==> i <= |t| && list.Elements() == s + t[..i]
      invariant list == toadd ==> list.count == |s| + i
      decreases fuel - passes
    {
      if passes == fuel {
        return false;
      }
      list.Push(toadd.Get(i));
      if list != toadd {
        assert t[..i + 1] == t[..i] + [t[i]];
      }
      i := i + 1;
      passes := passes + 1;
    }
    if list != toadd {
      assert t[..i] == t;
    }
    return true;
  }

  /** `a = [true]; a.addAll(a)` with a million passes: the loop is still running. */
  method AddSelfKeepsGoing() returns (finished: bool)
    ensures !finished
  {
    var list := new ValueList();
    list.Push(TRUE_VALUE);
    finished := AddAllAsWritten(list, list, 1000000);
  }

  /**
   * objfn_array_addall with its argument checks, corrected: anything but
   * one argument, or an argument that is not an array (toadd is null then),
   * is a runtime error and nothing changes; otherwise the argument's
   * elements, as they are at the call, are pushed in order.
   */
  method NativeAddAll(list: ValueList, args: seq<Value>, toadd: ValueList?) returns (r: Result<Value, Api.ArgError>)
    requires list.Valid() && (toadd != null ==> toadd.Valid())
    modifies list, list.values
    ensures list.Valid()
    ensures |args| != 1 ==> r == Failure(Api.WrongCount(1, |args|)) && list.Elements() == old(list.Elements())
    ensures |args| == 1 && toadd == null ==>
      r == Failure(Api.Message("expected array as the argument")) && list.Elements() == old(list.Elements())
    ensures |args| == 1 && toadd != null ==>
      r == Success(NULL_VALUE) && list.Elements() == old(list.Elements()) + old(toadd.Elements())
  {
    var check := Api.EnsureArgs(|args|, 1);
    if check.Some? {
      return Failure(check.value);
    }
    if toadd == null {
      return Failure(Api.Message("expected array as the argument"));
    }
    AddAll(list, toadd.Elements());
    return Success(NULL_VALUE);
  }

  // ---------------------------------------------------------------------
  // The native methods with their argument checks. A number argument is
  // taken as the int toInt converts it to; typeName names the type of a
  // value in an error message.

  /**
   * objfn_array_insert: anything but two arguments, or a first argument
   * that is not a number, is a runtime error and nothing changes; otherwise
   * Insert, with its corrected position.
   */
  method NativeInsert(list: ValueList, args: seq<Value>, toInt: Value -> int, typeName: Value -> string)
    returns (r: Result<Value, Api.ArgError>)
    requires list.Valid() && list.count < INT_MAX
    requires |args| == 2 && IsNumber(args[0]) ==> IsInt(toInt(args[0]))
    modifies list, list.values
    ensures list.Valid()
    ensures |args| != 2 ==> r == Failure(Api.WrongCount(2, |args|)) && list.Elements() == old(list.Elements())
    ensures |args| == 2 && !IsNumber(args[0]) ==>
      r == Failure(Api.NotANumber(0, typeName(args[0]))) && list.Elements() == old(list.Elements())
    ensures |args| == 2 && IsNumber(args[0]) ==>
      r == Success(NULL_VALUE) &&
      list.Elements() == Inserted(old(list.Elements()), NormalizedIndex(old(list.count), toInt(args[0])), args[1])
  {
    var check := Api.EnsureArgs(|args|, 2);
    if check.Some? {
      return Failure(check.value);
    }
    var index := Api.CheckNumber(args, 0, typeName);
    if index.Failure? {
      return Failure(index.error);
    }
    Insert(list, toInt(args[0]), args[1]);
    return Success(NULL_VALUE);
  }

  /**
   * objfn_array_slice: both arguments must be numbers (a missing one is
   * reported as null); then SpliceCopy, whose error is a runtime error too.
   */
  method NativeSlice(list: ValueList, args: seq<Value>, toInt: Value -> int, typeName: Value -> string)
    returns (r: Result<ValueList, Api.ArgError>)
    requires list.Valid() && list.count <= INT_MAX && |args| < 256
    requires forall k :: 0 <= k < |args| && IsNumber(args[k]) ==> IsInt(toInt(args[k]))
    ensures (|args| < 1 || !IsNumber(args[0])) ==> r == Failure(Api.CheckNumber(args, 0, typeName).error)
    ensures |args| >= 1 && IsNumber(args[0]) && (|args| < 2 || !IsNumber(args[1])) ==>
      r == Failure(Api.CheckNumber(args, 1, typeName).error)
    ensures |args| >= 2 && IsNumber(args[0]) && IsNumber(args[1]) ==>
      var sp := Splice(list.Elements(), toInt(args[0]), toInt(args[1]));
      (sp.Failure? ==> r == Failure(Api.Message(sp.error))) &&
      (sp.Success? ==> r.Success? && fresh(r.value) && r.value.Valid() && r.value.Elements() == sp.value)
  {
    Api.CheckNumberAccepts(args, 0, typeName);
    Api.CheckNumberAccepts(args, 1, typeName);
    var from := Api.CheckNumber(args, 0, typeName);
    if from.Failure? {
      return Failure(from.error);
    }
    var to := Api.CheckNumber(args, 1, typeName);
    if to.Failure? {
      return Failure(to.error);
    }
    var copy := SpliceCopy(list, toInt(args[0]), toInt(args[1]));
    if copy.Failure? {
      return Failure(Api.Message(copy.error));
    }
    return Success(copy.value);
  }

  /**
   * objfn_array_removeat: the first argument must be a number; a negative
   * one gives null and changes nothing, any other is RemoveAt.
   */
  method NativeRemoveAt(list: ValueList, args: seq<Value>, toInt: Value -> int, typeName: Value -> string)
    returns (r: Result<Value, Api.ArgError>)
    requires list.Valid() && |args| < 256
    modifies list, list.values
    ensures list.Valid()
    ensures (|args| < 1 || !IsNumber(args[0])) ==>
      r == Failure(Api.NotANumber(0, if |args| < 1 then "null" else typeName(args[0]))) &&
      list.Elements() == old(list.Elements())
    ensures |args| >= 1 && IsNumber(args[0]) && toInt(args[0]) < 0 ==>
      r == Success(NULL_VALUE) && list.Elements() == old(list.Elements())
    ensures |args| >= 1 && IsNumber(args[0]) && toInt(args[0]) >= 0 ==>
      var i := toInt(args[0]);
      (i >= old(list.count) ==> r == Success(NULL_VALUE) && list.Elements() == old(list.Elements())) &&
      (i < old(list.count) ==> r == Success(old(list.Elements())[i]) && list.Elements() == RemovedAt(old(list.Elements()), i))
  {
    Api.CheckNumberAccepts(args, 0, typeName);
    var index := Api.CheckNumber(args, 0, typeName);
    if index.Failure? {
      return Failure(index.error);
    }
    var i := toInt(args[0]);
    if i < 0 {
      return Success(NULL_VALUE);
    }
    var v := RemoveAt(list, i);
    return Success(v);
  }

  /** What objfn_array_subscript reads: an element, or a new array for a range. */
  datatype Subscripted = Element(v: Value) | Range(list: ValueList)

  /**
   * objfn_array_subscript, corrected as SubscriptSet and SubscriptGet are.
   * With two arguments it assigns, with one it reads; range is the bounds
   * of the first argument when it is a range object, read as a slice. Any
   * other index that is not a number is a runtime error.
   */
  method NativeSubscript(list: ValueList, args: seq<Value>, toInt: Value -> int, range: Option<(int, int)>)
    returns (r: Result<Subscripted, Api.ArgError>)
    requires list.Valid() && list.count < INT_MAX && 1 <= |args| <= 2
    requires IsNumber(args[0]) ==> IsInt(toInt(args[0]))
    requires range.Some? ==> !IsNumber(args[0]) && IsInt(range.value.0) && IsInt(range.value.1)
    modifies list, list.values
    ensures list.Valid()
    ensures !IsNumber(args[0]) && (|args| == 2 || range.None?) ==>
      r == Failure(Api.Message("array index must be a number")) && list.Elements() == old(list.Elements())
    ensures |args| == 2 && IsNumber(args[0]) ==>
      r == Success(Element(args[1])) &&
      list.Elements() == Assigned(old(list.Elements()), NormalizedIndex(old(list.count), toInt(args[0])), args[1])
    ensures |args| == 1 && IsNumber(args[0]) ==>
      var i := NormalizedIndex(old(list.count), toInt(args[0]));
      r == Success(Element(if i < old(list.count) then old(list.Elements())[i] else NULL_VALUE)) &&
      list.Elements() == old(list.Elements())
    ensures |args| == 1 && range.Some? ==>
      var sp := Splice(old(list.Elements()), range.value.0, range.value.1);
      list.Elements() == old(list.Elements()) &&
      (sp.Failure? ==> r == Failure(Api.Message(sp.error))) &&
      (sp.Success? ==> r.Success? && r.value.Range? && fresh(r.value.list) && r.value.list.Valid() &&
                       r.value.list.Elements() == sp.value)
  {
    if |args| == 2 {
      var index := if IsNumber(args[0]) then Some(toInt(args[0])) else None;
      var stored := SubscriptSet(list, index, args[1]);
      if stored.Failure? {
        return Failure(Api.Message(stored.error));
      }
      return Success(Element(stored.value));
    }
    if !IsNumber(args[0]) {
      if range.Some? {
        var copy := SpliceCopy(list, range.value.0, range.value.1);
        if copy.Failure? {
          return Failure(Api.Message(copy.error));
        }
        return Success(Range(copy.value));
      }
      return Failure(Api.Message("array index must be a number"));
    }
    var v := SubscriptGet(list, toInt(args[0]));
    return Success(Element(v));
  }

  /**
   * objfn_array_iterator with its argument check: anything but one
   * argument is a runtime error; otherwise Iterator, a number argument
   * being the last index and any other the start.
   */
  function NativeIterator(count: nat, args: seq<Value>, toInt: Value -> int): (r: Result<Option<int>, Api.ArgError>)
    ensures |args| != 1 <==> r.Failure?
    ensures r.Failure? ==> r.error == Api.WrongCount(1, |args|)
    ensures r.Success? && !IsNumber(args[0]) ==> r.value == if count == 0 then None else Some(0)
    ensures r.Success? && IsNumber(args[0]) ==>
      (r.value.Some? <==> count > 0 && toInt(args[0]) < count - 1) &&
      (r.value.Some? ==> r.value.value == toInt(args[0]) + 1)
  {
    match Api.EnsureArgs(|args|, 1)
    case Some(e) => Failure(e)
    case None => Success(Iterator(count, if IsNumber(args[0]) then Some(toInt(args[0])) else None))
  }
}
