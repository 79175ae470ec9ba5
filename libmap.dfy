/**
 * The map object of libmap.c and the map helpers of object.c: a table of
 * string keys behind the subscript operator, iteration by entry index,
 * merging, cloning and clearing.
 *
 * The map's clear method only resets the table's count (libmap.c:93); the
 * lemmas at the end show what the table then does, and Map.Clear is the
 * clearing the map is meant to have.
 */
module LibMap {
  import opened Lit
  import opened Wrappers
  import opened Table
  import Api

  /** What a native map method gives back: a value, a runtime error, or whatever the map's index hook returns. */
  datatype Answer = Returned(v: Value) | RuntimeError(message: seq<char>) | Hooked

  /** The map a subscript assignment leaves: storing null deletes the key. */
  function Assigned(m: map<Str, Value>, key: Str, value: Value): (r: map<Str, Value>)
    ensures value == NULL_VALUE ==> key !in r
    ensures value != NULL_VALUE ==> key in r && r[key] == value
    ensures r - {key} == m - {key}
  {
    if value == NULL_VALUE then m - {key} else m[key := value]
  }

  /** LitMap: its table of values, and whether a native index hook (index_fn) is installed. */
  class Map {
    const values: Table
    const hasIndexFn: bool

    ghost predicate Valid()
      reads this, values, values.entries
    {
      values.Valid()
    }

    ghost function Contents(): map<Str, Value>
      reads this, values, values.entries
      requires Valid()
    {
      values.Contents()
    }

    /** lit_create_map: an empty table and no hook. */
    constructor ()
      ensures Valid() && Contents() == map[] && !hasIndexFn
      ensures fresh(values) && fresh(values.entries)
    {
      values := new Table();
      hasIndexFn := false;
    }

    /** lit_map_set: null deletes the key and answers false; any other value goes through lit_table_set. */
    method Set(key: Str, value: Value) returns (isNew: bool)
      requires Valid()
      modifies values, values.entries
      ensures Valid() && Contents() == Assigned(old(Contents()), key, value)
      ensures isNew <==> value != NULL_VALUE && key !in old(Contents())
      ensures values.entries == old(values.entries) || fresh(values.entries)
    {
      if value == NULL_VALUE {
        var _ := values.Delete(key);
        return false;
      }
      isNew := values.Set(key, value);
    }

    /**
     * objfn_map_subscript. index is the string object argv[0] boxes, or None
     * when argv[0] is not a string; newValue is argv[1] when argc is 2.
     */
    method Subscript(index: Option<Str>, newValue: Option<Value>) returns (r: Answer)
      requires Valid()
      modifies values, values.entries
      ensures Valid()
      ensures index.None? ==> r == RuntimeError("map index must be a string") && Contents() == old(Contents())
      ensures index.Some? && hasIndexFn ==> r == Hooked && Contents() == old(Contents())
      ensures index.Some? && !hasIndexFn && newValue.Some? ==>
        r == Returned(newValue.value) && Contents() == Assigned(old(Contents()), index.value, newValue.value)
      ensures index.Some? && !hasIndexFn && newValue.None? ==>
        Contents() == old(Contents()) &&
        r == Returned(if index.value in old(Contents()) then old(Contents())[index.value] else NULL_VALUE)
    {
      if index.None? {
        return RuntimeError("map index must be a string");
      }
      var key := index.value;
      if newValue.Some? {
        var val := newValue.value;
        if hasIndexFn {
          return Hooked;
        }
        var _ := Set(key, val);
        return Returned(val);
      }
      if hasIndexFn {
        return Hooked;
      }
      var value := values.Get(key);
      if value.None? {
        return Returned(NULL_VALUE);
      }
      return Returned(value.value);
    }

    /**
     * lit_map_add_all(from, this), which objfn_map_addall calls: every
     * pair of from is set here; a map added to itself stays as it is.
     */
    method AddAll(from: Map)
      requires Valid() && from.Valid() && (from.values != values ==> from.values.entries != values.entries)
      modifies values, values.entries
      ensures Valid() && Contents() == old(Contents()) + old(from.Contents())
    {
      values.AddAll(from.values);
    }

    /** objfn_map_clone: a fresh map holding the same pairs. */
    method Clone() returns (m: Map)
      requires Valid()
      ensures fresh(m) && fresh(m.values) && m.Valid() && m.Contents() == Contents() && !m.hasIndexFn
    {
      m := new Map();
      m.values.AddAll(values);
    }

    /**
     * objfn_map_clear as written: the count drops to 0 while every entry
     * stays, so every lookup fails until the next store.
     */
    method ClearAsWritten()
      requires Valid()
      modifies values`count
      ensures values.count == 0 && values.capacity == old(values.capacity)
      ensures values.entries == old(values.entries) && values.entries[..] == old(values.entries[..])
      ensures forall k: Str :: LookupRaw(values.entries[..], values.capacity, values.count, k) == Returns(None)
    {
      values.count := 0;
    }

    /** The clearing the map method is meant to do: the table is emptied. */
    method Clear()
      requires Valid()
      modifies values
      ensures Valid() && Contents() == map[]
    {
      values.Free();
    }
  }

  /**
   * util_table_iterator: the first index after number, below capacity, that
   * holds a key; -1 when there is none or the table's count is 0.
   */
  method TableIterator(table: Table, number: int) returns (r: int)
    requires table.entries.Length == table.capacity + 1 && number >= -1
    ensures r == -1 || (number < r < table.capacity && table.entries[r].key != null)
    ensures r != -1 ==> forall i :: number < i < r ==> table.entries[i].key == null
    ensures r == -1 <==> table.count == 0 || forall i :: number < i < table.capacity ==> table.entries[i].key == null
    ensures r != -1 && table.Valid() ==> table.entries[r].key in table.Contents()
  {
    if table.count == 0 {
      return -1;
    }
    if number >= table.capacity {
      return -1;
    }
    var n := number + 1;
    while n < table.capacity
      invariant number < n <= table.capacity
      invariant forall i :: number < i < n ==> table.entries[i].key == null
    {
      if table.entries[n].key != null {
        if table.Valid() {
          MapOfKeys(table.entries[..], table.capacity, table.entries[n].key);
        }
        return n;
      }
      n := n + 1;
    }
    return -1;
  }

  /**
   * util_table_iterator_key: null past the entries, otherwise the boxed key
   * object of the entry (a boxed null pointer for a slot without a key).
   */
  function TableIteratorKey(table: Table, index: nat): (r: Value)
    reads table, table.entries
    requires table.entries.Length == table.capacity + 1
    ensures index >= table.capacity ==> r == NULL_VALUE
    ensures index < table.capacity ==> IsObject(r) && !IsNull(r)
    ensures index < table.capacity && table.entries[index].key == null ==> AsObject(r) == 0
    ensures index < table.capacity && table.entries[index].key != null && Untagged(table.entries[index].key.addr) ==>
      AsObject(r) == table.entries[index].key.addr
  {
    if table.capacity <= index then NULL_VALUE
    else
      var key := table.entries[index].key;
      ObjectValue(if key == null then 0 else key.addr)
  }

  /**
   * The entry util_table_iterator reads first, as written: none when the
   * count is 0 or number is at or past the capacity, else entry number + 1.
   */
  function FirstRead(count: nat, capacity: int, number: int): (r: Option<int>)
    ensures r.Some? <==> count > 0 && number < capacity
    ensures r.Some? ==> r.value == number + 1
  {
    if count == 0 || number >= capacity then None else Some(number + 1)
  }

  /**
   * Any number below -1 that objfn_map_iterator passes on, as `m.iterator(-2)`
   * does for a map with a key, makes util_table_iterator read an entry
   * before the start of the entry array.
   */
  lemma IteratorReadsBeforeEntries(count: nat, capacity: nat, number: int)
    requires count > 0 && number <= -2
    ensures FirstRead(count, capacity, number).Some? && FirstRead(count, capacity, number).value < 0
  {
  }

  /**
   * objfn_map_iterator, corrected: the argument is null (None) to start, or
   * the last index, and a number below -1 starts from the beginning like
   * -1 instead of reading before the entries; the answer is the next index
   * holding a key, or null (None).
   */
  method MapIterator(map_: Map, argument: Option<int>) returns (r: Option<int>)
    requires map_.values.entries.Length == map_.values.capacity + 1
    ensures var from := if argument.None? || argument.value < -1 then -1 else argument.value;
      match r
      case None =>
        map_.values.count == 0 || forall i :: from < i < map_.values.capacity ==> map_.values.entries[i].key == null
      case Some(n) =>
        (from < n < map_.values.capacity && map_.values.entries[n].key != null &&
         forall i :: from < i < n ==> map_.values.entries[i].key == null)
  {
    var index := if argument.None? || argument.value < -1 then -1 else argument.value;
    var value := TableIterator(map_.values, index);
    r := if value == -1 then None else Some(value);
  }

  /**
   * objfn_map_iterator with its argument check: anything but one argument
   * is a runtime error; null starts the iteration, and any other argument
   * is taken as the number toInt converts it to.
   */
  method NativeMapIterator(map_: Map, args: seq<Value>, toInt: Value -> int) returns (r: Result<Option<int>, Api.ArgError>)
    requires map_.values.entries.Length == map_.values.capacity + 1
    ensures |args| != 1 <==> r.Failure?
    ensures r.Failure? ==> r.error == Api.WrongCount(1, |args|)
    ensures r.Success? && args[0] == NULL_VALUE && r.value.Some? ==>
      0 <= r.value.value < map_.values.capacity && map_.values.entries[r.value.value].key != null &&
      forall i :: 0 <= i < r.value.value ==> map_.values.entries[i].key == null
    ensures r.Success? && args[0] == NULL_VALUE && r.value.None? ==>
      map_.values.count == 0 || forall i :: 0 <= i < map_.values.capacity ==> map_.values.entries[i].key == null
    ensures r.Success? && args[0] != NULL_VALUE && r.value.Some? ==> toInt(args[0]) < r.value.value
  {
    var check := Api.EnsureArgs(|args|, 1);
    if check.Some? {
      return Failure(check.value);
    }
    var argument := if args[0] == NULL_VALUE then None else Some(toInt(args[0]));
    var next := MapIterator(map_, argument);
    return Success(next);
  }

  /**
   * objfn_map_addall with its argument checks: anything but one argument,
   * or an argument that is not a map (argument is null then), is a runtime
   * error and nothing changes; otherwise every pair of the argument is set
   * in this map.
   */
  method NativeAddAll(map_: Map, args: seq<Value>, argument: Map?) returns (r: Result<Value, Api.ArgError>)
    requires map_.Valid() && (argument != null ==> argument.Valid())
    requires argument != null && argument.values != map_.values ==> argument.values.entries != map_.values.entries
    modifies map_.values, map_.values.entries
    ensures map_.Valid()
    ensures |args| != 1 ==> r == Failure(Api.WrongCount(1, |args|)) && map_.Contents() == old(map_.Contents())
    ensures |args| == 1 && argument == null ==>
      r == Failure(Api.Message("expected map as the argument")) && map_.Contents() == old(map_.Contents())
    ensures |args| == 1 && argument != null ==>
      r == Success(NULL_VALUE) && map_.Contents() == old(map_.Contents()) + old(argument.Contents())
  {
    var check := Api.EnsureArgs(|args|, 1);
    if check.Some? {
      return Failure(check.value);
    }
    if argument == null {
      return Failure(Api.Message("expected map as the argument"));
    }
    map_.AddAll(argument);
    return Success(NULL_VALUE);
  }

  /**
   * After the map's clear as written, one store of a new key b makes another
   * key a visible again with its value from before the clear.
   */
  lemma ClearThenSetResurrects(es: seq<Entry>, cap: nat, a: Str, b: Str, vb: Value)
    requires Inv(es, cap) && NoTombs(es, cap) && UsedCount(es, cap) + 1 < cap
    requires a in MapOf(es, cap) && b !in MapOf(es, cap)
    ensures LookupRaw(es, cap, 0, a) == Returns(None)
    ensures !Grows(0, cap)
    ensures StoreRaw(es, cap, 0, b, vb).Returns? && StoreRaw(es, cap, 0, b, vb).result.1 == 1
    ensures LookupRaw(StoreRaw(es, cap, 0, b, vb).result.0, cap, 1, a) == Returns(Some(MapOf(es, cap)[a]))
  {
    var j := StoreStep(es, cap, b, vb);
    var es1 := es[j := Entry(b, vb)];
    var k := LookupSlot(es1, cap, a);
  }

  /**
   * After the map's clear as written on a table whose slots are all used but
   * one, a store of a new key fills that slot without growing the table, and
   * the store of a second new key never returns: find_entry finds no empty
   * slot and loops forever.
   */
  lemma ClearThenSetHangs(es: seq<Entry>, cap: nat, b: Str, vb: Value, c: Str, vc: Value)
    requires Inv(es, cap) && NoTombs(es, cap) && UsedCount(es, cap) + 1 == cap && cap >= 7
    requires b !in MapOf(es, cap) && c !in MapOf(es, cap) && b != c
    ensures !Grows(0, cap) && StoreRaw(es, cap, 0, b, vb).Returns?
    ensures StoreRaw(es, cap, 0, b, vb).result.1 == 1 && !Grows(1, cap)
    ensures StoreRaw(StoreRaw(es, cap, 0, b, vb).result.0, cap, 1, c, vc) == Hangs
  {
    var j := StoreStep(es, cap, b, vb);
    var es1 := es[j := Entry(b, vb)];
    UsedCountFull(es1, cap);
    MapOfKeys(es1, cap, c);
    FindSlotFullDiverges(es1, cap, c);
  }
}
