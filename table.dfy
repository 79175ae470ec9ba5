/**
 * The hash table of table.c, keyed by string object identity: open
 * addressing over capacity + 1 entries with linear probing modulo capacity,
 * tombstones (no key, value TRUE) left by deletion, a count of live entries
 * plus tombstones, and growth when the load factor would pass 0.75.
 *
 * The probing is specified by functions on the entry sequence; the class
 * methods are proved against them, and the lemmas here show that the
 * entries represent a map from keys to values.
 */
module Table {
  import opened Lit
  import opened Wrappers

  /** The part of a string object (LitString) the table reads: its address, its bytes, its hash and its GC mark. */
  class Str {
    const addr: Ptr
    const chars: seq<char>
    const hash: bv32
    var marked: bool

    constructor (addr: Ptr, chars: seq<char>, hash: bv32)
      ensures this.addr == addr && this.chars == chars && this.hash == hash && !marked
    {
      this.addr := addr;
      this.chars := chars;
      this.hash := hash;
      marked := false;
    }
  }

  /** LitTableEntry */
  datatype Entry = Entry(key: Str?, value: Value)

  const EMPTY: Entry := Entry(null, NULL_VALUE)
  const TOMBSTONE: Entry := Entry(null, TRUE_VALUE)

  predicate IsEmpty(e: Entry) { e.key == null && e.value == NULL_VALUE }
  predicate IsTomb(e: Entry) { e.key == null && e.value != NULL_VALUE }

  /** What a probe looks for: a key object (find_entry), or a key with given bytes and hash (find_string). */
  datatype Target = ByKey(key: Str) | ByContent(chars: seq<char>, hash: bv32)

  predicate Matches(e: Entry, t: Target)
  {
    e.key != null &&
    match t
    case ByKey(k) => e.key == k
    case ByContent(c, h) => e.key.chars == c && e.key.hash == h
  }

  /** A probe stops at an empty slot or at a match. */
  predicate Stops(e: Entry, t: Target) { IsEmpty(e) || Matches(e, t) }

  function TargetHash(t: Target): bv32
  {
    match t
    case ByKey(k) => k.hash
    case ByContent(_, h) => h
  }

  /** The first slot a probe for a hash looks at. */
  function Home(hash: bv32, cap: nat): (h: nat)
    requires cap >= 1
    ensures h < cap
  {
    (hash as int) % cap
  }

  /** The x-th slot of the probe sequence from h: (h + x) % cap. */
  function SlotAt(h: nat, x: nat, cap: nat): (i: nat)
    requires h < cap && x < cap
    ensures i < cap && i == (h + x) % cap
  {
    if h + x < cap then h + x else h + x - cap
  }

  /** How many probe steps from h reach slot i. */
  function Dist(h: nat, i: nat, cap: nat): (x: nat)
    requires h < cap && i < cap
    ensures x < cap && SlotAt(h, x, cap) == i
  {
    if i >= h then i - h else i + cap - h
  }

  lemma SlotAtInjective(h: nat, x: nat, y: nat, cap: nat)
    requires h < cap && x < cap && y < cap && x != y
    ensures SlotAt(h, x, cap) != SlotAt(h, y, cap)
  {
  }

  /** No probe step in [a, b) from h stops for t. */
  predicate Passes(es: seq<Entry>, cap: nat, t: Target, h: nat, a: nat, b: nat)
    requires 1 <= cap <= |es| && h < cap && b <= cap
  {
    forall x :: a <= x < b ==> !Stops(es[SlotAt(h, x, cap)], t)
  }

  /** The step at which a probe from h, already past step d, stops; None when it never does. */
  function StopDist(es: seq<Entry>, cap: nat, t: Target, h: nat, d: nat): (r: Option<nat>)
    requires 1 <= cap <= |es| && h < cap && d <= cap
    ensures r.Some? ==> d <= r.value < cap && Stops(es[SlotAt(h, r.value, cap)], t) && Passes(es, cap, t, h, d, r.value)
    ensures r.None? ==> Passes(es, cap, t, h, d, cap)
    decreases cap - d
  {
    if d == cap then None
    else if Stops(es[SlotAt(h, d, cap)], t) then Some(d)
    else StopDist(es, cap, t, h, d + 1)
  }

  /** The first step before e at which the probe from h meets a tombstone. */
  function FirstTomb(es: seq<Entry>, cap: nat, h: nat, e: nat): (r: Option<nat>)
    requires 1 <= cap <= |es| && h < cap && e <= cap
    ensures r.Some? ==> r.value < e && IsTomb(es[SlotAt(h, r.value, cap)])
    ensures r.Some? ==> forall x :: 0 <= x < r.value ==> !IsTomb(es[SlotAt(h, x, cap)])
    ensures r.None? ==> forall x :: 0 <= x < e ==> !IsTomb(es[SlotAt(h, x, cap)])
  {
    if e == 0 then None
    else
      match FirstTomb(es, cap, h, e - 1)
      case Some(x) => Some(x)
      case None => if IsTomb(es[SlotAt(h, e - 1, cap)]) then Some(e - 1) else None
  }

  /**
   * find_entry: the slot of key if the probe meets it before an empty slot;
   * otherwise the first tombstone passed, or else the empty slot. None when
   * no slot stops the probe: the C loop then never returns.
   */
  function FindSlot(es: seq<Entry>, cap: nat, key: Str): (r: Option<nat>)
    requires 1 <= cap <= |es|
    ensures r.Some? ==> r.value < cap && (es[r.value].key == null || es[r.value].key == key)
  {
    var h := Home(key.hash, cap);
    match StopDist(es, cap, ByKey(key), h, 0)
    case None => None
    case Some(ds) =>
      var s := SlotAt(h, ds, cap);
      if es[s].key == key then Some(s)
      else
        match FirstTomb(es, cap, h, ds)
        case Some(dt) => Some(SlotAt(h, dt, cap))
        case None => Some(s)
  }

  /**
   * lit_table_find_string's probe: Some(Some(i)) for the first slot holding
   * a key with these bytes and hash, Some(None) when an empty slot comes
   * first, None when the C loop never returns.
   */
  function FindContent(es: seq<Entry>, cap: nat, chars: seq<char>, hash: bv32): (r: Option<Option<nat>>)
    requires 1 <= cap <= |es|
    ensures r.Some? && r.value.Some? ==> r.value.value < cap && Matches(es[r.value.value], ByContent(chars, hash))
  {
    var h := Home(hash, cap);
    match StopDist(es, cap, ByContent(chars, hash), h, 0)
    case None => None
    case Some(ds) =>
      var s := SlotAt(h, ds, cap);
      if es[s].key != null then Some(Some(s)) else Some(None)
  }

  /** The first n probe steps from h all meet non-empty slots. */
  predicate Occupied(es: seq<Entry>, cap: nat, h: nat, n: nat)
    requires 1 <= cap <= |es| && h < cap && n <= cap
  {
    forall x :: 0 <= x < n ==> !IsEmpty(es[SlotAt(h, x, cap)])
  }

  /** The key in slot i; the table invariants quantify over it. */
  function KeyOf(es: seq<Entry>, i: nat): Str?
    requires i < |es|
  {
    es[i].key
  }

  /** Every key appears in at most one slot. */
  predicate Unique(es: seq<Entry>, cap: nat)
    requires cap <= |es|
  {
    forall i, j {:trigger KeyOf(es, i), KeyOf(es, j)} ::
      0 <= i < cap && 0 <= j < cap && KeyOf(es, i) != null && KeyOf(es, i) == KeyOf(es, j) ==> i == j
  }

  /** The linear-probing invariant: no empty slot lies between a key's home and its slot. */
  predicate ProbeOk(es: seq<Entry>, cap: nat)
    requires 1 <= cap <= |es|
  {
    forall i {:trigger KeyOf(es, i)} :: 0 <= i < cap && KeyOf(es, i) != null ==>
      Occupied(es, cap, Home(es[i].key.hash, cap), Dist(Home(es[i].key.hash, cap), i, cap))
  }

  lemma UniqueAt(es: seq<Entry>, cap: nat, i: nat, j: nat)
    requires cap <= |es| && Unique(es, cap) && i < cap && j < cap && es[i].key != null && es[i].key == es[j].key
    ensures i == j
  {
    assert KeyOf(es, i) == KeyOf(es, j);
  }

  lemma UniqueAll(es: seq<Entry>, cap: nat, i: nat)
    requires cap <= |es| && Unique(es, cap) && i < cap && es[i].key != null
    ensures forall j :: 0 <= j < cap && es[j].key == es[i].key ==> j == i
  {
    forall j | 0 <= j < cap && es[j].key == es[i].key ensures j == i {
      UniqueAt(es, cap, i, j);
    }
  }

  lemma ProbeAt(es: seq<Entry>, cap: nat, i: nat)
    requires 1 <= cap <= |es| && ProbeOk(es, cap) && i < cap && es[i].key != null
    ensures Occupied(es, cap, Home(es[i].key.hash, cap), Dist(Home(es[i].key.hash, cap), i, cap))
  {
    assert KeyOf(es, i) != null;
  }

  /** The invariant of an allocated table of capacity cap (cap + 1 entries, the last never used). */
  predicate Inv(es: seq<Entry>, cap: nat)
  {
    1 <= cap && |es| == cap + 1 && IsEmpty(es[cap]) && Unique(es, cap) && ProbeOk(es, cap)
  }

  predicate HasEmpty(es: seq<Entry>, cap: nat)
    requires cap <= |es|
  {
    exists i :: 0 <= i < cap && IsEmpty(es[i])
  }

  /** The number of non-empty slots (live keys and tombstones) among the first n. */
  function UsedCount(es: seq<Entry>, n: nat): (c: nat)
    requires n <= |es|
    ensures c <= n
  {
    if n == 0 then 0 else UsedCount(es, n - 1) + (if IsEmpty(es[n - 1]) then 0 else 1)
  }

  /** The key/value pairs of the live entries among the first n slots. */
  function MapOf(es: seq<Entry>, n: nat): map<Str, Value>
    requires n <= |es|
  {
    if n == 0 then map[]
    else if es[n - 1].key != null then MapOf(es, n - 1)[es[n - 1].key := es[n - 1].value]
    else MapOf(es, n - 1)
  }

  // ---------------------------------------------------------------------
  // Probing lemmas

  lemma {:induction false} StopDistIs(es: seq<Entry>, cap: nat, t: Target, h: nat, d: nat, n: nat)
    requires 1 <= cap <= |es| && h < cap && d <= n < cap
    requires Passes(es, cap, t, h, d, n) && Stops(es[SlotAt(h, n, cap)], t)
    ensures StopDist(es, cap, t, h, d) == Some(n)
    decreases n - d
  {
    if d < n {
      StopDistIs(es, cap, t, h, d + 1, n);
    }
  }

  /** A probe stops no later than the first empty slot on its path. */
  lemma StopsByEmpty(es: seq<Entry>, cap: nat, t: Target, h: nat, e: nat)
    requires 1 <= cap <= |es| && h < cap && e < cap && IsEmpty(es[e])
    ensures StopDist(es, cap, t, h, 0).Some? && StopDist(es, cap, t, h, 0).value <= Dist(h, e, cap)
  {
    var n := Dist(h, e, cap);
    assert Stops(es[SlotAt(h, n, cap)], t);
  }

  /** find_entry finds a live key at its slot. */
  lemma FindSlotLive(es: seq<Entry>, cap: nat, i: nat)
    requires Inv(es, cap) && i < cap && es[i].key != null
    ensures FindSlot(es, cap, es[i].key) == Some(i)
  {
    var k := es[i].key;
    var h := Home(k.hash, cap);
    var n := Dist(h, i, cap);
    ProbeAt(es, cap, i);
    forall x | 0 <= x < n ensures !Stops(es[SlotAt(h, x, cap)], ByKey(k)) {
      SlotAtInjective(h, x, n, cap);
      if es[SlotAt(h, x, cap)].key == k {
        UniqueAt(es, cap, i, SlotAt(h, x, cap));
      }
    }
    StopDistIs(es, cap, ByKey(k), h, 0, n);
  }

  /**
   * find_entry for a key that is not in the table returns a slot without a
   * key, and every probe step before that slot meets a non-empty slot.
   */
  lemma FindSlotAbsent(es: seq<Entry>, cap: nat, key: Str) returns (j: nat)
    requires Inv(es, cap) && HasEmpty(es, cap)
    requires forall i :: 0 <= i < cap ==> es[i].key != key
    ensures FindSlot(es, cap, key) == Some(j) && es[j].key == null
    ensures Occupied(es, cap, Home(key.hash, cap), Dist(Home(key.hash, cap), j, cap))
  {
    var h := Home(key.hash, cap);
    var e :| 0 <= e < cap && IsEmpty(es[e]);
    StopsByEmpty(es, cap, ByKey(key), h, e);
    var ds := StopDist(es, cap, ByKey(key), h, 0).value;
    var s := SlotAt(h, ds, cap);
    match FirstTomb(es, cap, h, ds)
    case Some(dt) =>
      j := SlotAt(h, dt, cap);
      assert Dist(h, j, cap) == dt;
    case None =>
      j := s;
      assert Dist(h, j, cap) == ds;
  }

  /** find_string meets a key with the given bytes and hash if the table holds one. */
  lemma FindContentComplete(es: seq<Entry>, cap: nat, chars: seq<char>, hash: bv32, i: nat)
    requires Inv(es, cap) && i < cap && es[i].key != null && es[i].key.chars == chars && es[i].key.hash == hash
    ensures FindContent(es, cap, chars, hash).Some? && FindContent(es, cap, chars, hash).value.Some?
  {
    var h := Home(hash, cap);
    var n := Dist(h, i, cap);
    ProbeAt(es, cap, i);
    assert Stops(es[SlotAt(h, n, cap)], ByContent(chars, hash));
  }

  /** With no key among the non-empty slots, find_string stops at an empty slot. */
  lemma FindContentAbsent(es: seq<Entry>, cap: nat, chars: seq<char>, hash: bv32)
    requires Inv(es, cap) && HasEmpty(es, cap)
    requires forall i :: 0 <= i < cap ==> !Matches(es[i], ByContent(chars, hash))
    ensures FindContent(es, cap, chars, hash) == Some(None)
  {
    var e :| 0 <= e < cap && IsEmpty(es[e]);
    StopsByEmpty(es, cap, ByContent(chars, hash), Home(hash, cap), e);
  }

  /** A table with no empty slot and without the key makes find_entry loop forever. */
  lemma FindSlotFullDiverges(es: seq<Entry>, cap: nat, key: Str)
    requires 1 <= cap <= |es|
    requires forall i :: 0 <= i < cap ==> !IsEmpty(es[i]) && es[i].key != key
    ensures FindSlot(es, cap, key) == None
  {
    var h := Home(key.hash, cap);
    var r := StopDist(es, cap, ByKey(key), h, 0);
 }

  // ---------------------------------------------------------------------
  // Counting lemmas

  lemma {:induction false} UsedCountUpdate(es: seq<Entry>, n: nat, j: nat, e: Entry)
    requires j < n <= |es|
    ensures UsedCount(es[j := e], n) ==
      UsedCount(es, n) - (if IsEmpty(es[j]) then 0 else 1) + (if IsEmpty(e) then 0 else 1)
  {
    if j < n - 1 {
      UsedCountUpdate(es, n - 1, j, e);
    } else {
      UsedCountSame(es, es[j := e], n - 1);
    }
  }

  lemma {:induction false} UsedCountSame(a: seq<Entry>, b: seq<Entry>, n: nat)
    requires n <= |a| && n <= |b| && a[..n] == b[..n]
    ensures UsedCount(a, n) == UsedCount(b, n)
  {
    if n > 0 {
      assert a[n - 1] == a[..n][n - 1] == b[..n][n - 1] == b[n - 1];
      assert a[..n - 1] == a[..n][..n - 1];
      assert b[..n - 1] == b[..n][..n - 1];
      UsedCountSame(a, b, n - 1);
    }
  }

  /** Fewer used slots than slots leaves an empty one. */
  lemma {:induction false} UsedCountHasEmpty(es: seq<Entry>, n: nat)
    requires n <= |es| && UsedCount(es, n) < n
    ensures exists i :: 0 <= i < n && IsEmpty(es[i])
  {
    if !IsEmpty(es[n - 1]) {
      UsedCountHasEmpty(es, n - 1);
    }
  }

  /** As many used slots as slots leaves no empty one. */
  lemma {:induction false} UsedCountFull(es: seq<Entry>, n: nat)
    requires n <= |es| && UsedCount(es, n) == n
    ensures forall i :: 0 <= i < n ==> !IsEmpty(es[i])
  {
    if n > 0 {
      UsedCountFull(es, n - 1);
    }
  }

  lemma {:induction false} UsedCountAllEmpty(es: seq<Entry>, n: nat)
    requires n <= |es| && forall i :: 0 <= i < n ==> IsEmpty(es[i])
    ensures UsedCount(es, n) == 0
  {
    if n > 0 {
      UsedCountAllEmpty(es, n - 1);
    }
  }

  // ---------------------------------------------------------------------
  // Map lemmas

  lemma {:induction false} MapOfKeys(es: seq<Entry>, n: nat, k: Str)
    requires n <= |es|
    ensures k in MapOf(es, n) <==> exists i :: 0 <= i < n && es[i].key == k
  {
    if n > 0 {
      MapOfKeys(es, n - 1, k);
    }
  }

  /** Without tombstones, the keys of a table with unique keys are as many as its used slots. */
  lemma {:induction false} LiveKeysCounted(es: seq<Entry>, cap: nat, n: nat)
    requires n <= cap <= |es| && Unique(es, cap) && NoTombs(es, n)
    ensures |MapOf(es, n)| == UsedCount(es, n)
  {
    if n > 0 {
      LiveKeysCounted(es, cap, n - 1);
      var k := es[n - 1].key;
      if k != null {
        var key: Str := k;
        MapOfKeys(es, n - 1, key);
        forall i | 0 <= i < n - 1
          ensures es[i].key != key
        {
          assert KeyOf(es, i) != KeyOf(es, n - 1);
        }
        var m := MapOf(es, n - 1);
        assert MapOf(es, n).Keys == m.Keys + {key} && key !in m.Keys;
      } else {
        assert !IsTomb(es[n - 1]);
      }
    }
  }

  lemma {:induction false} MapOfValue(es: seq<Entry>, n: nat, i: nat)
    requires i < n <= |es| && es[i].key != null
    requires forall j :: 0 <= j < n && es[j].key == es[i].key ==> j == i
    ensures es[i].key in MapOf(es, n) && MapOf(es, n)[es[i].key] == es[i].value
  {
    if i < n - 1 {
      MapOfValue(es, n - 1, i);
    }
  }

  lemma {:induction false} MapOfSame(a: seq<Entry>, b: seq<Entry>, n: nat)
    requires n <= |a| && n <= |b| && forall i :: 0 <= i < n ==> a[i] == b[i]
    ensures MapOf(a, n) == MapOf(b, n)
  {
    if n > 0 {
      MapOfSame(a, b, n - 1);
    }
  }

  /** Storing key at slot j, where no other slot holds key, maps key to the new value. */
  lemma {:induction false} MapOfStore(es: seq<Entry>, n: nat, j: nat, key: Str, v: Value)
    requires j < n <= |es| && (es[j].key == null || es[j].key == key)
    requires forall i :: 0 <= i < n && i != j ==> es[i].key != key
    ensures MapOf(es[j := Entry(key, v)], n) == MapOf(es, n)[key := v]
  {
    var es' := es[j := Entry(key, v)];
    if j < n - 1 {
      MapOfStore(es, n - 1, j, key, v);
      if es[n - 1].key != null {
        assert es[n - 1].key != key;
      }
    } else {
      MapOfSame(es, es', n - 1);
      if es[j].key == key {
        MapOfKeys(es, n - 1, key);
      }
    }
  }

  /** Replacing the only slot with key by a tombstone removes key. */
  lemma {:induction false} MapOfRemove(es: seq<Entry>, n: nat, j: nat)
    requires j < n <= |es| && es[j].key != null
    requires forall i :: 0 <= i < n && i != j ==> es[i].key != es[j].key
    ensures MapOf(es[j := TOMBSTONE], n) == MapOf(es, n) - {es[j].key}
  {
    var key := es[j].key;
    var es' := es[j := TOMBSTONE];
    if j < n - 1 {
      MapOfRemove(es, n - 1, j);
      if es[n - 1].key != null {
        assert es[n - 1].key != key;
      }
    } else {
      MapOfSame(es, es', n - 1);
      MapOfKeys(es, n - 1, key);
    }
  }

  lemma MapOfEmpty(es: seq<Entry>, n: nat)
    requires n <= |es| && forall i :: 0 <= i < n ==> IsEmpty(es[i])
    ensures MapOf(es, n) == map[]
  {
    if n > 0 {
      MapOfEmpty(es, n - 1);
    }
  }

  // ---------------------------------------------------------------------
  // Invariant preservation

  /** Writing a key into the slot find_entry returned keeps the invariant. */
  lemma StorePreserves(es: seq<Entry>, cap: nat, key: Str, v: Value, j: nat)
    requires Inv(es, cap) && j < cap && (es[j].key == null || es[j].key == key)
    requires es[j].key == key || forall i :: 0 <= i < cap ==> es[i].key != key
    requires es[j].key == null ==> Occupied(es, cap, Home(key.hash, cap), Dist(Home(key.hash, cap), j, cap))
    ensures Inv(es[j := Entry(key, v)], cap)
  {
    var es' := es[j := Entry(key, v)];
    forall i | 0 <= i < cap && KeyOf(es', i) != null
      ensures Occupied(es', cap, Home(es'[i].key.hash, cap), Dist(Home(es'[i].key.hash, cap), i, cap))
    {
      var h := Home(es'[i].key.hash, cap);
      if i == j && es[j].key != null {
        ProbeAt(es, cap, j);
      } else if i != j {
        ProbeAt(es, cap, i);
      }
      forall x | 0 <= x < Dist(h, i, cap) ensures !IsEmpty(es'[SlotAt(h, x, cap)]) {
        assert !IsEmpty(es[SlotAt(h, x, cap)]);
      }
    }
    forall a, b | 0 <= a < cap && 0 <= b < cap && KeyOf(es', a) != null && KeyOf(es', a) == KeyOf(es', b)
      ensures a == b
    {
      if a != j && b != j {
        UniqueAt(es, cap, a, b);
      } else if a == j && b != j && es[j].key == key {
        UniqueAt(es, cap, a, b);
      } else if b == j && a != j && es[j].key == key {
        UniqueAt(es, cap, a, b);
      }
    }
  }

  /** Turning a live slot into a tombstone keeps the invariant. */
  lemma RemovePreserves(es: seq<Entry>, cap: nat, j: nat)
    requires Inv(es, cap) && j < cap && es[j].key != null
    ensures Inv(es[j := TOMBSTONE], cap)
  {
    var es' := es[j := TOMBSTONE];
    forall i | 0 <= i < cap && KeyOf(es', i) != null
      ensures Occupied(es', cap, Home(es'[i].key.hash, cap), Dist(Home(es'[i].key.hash, cap), i, cap))
    {
      var h := Home(es'[i].key.hash, cap);
      ProbeAt(es, cap, i);
      forall x | 0 <= x < Dist(h, i, cap) ensures !IsEmpty(es'[SlotAt(h, x, cap)]) {
        assert !IsEmpty(es[SlotAt(h, x, cap)]);
      }
    }
    forall a, b | 0 <= a < cap && 0 <= b < cap && KeyOf(es', a) != null && KeyOf(es', a) == KeyOf(es', b)
      ensures a == b
    {
      UniqueAt(es, cap, a, b);
    }
  }

  /** A freshly allocated entry array (all slots empty) satisfies the invariant and holds nothing. */
  lemma EmptyInv(es: seq<Entry>, cap: nat)
    requires 1 <= cap && |es| == cap + 1 && forall i :: 0 <= i <= cap ==> IsEmpty(es[i])
    ensures Inv(es, cap) && UsedCount(es, cap) == 0 && MapOf(es, cap) == map[]
  {
    UsedCountAllEmpty(es, cap);
    MapOfEmpty(es, cap);
  }

  /** No slot among the first n holds a tombstone. */
  predicate NoTombs(es: seq<Entry>, n: nat)
    requires n <= |es|
  {
    forall i :: 0 <= i < n ==> !IsTomb(es[i])
  }

  /** The facts lit_table_set needs about the slot find_entry returns. */
  lemma SetSlot(es: seq<Entry>, cap: nat, key: Str) returns (j: nat)
    requires Inv(es, cap) && UsedCount(es, cap) < cap
    ensures FindSlot(es, cap, key) == Some(j)
    ensures es[j].key == key <==> key in MapOf(es, cap)
    ensures forall i :: 0 <= i < cap && i != j ==> es[i].key != key
    ensures es[j].key == null ==> Occupied(es, cap, Home(key.hash, cap), Dist(Home(key.hash, cap), j, cap))
  {
    MapOfKeys(es, cap, key);
    if i :| 0 <= i < cap && es[i].key == key {
      FindSlotLive(es, cap, i);
      UniqueAll(es, cap, i);
      j := i;
    } else {
      UsedCountHasEmpty(es, cap);
      j := FindSlotAbsent(es, cap, key);
    }
  }

  /** The facts lit_table_get and lit_table_delete need: the slot holds key exactly when key is present. */
  lemma LookupSlot(es: seq<Entry>, cap: nat, key: Str) returns (j: nat)
    requires Inv(es, cap) && UsedCount(es, cap) < cap
    ensures FindSlot(es, cap, key) == Some(j)
    ensures es[j].key != null <==> key in MapOf(es, cap)
    ensures es[j].key != null ==> es[j].key == key && MapOf(es, cap)[key] == es[j].value
    ensures forall i :: 0 <= i < cap && i != j ==> es[i].key != key
  {
    j := SetSlot(es, cap, key);
    if es[j].key != null {
      UniqueAll(es, cap, j);
      MapOfValue(es, cap, j);
    }
  }

  /** With no keys present, the table maps nothing. */
  lemma NothingUsed(es: seq<Entry>, cap: nat)
    requires Inv(es, cap) && UsedCount(es, cap) == 0
    ensures MapOf(es, cap) == map[]
    ensures forall i :: 0 <= i <= cap ==> IsEmpty(es[i])
  {
    forall i | 0 <= i < cap ensures IsEmpty(es[i]) {
      UsedCountNoneUsed(es, cap, i);
    }
    MapOfEmpty(es, cap);
  }

  lemma {:induction false} UsedCountNoneUsed(es: seq<Entry>, n: nat, i: nat)
    requires i < n <= |es| && UsedCount(es, n) == 0
    ensures IsEmpty(es[i])
  {
    if i < n - 1 {
      UsedCountNoneUsed(es, n - 1, i);
    }
  }

  /** A key of the old entries at slot i is not among those copied from the slots before i. */
  lemma NotYetCopied(nes: seq<Entry>, ncap: nat, oes: seq<Entry>, ocap: nat, i: nat)
    requires Inv(oes, ocap) && i <= ocap && oes[i].key != null
    requires ncap <= |nes| && MapOf(nes, ncap) == MapOf(oes, i)
    ensures forall k :: 0 <= k < ncap ==> nes[k].key != oes[i].key
  {
    var key := oes[i].key;
    UniqueAll(oes, ocap, i);
    MapOfKeys(nes, ncap, key);
    MapOfKeys(oes, i, key);
  }

  /** One step of adjust_capacity: copying a live entry into the new entries, which hold no tombstones. */
  lemma RehashStep(nes: seq<Entry>, ncap: nat, oes: seq<Entry>, ocap: nat, i: nat) returns (j: nat)
    requires Inv(oes, ocap) && i <= ocap && oes[i].key != null
    requires Inv(nes, ncap) && NoTombs(nes, ncap) && UsedCount(nes, ncap) < ncap
    requires MapOf(nes, ncap) == MapOf(oes, i)
    ensures FindSlot(nes, ncap, oes[i].key) == Some(j) && IsEmpty(nes[j])
    ensures var nes' := nes[j := oes[i]];
      Inv(nes', ncap) && NoTombs(nes', ncap) && UsedCount(nes', ncap) == UsedCount(nes, ncap) + 1 &&
      MapOf(nes', ncap) == MapOf(oes, i + 1)
  {
    var key := oes[i].key;
    NotYetCopied(nes, ncap, oes, ocap, i);
    UsedCountHasEmpty(nes, ncap);
    j := FindSlotAbsent(nes, ncap, key);
    StorePreserves(nes, ncap, key, oes[i].value, j);
    UsedCountUpdate(nes, ncap, j, oes[i]);
    MapOfStore(nes, ncap, j, key, oes[i].value);
  }

  /** The load-factor test of lit_table_set: count + 1 > (capacity + 1) * 0.75, exact in doubles. */
  predicate Grows(count: int, capacity: int)
  {
    4 * (count + 1) > 3 * (capacity + 1)
  }

  /** What a call does: returns a result, or never returns. */
  datatype Outcome<T> = Returns(result: T) | Hangs

  /** The entries and count lit_table_set leaves when it does not grow the table. */
  function StoreRaw(es: seq<Entry>, cap: nat, count: nat, key: Str, value: Value): Outcome<(seq<Entry>, nat)>
    requires 1 <= cap <= |es|
  {
    match FindSlot(es, cap, key)
    case None => Hangs
    case Some(j) => Returns((es[j := Entry(key, value)], if IsEmpty(es[j]) then count + 1 else count))
  }

  /** What lit_table_get answers on given entries and count. */
  function LookupRaw(es: seq<Entry>, cap: int, count: nat, key: Str): Outcome<Option<Value>>
    requires count == 0 || 1 <= cap <= |es|
  {
    if count == 0 then Returns(None)
    else
      match FindSlot(es, cap, key)
      case None => Hangs
      case Some(j) => Returns(if es[j].key == null then None else Some(es[j].value))
  }

  /** The new state of an allocated table after lit_table_set stores key in the slot find_entry returned. */
  lemma StoreStep(es: seq<Entry>, cap: nat, key: Str, value: Value) returns (j: nat)
    requires Inv(es, cap) && UsedCount(es, cap) < cap
    ensures FindSlot(es, cap, key) == Some(j)
    ensures (es[j].key == null) <==> key !in MapOf(es, cap)
    ensures var es' := es[j := Entry(key, value)];
      Inv(es', cap) && MapOf(es', cap) == MapOf(es, cap)[key := value] &&
      UsedCount(es', cap) == if IsEmpty(es[j]) then UsedCount(es, cap) + 1 else UsedCount(es, cap)
  {
    j := SetSlot(es, cap, key);
    StorePreserves(es, cap, key, value, j);
    UsedCountUpdate(es, cap, j, Entry(key, value));
    MapOfStore(es, cap, j, key, value);
  }

  /** The entries with key's slot, if any, turned into a tombstone. */
  function Without(es: seq<Entry>, key: Str): (r: seq<Entry>)
    ensures |r| == |es|
  {
    seq(|es|, i requires 0 <= i < |es| => if es[i].key == key then TOMBSTONE else es[i])
  }

  /** The new state after lit_table_delete turns key's slot into a tombstone. */
  lemma RemoveStep(es: seq<Entry>, cap: nat, key: Str) returns (j: nat)
    requires Inv(es, cap) && UsedCount(es, cap) < cap
    ensures FindSlot(es, cap, key) == Some(j)
    ensures (es[j].key != null) <==> key in MapOf(es, cap)
    ensures es[j].key != null ==> var es' := es[j := TOMBSTONE];
      Inv(es', cap) && MapOf(es', cap) == MapOf(es, cap) - {key} && UsedCount(es', cap) == UsedCount(es, cap)
    ensures es[j].key == null ==> MapOf(es, cap) - {key} == MapOf(es, cap) && Without(es, key) == es
    ensures es[j].key != null ==> Without(es, key) == es[j := TOMBSTONE]
  {
    j := LookupSlot(es, cap, key);
    if es[j].key != null {
      RemovePreserves(es, cap, j);
      UsedCountUpdate(es, cap, j, TOMBSTONE);
      MapOfRemove(es, cap, j);
    }
  }

  /** The slot of the first tombstone among the first d probe steps from h. */
  function TombSlot(es: seq<Entry>, cap: nat, h: nat, d: nat): Option<nat>
    requires 1 <= cap <= |es| && h < cap && d <= cap
  {
    match FirstTomb(es, cap, h, d)
    case None => None
    case Some(x) => Some(SlotAt(h, x, cap))
  }

  /** A probe that does not stop at step d goes on to step d + 1, recording a first tombstone. */
  lemma ProbeStep(es: seq<Entry>, cap: nat, t: Target, h: nat, d: nat)
    requires 1 <= cap <= |es| && h < cap && d < cap
    requires StopDist(es, cap, t, h, 0) == StopDist(es, cap, t, h, d) && StopDist(es, cap, t, h, 0).Some?
    requires !Stops(es[SlotAt(h, d, cap)], t)
    ensures d + 1 < cap && StopDist(es, cap, t, h, 0) == StopDist(es, cap, t, h, d + 1)
    ensures TombSlot(es, cap, h, d + 1) ==
      if TombSlot(es, cap, h, d).None? && IsTomb(es[SlotAt(h, d, cap)]) then Some(SlotAt(h, d, cap))
      else TombSlot(es, cap, h, d)
  {
  }

  /** The probe's index update (index + 1) % capacity walks the probe sequence. */
  lemma NextSlot(h: nat, d: nat, cap: nat)
    requires h < cap && d + 1 < cap
    ensures (SlotAt(h, d, cap) + 1) % cap == SlotAt(h, d + 1, cap)
  {
    var i := SlotAt(h, d, cap);
    if i + 1 == cap {
      assert (i + 1) % cap == 0;
    } else {
      assert (i + 1) % cap == i + 1;
    }
  }

  /** Where find_entry's probe stops at step d, it returns the first tombstone or the slot itself. */
  lemma ProbeEnd(es: seq<Entry>, cap: nat, key: Str, d: nat)
    requires 1 <= cap <= |es| && d < cap
    requires var h := Home(key.hash, cap);
      StopDist(es, cap, ByKey(key), h, 0) == StopDist(es, cap, ByKey(key), h, d) &&
      Stops(es[SlotAt(h, d, cap)], ByKey(key))
    ensures var h := Home(key.hash, cap); var s := SlotAt(h, d, cap);
      FindSlot(es, cap, key) ==
        if es[s].key == key then Some(s)
        else if TombSlot(es, cap, h, d).Some? then TombSlot(es, cap, h, d) else Some(s)
  {
  }

  /** Where find_string's probe stops at step d, it returns that slot's key or nothing. */
  lemma ContentEnd(es: seq<Entry>, cap: nat, chars: seq<char>, hash: bv32, d: nat)
    requires 1 <= cap <= |es| && d < cap
    requires var h := Home(hash, cap);
      StopDist(es, cap, ByContent(chars, hash), h, 0) == StopDist(es, cap, ByContent(chars, hash), h, d) &&
      Stops(es[SlotAt(h, d, cap)], ByContent(chars, hash))
    ensures var s := SlotAt(Home(hash, cap), d, cap);
      FindContent(es, cap, chars, hash) == Some(if es[s].key != null then Some(s) else None)
  {
  }

  /** find_string's answer on an allocated table: a present key with those bytes and hash, or none exists. */
  lemma ContentResult(es: seq<Entry>, cap: nat, chars: seq<char>, hash: bv32)
    requires Inv(es, cap) && UsedCount(es, cap) < cap
    ensures FindContent(es, cap, chars, hash).Some?
    ensures FindContent(es, cap, chars, hash) == Some(None) ==>
      forall k :: k in MapOf(es, cap) ==> !(k.chars == chars && k.hash == hash)
    ensures FindContent(es, cap, chars, hash).value.Some? ==>
      es[FindContent(es, cap, chars, hash).value.value].key in MapOf(es, cap)
  {
    UsedCountHasEmpty(es, cap);
    var e :| 0 <= e < cap && IsEmpty(es[e]);
    StopsByEmpty(es, cap, ByContent(chars, hash), Home(hash, cap), e);
    forall k | k in MapOf(es, cap) && k.chars == chars && k.hash == hash
      ensures FindContent(es, cap, chars, hash).value.Some?
    {
      MapOfKeys(es, cap, k);
      var i :| 0 <= i < cap && es[i].key == k;
      FindContentComplete(es, cap, chars, hash, i);
    }
    var r := FindContent(es, cap, chars, hash).value;
    if r.Some? {
      MapOfKeys(es, cap, es[r.value].key);
    }
  }

  /** The entry lit_table_remove_white leaves in a slot: unmarked keys become tombstones. */
  function Swept(e: Entry): Entry
    reads e.key
  {
    if e.key != null && !e.key.marked then TOMBSTONE else e
  }

  /** One deletion of lit_table_remove_white sweeps one more slot. */
  lemma SweepStep(es: seq<Entry>, oes: seq<Entry>, cap: nat, i: nat)
    requires Inv(oes, cap) && |es| == |oes| && i <= cap && oes[i].key != null && !oes[i].key.marked
    requires forall j :: 0 <= j < |es| ==> es[j] == if j < i then Swept(oes[j]) else oes[j]
    ensures forall j :: 0 <= j < |es| ==> Without(es, oes[i].key)[j] == if j < i + 1 then Swept(oes[j]) else oes[j]
  {
    UniqueAll(oes, cap, i);
  }

  /** Sweeping every slot keeps exactly the marked keys... */
  lemma SweepKeys(es: seq<Entry>, oes: seq<Entry>, cap: nat, k: Str)
    requires cap <= |oes| == |es| && forall j :: 0 <= j < cap ==> es[j] == Swept(oes[j])
    ensures k in MapOf(es, cap) <==> k in MapOf(oes, cap) && k.marked
  {
    MapOfKeys(es, cap, k);
    MapOfKeys(oes, cap, k);
    if k in MapOf(oes, cap) && k.marked {
      var i :| 0 <= i < cap && oes[i].key == k;
      assert es[i].key == k;
    }
  }

  /** ...with their values. */
  lemma SweepValue(es: seq<Entry>, oes: seq<Entry>, cap: nat, i: nat)
    requires Inv(oes, cap) && |es| == |oes| && forall j :: 0 <= j < cap ==> es[j] == Swept(oes[j])
    requires i < cap && oes[i].key != null && oes[i].key.marked
    ensures oes[i].key in MapOf(oes, cap) && oes[i].key in MapOf(es, cap)
    ensures MapOf(es, cap)[oes[i].key] == MapOf(oes, cap)[oes[i].key]
  {
    UniqueAll(oes, cap, i);
    MapOfValue(oes, cap, i);
    assert es[i] == oes[i];
    forall j | 0 <= j < cap && es[j].key == es[i].key ensures j == i {
      assert oes[j].key == es[j].key;
    }
    MapOfValue(es, cap, i);
  }

  lemma SweepContents(es: seq<Entry>, oes: seq<Entry>, cap: nat)
    requires Inv(oes, cap) && |es| == |oes| && forall j :: 0 <= j < cap ==> es[j] == Swept(oes[j])
    ensures forall k :: k in MapOf(es, cap) <==> k in MapOf(oes, cap) && k.marked
    ensures forall k :: k in MapOf(es, cap) ==> MapOf(es, cap)[k] == MapOf(oes, cap)[k]
  {
    forall k ensures k in MapOf(es, cap) <==> k in MapOf(oes, cap) && k.marked {
      SweepKeys(es, oes, cap, k);
    }
    forall k | k in MapOf(es, cap) ensures k in MapOf(oes, cap) && MapOf(es, cap)[k] == MapOf(oes, cap)[k] {
      SweepKeys(es, oes, cap, k);
      MapOfKeys(oes, cap, k);
      var i :| 0 <= i < cap && oes[i].key == k;
      SweepValue(es, oes, cap, i);
    }
  }

  lemma UnionStore<K, V>(a: map<K, V>, b: map<K, V>, k: K, v: V)
    ensures (a + b)[k := v] == a + b[k := v]
  {
  }

  /** LitTable */
  class Table {
    var capacity: int
    var count: nat
    var entries: array<Entry>

    /** capacity -1 means no entries yet; otherwise count is live entries plus tombstones and leaves an empty slot. */
    ghost predicate Valid()
      reads this, entries
    {
      entries.Length == capacity + 1 && capacity >= -1 &&
      (capacity == -1 ==> count == 0) &&
      (capacity != -1 ==>
        capacity >= 7 && Inv(entries[..], capacity) &&
        count == UsedCount(entries[..], capacity) && count < capacity)
    }

    /** The key/value pairs the table holds. */
    ghost function Contents(): map<Str, Value>
      reads this, entries
      requires Valid()
    {
      if capacity == -1 then map[] else MapOf(entries[..], capacity)
    }

    /** lit_init_table */
    constructor ()
      ensures Valid() && Contents() == map[] && capacity == -1 && count == 0 && fresh(entries)
    {
      capacity := -1;
      count := 0;
      entries := new Entry[0];
    }

    /** lit_free_table: the entries go and the table is empty again. */
    method Free()
      modifies this
      ensures Valid() && Contents() == map[] && capacity == -1 && count == 0
    {
      capacity := -1;
      count := 0;
      entries := new Entry[0];
    }

    /** find_entry: the linear probe from the key's home slot. */
    static method FindEntry(entries: array<Entry>, capacity: nat, key: Str) returns (j: nat)
      requires 1 <= capacity < entries.Length
      requires FindSlot(entries[..], capacity, key).Some?
      ensures FindSlot(entries[..], capacity, key) == Some(j)
    {
      ghost var es := entries[..];
      ghost var h := Home(key.hash, capacity);
      var index: nat := (key.hash as int) % capacity;
      var tombstone: Option<nat> := None;
      ghost var d: nat := 0;
      while true
        invariant d < capacity && index == SlotAt(h, d, capacity)
        invariant StopDist(es, capacity, ByKey(key), h, 0) == StopDist(es, capacity, ByKey(key), h, d)
        invariant tombstone == TombSlot(es, capacity, h, d)
        decreases capacity - d
      {
        var entry := entries[index];
        if entry.key == null {
          if entry.value == NULL_VALUE {
            ProbeEnd(es, capacity, key, d);
            return if tombstone.Some? then tombstone.value else index;
          } else if tombstone.None? {
            tombstone := Some(index);
          }
        }
        if entry.key == key {
          ProbeEnd(es, capacity, key, d);
          return index;
        }
        ProbeStep(es, capacity, ByKey(key), h, d);
        NextSlot(h, d, capacity);
        index := (index + 1) % capacity;
        d := d + 1;
      }
    }

    /** adjust_capacity: every live entry is copied into fresh, larger entries. */
    method AdjustCapacity(newCapacity: nat)
      requires Valid() && newCapacity >= 7 && newCapacity > capacity
      modifies this
      ensures Valid() && Contents() == old(Contents())
      ensures capacity == newCapacity && fresh(entries) && (count == 0 || count <= old(capacity))
      ensures NoTombs(entries[..], capacity) && count == |Contents()|
    {
      var ne := new Entry[newCapacity + 1](_ => EMPTY);
      EmptyInv(ne[..], newCapacity);
      count := 0;
      count := CopyLive(entries, capacity, ne, newCapacity);
      ghost var nes := ne[..];
      assert MapOf(nes, newCapacity) == old(Contents());
      LiveKeysCounted(nes, newCapacity, newCapacity);
      capacity := newCapacity;
      entries := ne;
      assert entries[..] == nes;
    }

    /** One copy of adjust_capacity: the live entry at slot i of the old entries goes where find_entry puts it. */
    static method CopyEntry(to: array<Entry>, toCap: nat, entry: Entry, ghost oes: seq<Entry>, ghost fromCap: nat, ghost i: nat)
      requires Inv(oes, fromCap) && i <= fromCap && oes[i] == entry && entry.key != null
      requires to.Length == toCap + 1 && Inv(to[..], toCap) && NoTombs(to[..], toCap)
      requires UsedCount(to[..], toCap) < toCap && MapOf(to[..], toCap) == MapOf(oes, i)
      modifies to
      ensures Inv(to[..], toCap) && NoTombs(to[..], toCap)
      ensures UsedCount(to[..], toCap) == old(UsedCount(to[..], toCap)) + 1 && MapOf(to[..], toCap) == MapOf(oes, i + 1)
    {
      ghost var j := RehashStep(to[..], toCap, oes, fromCap, i);
      var destination := FindEntry(to, toCap, entry.key);
      to[destination] := entry;
    }

    /** The copying loop of adjust_capacity: the live entries of from go into the empty to. */
    static method CopyLive(from: array<Entry>, fromCap: int, to: array<Entry>, toCap: nat) returns (n: nat)
      requires from != to && from.Length == fromCap + 1 && fromCap >= -1 && fromCap < toCap
      requires fromCap != -1 ==> Inv(from[..], fromCap)
      requires to.Length == toCap + 1 && Inv(to[..], toCap) && NoTombs(to[..], toCap)
      requires UsedCount(to[..], toCap) == 0 && MapOf(to[..], toCap) == map[]
      modifies to
      ensures Inv(to[..], toCap) && NoTombs(to[..], toCap) && n == UsedCount(to[..], toCap) && (n == 0 || n <= fromCap)
      ensures MapOf(to[..], toCap) == if fromCap == -1 then map[] else MapOf(from[..], fromCap)
    {
      ghost var oes := from[..];
      n := 0;
      var i := 0;
      while i <= fromCap
        invariant 0 <= i <= fromCap + 1 && n <= i && (i == fromCap + 1 ==> n == 0 || n <= fromCap)
        invariant Inv(to[..], toCap) && NoTombs(to[..], toCap)
        invariant n == UsedCount(to[..], toCap) && MapOf(to[..], toCap) == MapOf(oes, i)
      {
        var entry := from[i];
        if entry.key != null {
          CopyEntry(to, toCap, entry, oes, fromCap, i);
          n := n + 1;
        }
        i := i + 1;
      }
      if fromCap != -1 {
        assert MapOf(oes, fromCap + 1) == MapOf(oes, fromCap);
      }
    }

    /** lit_table_set: grows first when the load factor would pass 0.75; true when key was not present. */
    method Set(key: Str, value: Value) returns (isNew: bool)
      requires Valid()
      modifies this, entries
      ensures Valid() && Contents() == old(Contents())[key := value]
      ensures isNew <==> key !in old(Contents())
      ensures key in old(Contents()) ==>
        if Grows(old(count), old(capacity)) then count == 0 || count <= old(capacity) else count == old(count)
      ensures Grows(old(count), old(capacity)) ==> capacity == GrowCapacity(old(capacity) + 1) - 1 && fresh(entries)
      ensures !Grows(old(count), old(capacity)) ==>
        capacity == old(capacity) && entries == old(entries) &&
        StoreRaw(old(entries[..]), capacity, old(count), key, value) == Returns((entries[..], count))
    {
      if 4 * (count + 1) > 3 * (capacity + 1) {
        var newCapacity := GrowCapacity(capacity + 1) - 1;
        AdjustCapacity(newCapacity);
      }
      isNew := Store(key, value);
    }

    /** The rest of lit_table_set, once the table has room: key goes into the slot find_entry returns. */
    method Store(key: Str, value: Value) returns (isNew: bool)
      requires Valid() && capacity >= 7 && count + 1 < capacity
      modifies this`count, entries
      ensures Valid() && Contents() == old(Contents())[key := value]
      ensures isNew <==> key !in old(Contents())
      ensures StoreRaw(old(entries[..]), capacity, old(count), key, value) == Returns((entries[..], count))
      ensures key in old(Contents()) ==> count == old(count)
    {
      ghost var es := entries[..];
      ghost var j0 := StoreStep(es, capacity, key, value);
      var j := FindEntry(entries, capacity, key);
      var entry := entries[j];
      isNew := entry.key == null;
      if isNew && entry.value == NULL_VALUE {
        count := count + 1;
      }
      entries[j] := Entry(key, value);
      assert entries[..] == es[j := Entry(key, value)];
    }

    /** lit_table_get */
    method Get(key: Str) returns (r: Option<Value>)
      requires Valid()
      ensures r == if key in Contents() then Some(Contents()[key]) else None
      ensures LookupRaw(entries[..], capacity, count, key) == Returns(r)
    {
      if count == 0 {
        if capacity != -1 {
          NothingUsed(entries[..], capacity);
        }
        return None;
      }
      ghost var j0 := LookupSlot(entries[..], capacity, key);
      var j := FindEntry(entries, capacity, key);
      var entry := entries[j];
      if entry.key == null {
        return None;
      }
      return Some(entry.value);
    }

    /** lit_table_get_slot: the index of the entry whose value slot holds key's value. */
    method GetSlot(key: Str) returns (r: Option<nat>)
      requires Valid()
      ensures r.Some? <==> key in Contents()
      ensures r.Some? ==> r.value < capacity && entries[r.value] == Entry(key, Contents()[key])
    {
      if count == 0 {
        if capacity != -1 {
          NothingUsed(entries[..], capacity);
        }
        return None;
      }
      ghost var j0 := LookupSlot(entries[..], capacity, key);
      var j := FindEntry(entries, capacity, key);
      if entries[j].key == null {
        return None;
      }
      return Some(j);
    }

    /** lit_table_delete: the entry becomes a tombstone; false when key was not present. */
    method Delete(key: Str) returns (removed: bool)
      requires Valid()
      modifies entries
      ensures Valid() && Contents() == old(Contents()) - {key}
      ensures removed <==> key in old(Contents())
      ensures count == old(count)
      ensures entries[..] == Without(old(entries[..]), key)
    {
      if count == 0 {
        if capacity != -1 {
          NothingUsed(entries[..], capacity);
        }
        return false;
      }
      removed := Remove(key);
    }

    /** The part of lit_table_delete after the empty-table test. */
    method Remove(key: Str) returns (removed: bool)
      requires Valid() && count > 0
      modifies entries
      ensures Valid() && Contents() == old(Contents()) - {key}
      ensures removed <==> key in old(Contents())
      ensures entries[..] == Without(old(entries[..]), key)
    {
      ghost var es := entries[..];
      ghost var j0 := RemoveStep(es, capacity, key);
      var j := FindEntry(entries, capacity, key);
      if entries[j].key == null {
        return false;
      }
      entries[j] := TOMBSTONE;
      assert entries[..] == es[j := TOMBSTONE];
      return true;
    }

    /** lit_table_find_string: the interned string with these bytes and hash, if any. */
    method FindString(chars: seq<char>, hash: bv32) returns (r: Str?)
      requires Valid()
      ensures r != null ==> r in Contents() && r.chars == chars && r.hash == hash
      ensures r == null ==> forall k :: k in Contents() ==> !(k.chars == chars && k.hash == hash)
    {
      if count == 0 {
        if capacity != -1 {
          NothingUsed(entries[..], capacity);
        }
        return null;
      }
      ContentResult(entries[..], capacity, chars, hash);
      var slot := FindStringSlot(entries, capacity, chars, hash);
      r := if slot.Some? then entries[slot.value].key else null;
    }

    /** The probe loop of lit_table_find_string. */
    static method FindStringSlot(entries: array<Entry>, capacity: nat, chars: seq<char>, hash: bv32) returns (r: Option<nat>)
      requires 1 <= capacity < entries.Length
      requires FindContent(entries[..], capacity, chars, hash).Some?
      ensures FindContent(entries[..], capacity, chars, hash) == Some(r)
    {
      ghost var es := entries[..];
      ghost var h := Home(hash, capacity);
      var index: nat := (hash as int) % capacity;
      ghost var d: nat := 0;
      while true
        invariant d < capacity && index == SlotAt(h, d, capacity)
        invariant StopDist(es, capacity, ByContent(chars, hash), h, 0) == StopDist(es, capacity, ByContent(chars, hash), h, d)
        decreases capacity - d
      {
        var entry := entries[index];
        if entry.key == null {
          if entry.value == NULL_VALUE {
            ContentEnd(es, capacity, chars, hash, d);
            return None;
          }
        } else if |entry.key.chars| == |chars| && entry.key.hash == hash && entry.key.chars == chars {
          ContentEnd(es, capacity, chars, hash, d);
          return Some(index);
        }
        ProbeStep(es, capacity, ByContent(chars, hash), h, d);
        NextSlot(h, d, capacity);
        index := (index + 1) % capacity;
        d := d + 1;
      }
    }

    /**
     * lit_table_add_all: every pair of from is set into this table,
     * overriding equal keys. A table added to itself stays as it is.
     */
    method AddAll(from: Table)
      requires Valid() && from.Valid() && (from != this ==> from.entries != entries)
      modifies this, entries
      ensures Valid() && Contents() == old(Contents()) + old(from.Contents())
    {
      if from == this {
        AddOwn();
        return;
      }
      ghost var fes := from.entries[..];
      AddEntries(from.entries, from.capacity);
      if from.capacity != -1 {
        assert MapOf(fes, from.capacity + 1) == MapOf(fes, from.capacity);
      }
    }

    /**
     * The loop of lit_table_add_all with from and to the same table. It
     * reads the entries and the capacity afresh on each round, so after
     * a set that grows the table it goes on over the new entries; each
     * key it finds is already there with the value it sets, so nothing
     * changes. Such a growth happens at most once, as no set adds a key.
     */
    method AddOwn()
      requires Valid()
      modifies this, entries
      ensures Valid() && Contents() == old(Contents())
    {
      ghost var start := Contents();
      var i := 0;
      while i <= capacity
        invariant 0 <= i && Valid() && Contents() == start && (entries == old(entries) || fresh(entries))
        decreases if Grows(count, capacity) then 1 else 0, capacity + 1 - i
      {
        OwnRound(i);
        i := i + 1;
      }
    }

    /** One round of AddOwn: the pair at slot i, if any, set again. */
    method OwnRound(i: nat)
      requires Valid() && i <= capacity
      modifies this, entries
      ensures Valid() && Contents() == old(Contents()) && (entries == old(entries) || fresh(entries))
      ensures (capacity == old(capacity) && count == old(count)) || (old(Grows(count, capacity)) && !Grows(count, capacity))
    {
      var entry := entries[i];
      if entry.key != null {
        OwnEntry(i);
        ghost var before := (count, capacity);
        assert entry.key in Contents();
        var _ := Set(entry.key, entry.value);
        if Grows(before.0, before.1) {
          assert before.1 >= 7 && capacity + 1 == 2 * (before.1 + 1);
          assert count == 0 || count <= before.1;
          assert 4 * (count + 1) <= 3 * (capacity + 1);
        }
      }
    }

    /** A live entry of a table holds its key's value. */
    lemma OwnEntry(i: nat)
      requires Valid() && i < capacity && entries[i].key != null
      ensures entries[i].key in Contents() && Contents()[entries[i].key] == entries[i].value
    {
      UniqueAll(entries[..], capacity, i);
      MapOfValue(entries[..], capacity, i);
    }

    /** The loop of lit_table_add_all over the first n + 1 entries of source. */
    method AddEntries(source: array<Entry>, n: int)
      requires Valid() && source != entries && -1 <= n < source.Length
      modifies this, entries
      ensures Valid() && Contents() == old(Contents()) + MapOf(source[..], n + 1)
    {
      ghost var start := Contents();
      var i := 0;
      while i <= n
        invariant 0 <= i <= n + 1
        invariant Valid() && (entries == old(entries) || fresh(entries)) && entries != source
        invariant Contents() == start + MapOf(source[..], i)
      {
        var entry := source[i];
        if entry.key != null {
          var _ := Set(entry.key, entry.value);
          UnionStore(start, MapOf(source[..], i), entry.key, entry.value);
        }
        i := i + 1;
      }
    }

    /** lit_table_remove_white: every key the collector left unmarked is deleted. */
    method RemoveWhite()
      requires Valid()
      modifies entries
      ensures Valid()
      ensures forall k :: k in Contents() <==> k in old(Contents()) && k.marked
      ensures forall k :: k in Contents() ==> Contents()[k] == old(Contents())[k]
    {
      ghost var oes := entries[..];
      var i := 0;
      while i <= capacity
        invariant 0 <= i <= capacity + 1
        invariant Valid()
        invariant forall j :: 0 <= j < entries.Length ==> entries[j] == if j < i then Swept(oes[j]) else oes[j]
      {
        var entry := entries[i];
        if entry.key != null && !entry.key.marked {
          ghost var before := entries[..];
          SweepStep(before, oes, capacity, i);
          var _ := Delete(entry.key);
        }
        i := i + 1;
      }
      if capacity != -1 {
        SweepContents(entries[..], oes, capacity);
      }
    }
  }
}
