/**
 * The mark-and-sweep collector of gcmem.c, and its older twin in mem.c,
 * on an abstract heap: every object has an identity, a size in bytes and
 * the list of objects that blackening it marks (its fields, stack slots,
 * constants and table entries, in the order vmblackobject visits them).
 * The object list of the VM is a sequence, newest first as allocation
 * links it.
 */
module Gc {
  import Lit
  import opened Wrappers

  type Id = nat

  const HEAP_GROW_FACTOR := 2

  /** A chain of references, each object marking the next when blackened. */
  ghost predicate IsPath(children: map<Id, seq<Id>>, p: seq<Id>)
  {
    |p| > 0 && forall i :: 0 <= i < |p| - 1 ==> p[i] in children && p[i + 1] in children[p[i]]
  }

  /** o can be reached from one of the roots. */
  ghost predicate Reachable(children: map<Id, seq<Id>>, roots: set<Id>, o: Id)
  {
    exists p :: IsPath(children, p) && p[0] in roots && p[|p| - 1] == o
  }

  /** A root is reachable, and so is whatever a reachable object refers to. */
  lemma ReachableSteps(children: map<Id, seq<Id>>, roots: set<Id>, o: Id, c: Id)
    ensures o in roots ==> Reachable(children, roots, o)
    ensures Reachable(children, roots, o) && o in children && c in children[o] ==> Reachable(children, roots, c)
  {
    if o in roots {
      assert IsPath(children, [o]);
    }
    if Reachable(children, roots, o) && o in children && c in children[o] {
      var p :| IsPath(children, p) && p[0] in roots && p[|p| - 1] == o;
      assert IsPath(children, p + [c]);
    }
  }

  /** No reference leads out of s. */
  ghost predicate Closed(children: map<Id, seq<Id>>, s: set<Id>)
  {
    forall x, c :: x in s && x in children && c in children[x] ==> c in s
  }

  lemma {:induction false} PathStaysIn(children: map<Id, seq<Id>>, s: set<Id>, p: seq<Id>)
    requires IsPath(children, p) && p[0] in s && Closed(children, s)
    ensures p[|p| - 1] in s
    decreases |p|
  {
    if |p| > 1 {
      var q := p[..|p| - 1];
      assert IsPath(children, q);
      PathStaysIn(children, s, q);
      assert p[|p| - 2] in children && p[|p| - 1] in children[p[|p| - 2]];
    }
  }

  /** A closed set holding the roots holds everything reachable from them. */
  lemma ClosedHoldsReachable(children: map<Id, seq<Id>>, roots: set<Id>, s: set<Id>, o: Id)
    requires roots <= s && Closed(children, s) && Reachable(children, roots, o)
    ensures o in s
  {
    var p :| IsPath(children, p) && p[0] in roots && p[|p| - 1] == o;
    PathStaysIn(children, s, p);
  }

  /** The objects of os reachable from the roots: the ones a collection keeps. */
  ghost function Live(children: map<Id, seq<Id>>, roots: set<Id>, os: seq<Id>): set<Id>
  {
    set o | o in os && Reachable(children, roots, o)
  }

  /** Every listed object has references and a size, and refers only to listed objects. */
  ghost predicate WellFormed(os: seq<Id>, children: map<Id, seq<Id>>, sizes: map<Id, nat>)
  {
    (forall o :: o in os ==> o in children && o in sizes) &&
    (forall o, c :: o in os && o in children && c in children[o] ==> c in os)
  }

  /** Keeping a closed set of objects keeps the list well formed. */
  lemma KeptWellFormed(os: seq<Id>, children: map<Id, seq<Id>>, sizes: map<Id, nat>, m: set<Id>)
    requires WellFormed(os, children, sizes) && Closed(children, m) && (forall x :: x in m ==> x in os)
    ensures WellFormed(Kept(os, m, |os|), children, sizes)
    ensures forall x :: x in Kept(os, m, |os|) <==> x in m
  {
    KeptFilters(os, m, |os|);
    assert os[..|os|] == os;
  }

  /** The objects among the first n of refs. */
  ghost function Prefix(refs: seq<Id>, n: nat): set<Id>
  {
    set k | 0 <= k < n && k < |refs| :: refs[k]
  }

  lemma PrefixStep(refs: seq<Id>, n: nat)
    ensures n < |refs| ==> Prefix(refs, n + 1) == Prefix(refs, n) + {refs[n]}
    ensures n == |refs| ==> forall c :: c in refs ==> c in Prefix(refs, n)
  {
  }

  /** No object is listed twice. */
  ghost predicate Distinct(os: seq<Id>)
  {
    forall i, j :: 0 <= i < j < |os| ==> os[i] != os[j]
  }

  /** The first n objects of os that are in m, in list order: what the sweep keeps. */
  function Kept(os: seq<Id>, m: set<Id>, n: nat): (r: seq<Id>)
    requires n <= |os|
    ensures |r| <= n
  {
    if n == 0 then [] else Kept(os, m, n - 1) + (if os[n - 1] in m then [os[n - 1]] else [])
  }

  /** The sweep keeps exactly the marked objects, and only those, each as often as it was listed. */
  lemma {:induction false} KeptFilters(os: seq<Id>, m: set<Id>, n: nat)
    requires n <= |os|
    ensures forall x :: x in Kept(os, m, n) <==> x in os[..n] && x in m
    ensures forall x :: x in m ==> multiset(Kept(os, m, n))[x] == multiset(os[..n])[x]
    ensures forall x :: x !in m ==> multiset(Kept(os, m, n))[x] == 0
  {
    if n > 0 {
      KeptFilters(os, m, n - 1);
      assert os[..n] == os[..n - 1] + [os[n - 1]];
    }
  }

  /** A filter of a list without repeats has none either. */
  lemma KeptDistinct(os: seq<Id>, m: set<Id>)
    requires Distinct(os)
    ensures Distinct(Kept(os, m, |os|))
  {
    KeptFilters(os, m, |os|);
    var r := Kept(os, m, |os|);
    forall i, j | 0 <= i < j < |r| ensures r[i] != r[j] {
      if r[i] == r[j] {
        assert multiset(r)[r[i]] >= 2 by {
          assert r == r[..i] + [r[i]] + r[i + 1..j] + [r[j]] + r[j + 1..];
        }
        assert os[..|os|] == os;
        DistinctOnce(os, r[i]);
      }
    }
  }

  lemma {:induction false} DistinctOnce(os: seq<Id>, x: Id)
    requires Distinct(os)
    ensures multiset(os)[x] <= 1
  {
    if |os| > 0 {
      var init := os[..|os| - 1];
      assert os == init + [os[|os| - 1]];
      assert Distinct(init);
      DistinctOnce(init, x);
      if os[|os| - 1] == x {
        assert x !in init;
      }
    }
  }

  /** The bytes owned by the first n objects of os that are not in m: what the sweep frees. */
  function Garbage(os: seq<Id>, m: set<Id>, sizes: map<Id, nat>, n: nat): nat
    requires n <= |os| && forall i :: 0 <= i < |os| ==> os[i] in sizes
  {
    if n == 0 then 0
    else Garbage(os, m, sizes, n - 1) + (if os[n - 1] in m then 0 else sizes[os[n - 1]])
  }

  /** Sweeping with nothing marked frees every byte the list owns. */
  lemma {:induction false} GarbageOfAll(os: seq<Id>, sizes: map<Id, nat>, m: set<Id>, n: nat)
    requires n <= |os| && (forall i :: 0 <= i < |os| ==> os[i] in sizes)
    requires forall i :: 0 <= i < n ==> os[i] !in m
    ensures Garbage(os, m, sizes, n) == Garbage(os, {}, sizes, n)
    ensures Kept(os, m, n) == []
  {
    if n > 0 {
      GarbageOfAll(os, sizes, m, n - 1);
    }
  }

  /**
   * The collector's state: the object list, the references and sizes of
   * the objects, the marks and the gray stack with its capacity, the
   * interned strings (the keys of vm->strings) and the byte accounting of
   * LitState.
   */
  class Heap {
    var objects: seq<Id>
    var children: map<Id, seq<Id>>
    var sizes: map<Id, nat>
    var marked: set<Id>
    var gray: seq<Id>
    var grayCapacity: nat
    var strings: set<Id>
    var bytesAllocated: int
    var nextGc: int
    var allowGc: bool

    /** The objects the list holds. */
    ghost function Universe(): set<Id>
      reads this`objects
    {
      set o | o in objects
    }

    /** Every listed object has references and a size, and refers only to listed objects. */
    ghost predicate Valid()
      reads this`objects, this`children, this`sizes, this`strings, this`marked, this`gray, this`grayCapacity
    {
      Shape() && marked <= Universe() && |gray| <= grayCapacity
    }

    /** The part of Valid that marking leaves alone. */
    ghost predicate Shape()
      reads this`objects, this`children, this`sizes, this`strings
    {
      WellFormed(objects, children, sizes) && strings <= Universe()
    }

    /** Between collections: nothing marked, nothing gray, and the list links each object once. */
    ghost predicate Idle()
      reads this`marked, this`gray, this`objects
    {
      marked == {} && gray == [] && Distinct(objects)
    }

    /**
     * The invariant of marking from roots: the gray objects are marked,
     * a marked object off the gray stack has all its references marked,
     * and only reachable objects are marked.
     */
    ghost predicate Marking(roots: set<Id>)
      reads this`objects, this`children, this`sizes, this`strings, this`marked, this`gray, this`grayCapacity
    {
      Partial(roots) && BlackBut({})
    }

    /** The marking invariant apart from the black objects. */
    ghost predicate Partial(roots: set<Id>)
      reads this`objects, this`children, this`sizes, this`strings, this`marked, this`gray, this`grayCapacity
    {
      Valid() && GrayMarked() && Sound(roots)
    }

    ghost predicate GrayMarked()
      reads this`gray, this`marked
    {
      forall i :: 0 <= i < |gray| ==> gray[i] in marked
    }

    /** Only objects reachable from the roots are marked. */
    ghost predicate Sound(roots: set<Id>)
      reads this`marked, this`children
    {
      forall x :: x in marked ==> Reachable(children, roots, x)
    }

    /** Each marked object off the gray stack, outside skip, has all its references marked. */
    ghost predicate BlackBut(skip: set<Id>)
      reads this`marked, this`gray, this`children
    {
      forall x, c :: x in marked && x !in gray && x !in skip && x in children && c in children[x] ==> c in marked
    }

    /** What is left to do: each push and each pop lowers it. */
    ghost function Potential(): nat
      reads this`objects, this`marked, this`gray
    {
      2 * |Universe() - marked| + |gray|
    }

    /**
     * lit_gcmem_markobject (lit_mark_object in mem.c): a null or marked
     * object is left alone; any other is marked and pushed on the gray
     * stack, which grows by LIT_GROW_CAPACITY when full.
     */
    method MarkObject(o: Option<Id>, ghost roots: set<Id>, ghost skip: set<Id>)
      requires Partial(roots) && BlackBut(skip)
      requires o.Some? ==> o.value in objects && Reachable(children, roots, o.value)
      modifies this`marked, this`gray, this`grayCapacity
      ensures Partial(roots) && BlackBut(skip) && Potential() <= old(Potential())
      ensures if o.None? || o.value in old(marked) then marked == old(marked) && gray == old(gray)
              else marked == old(marked) + {o.value} && gray == old(gray) + [o.value] && Potential() < old(Potential())
      ensures grayCapacity >= old(grayCapacity)
      ensures old(marked) <= marked && (o.Some? ==> o.value in marked)
    {
      if o.None? || o.value in marked {
        return;
      }
      ghost var u := Universe();
      assert u - (marked + {o.value}) == (u - marked) - {o.value};
      marked := marked + {o.value};
      if grayCapacity < |gray| + 1 {
        grayCapacity := Lit.GrowCapacity(grayCapacity);
      }
      gray := gray + [o.value];
    }

    /**
     * lit_gcmem_vmblackobject for one object popped off the gray stack:
     * every object it refers to is marked.
     */
    method BlackenObject(o: Id, ghost roots: set<Id>)
      requires Partial(roots) && BlackBut({o}) && o in marked
      modifies this`marked, this`gray, this`grayCapacity
      ensures Marking(roots) && Potential() <= old(Potential()) && old(marked) <= marked
    {
      var refs := children[o];
      var i := 0;
      while i < |refs|
        invariant 0 <= i <= |refs|
        invariant Partial(roots) && BlackBut({o}) && o in marked && old(marked) <= marked
        invariant Prefix(refs, i) <= marked
        invariant Potential() <= old(Potential())
      {
        MarkReference(o, i, roots);
        i := i + 1;
      }
      PrefixStep(refs, i);
    }

    /** One round of blackening: the i-th reference of o is marked. */
    method MarkReference(o: Id, i: nat, ghost roots: set<Id>)
      requires Partial(roots) && BlackBut({o}) && o in marked
      requires i < |children[o]| && Prefix(children[o], i) <= marked
      modifies this`marked, this`gray, this`grayCapacity
      ensures Partial(roots) && BlackBut({o}) && old(marked) <= marked
      ensures Prefix(children[o], i + 1) <= marked && Potential() <= old(Potential())
    {
      ReachableSteps(children, roots, o, children[o][i]);
      MarkObject(Some(children[o][i]), roots, {o});
      PrefixStep(children[o], i);
    }

    /**
     * lit_gcmem_vmtracerefs (trace_references in mem.c): pop and blacken
     * until the gray stack is empty. Then the marked objects are closed
     * under references.
     */
    method TraceReferences(ghost roots: set<Id>)
      requires Marking(roots)
      modifies this`marked, this`gray, this`grayCapacity
      ensures Marking(roots) && gray == [] && old(marked) <= marked
      ensures Closed(children, marked)
    {
      while |gray| > 0
        invariant Marking(roots) && old(marked) <= marked
        decreases Potential()
      {
        var o := gray[|gray| - 1];
        PopGray(roots);
        BlackenObject(o, roots);
      }
    }

    /** The pop of the trace loop: the popped object is the only marked one that may not be black. */
    method PopGray(ghost roots: set<Id>)
      requires Marking(roots) && |gray| > 0
      modifies this`gray
      ensures gray == old(gray)[..|old(gray)| - 1] && Potential() < old(Potential())
      ensures Partial(roots) && BlackBut({old(gray)[|old(gray)| - 1]})
    {
      gray := gray[..|gray| - 1];
    }

    /**
     * lit_gcmem_vmmarkroots: marks every root (the root values, the
     * running fiber, the built-in classes, the API names and the entries
     * of the defined-symbol, module and global tables); null roots are
     * skipped.
     */
    method MarkRoots(roots: seq<Option<Id>>)
      requires Valid() && Idle()
      requires forall i :: 0 <= i < |roots| && roots[i].Some? ==> roots[i].value in objects
      modifies this`marked, this`gray, this`grayCapacity
      ensures Marking(RootSet(roots))
      ensures marked == RootSet(roots)
    {
      ghost var rs := RootSet(roots);
      var i := 0;
      while i < |roots|
        invariant 0 <= i <= |roots| && Marking(rs)
        invariant marked == RootsUpTo(roots, i)
      {
        MarkRoot(roots, i);
        i := i + 1;
      }
      RootsStep(roots, i);
    }

    /** One round of the root loop: the i-th root is marked. */
    method MarkRoot(roots: seq<Option<Id>>, i: nat)
      requires i < |roots| && Marking(RootSet(roots)) && marked == RootsUpTo(roots, i)
      requires forall i :: 0 <= i < |roots| && roots[i].Some? ==> roots[i].value in objects
      modifies this`marked, this`gray, this`grayCapacity
      ensures Marking(RootSet(roots)) && marked == RootsUpTo(roots, i + 1)
    {
      RootsStep(roots, i);
      if roots[i].Some? {
        ReachableSteps(children, RootSet(roots), roots[i].value, 0);
      }
      MarkObject(roots[i], RootSet(roots), {});
    }

    /**
     * lit_gcmem_vmsweep (sweep in mem.c): unlinks and destroys every
     * unmarked object, giving back its bytes, and clears the marks of the
     * rest, which stay in their order.
     */
    method Sweep()
      requires Valid() && Distinct(objects) && Closed(children, marked) && strings <= marked
      modifies this`objects, this`marked, this`bytesAllocated
      ensures Valid() && marked == {} && Distinct(objects)
      ensures objects == Kept(old(objects), old(marked), |old(objects)|)
      ensures bytesAllocated == old(bytesAllocated) - Garbage(old(objects), old(marked), sizes, |old(objects)|)
    {
      var kept: seq<Id> := [];
      var i := 0;
      while i < |objects|
        invariant 0 <= i <= |objects|
        invariant kept == Kept(objects, marked, i)
        invariant bytesAllocated == old(bytesAllocated) - Garbage(objects, marked, sizes, i)
        modifies this`bytesAllocated
      {
        var o := objects[i];
        if o in marked {
          kept := kept + [o];
        } else {
          bytesAllocated := bytesAllocated - sizes[o];
        }
        i := i + 1;
      }
      KeptWellFormed(objects, children, sizes, marked);
      KeptDistinct(objects, marked);
      objects := kept;
      // the kept objects lose their marks; the others are gone
      marked := marked - set o | o in kept;
    }

    /**
     * lit_gcmem_collectgarbage (lit_collect_garbage in mem.c). With
     * collection not allowed it returns 0 and changes nothing. Otherwise
     * it marks from the roots, traces, drops the unmarked interned
     * strings and sweeps: exactly the objects reachable from the roots
     * remain, in their order, the next threshold is twice the bytes left,
     * and it returns the bytes freed.
     */
    method CollectGarbage(roots: seq<Option<Id>>) returns (collected: int)
      requires Valid() && Idle()
      requires forall i :: 0 <= i < |roots| && roots[i].Some? ==> roots[i].value in objects
      modifies this`objects, this`marked, this`gray, this`grayCapacity, this`strings
      modifies this`bytesAllocated, this`nextGc, this`allowGc
      ensures Valid() && Idle()
      ensures !old(allowGc) ==> collected == 0 && objects == old(objects) && strings == old(strings)
      ensures !old(allowGc) ==> bytesAllocated == old(bytesAllocated) && nextGc == old(nextGc) && !allowGc
      ensures old(allowGc) ==> objects == Kept(old(objects), Live(children, RootSet(roots), old(objects)), |old(objects)|)
      ensures old(allowGc) ==> strings == old(strings) * Live(children, RootSet(roots), old(objects))
      ensures old(allowGc) ==>
        bytesAllocated == old(bytesAllocated) - Garbage(old(objects), Live(children, RootSet(roots), old(objects)), sizes, |old(objects)|)
      ensures old(allowGc) ==> nextGc == bytesAllocated * HEAP_GROW_FACTOR && allowGc
      ensures old(allowGc) ==> collected == old(bytesAllocated) - bytesAllocated
    {
      if !allowGc {
        return 0;
      }
      collected := Collect(roots);
    }

    /** lit_table_removewhite on vm->strings: the unmarked interned strings are dropped. */
    method RemoveWhite()
      requires Valid()
      modifies this`strings
      ensures Valid() && strings == old(strings) * marked
    {
      strings := set s | s in strings && s in marked;
    }

    /** The collection itself, once allow_gc has been checked. */
    method Collect(roots: seq<Option<Id>>) returns (collected: int)
      requires Valid() && Idle()
      requires forall i :: 0 <= i < |roots| && roots[i].Some? ==> roots[i].value in objects
      modifies this`objects, this`marked, this`gray, this`grayCapacity, this`strings
      modifies this`bytesAllocated, this`nextGc, this`allowGc
      ensures Valid() && Idle()
      ensures var live := Live(children, RootSet(roots), old(objects));
        objects == Kept(old(objects), live, |old(objects)|) && strings == old(strings) * live &&
        bytesAllocated == old(bytesAllocated) - Garbage(old(objects), live, sizes, |old(objects)|)
      ensures nextGc == bytesAllocated * HEAP_GROW_FACTOR && allowGc
      ensures collected == old(bytesAllocated) - bytesAllocated
    {
      allowGc := false;
      var before := bytesAllocated;
      MarkLive(roots);
      RemoveWhite();
      Sweep();
      nextGc := bytesAllocated * HEAP_GROW_FACTOR;
      allowGc := true;
      collected := before - bytesAllocated;
    }

    /** vmmarkroots then vmtracerefs: the marks become exactly the live objects. */
    method MarkLive(roots: seq<Option<Id>>)
      requires Valid() && Idle()
      requires forall i :: 0 <= i < |roots| && roots[i].Some? ==> roots[i].value in objects
      modifies this`marked, this`gray, this`grayCapacity
      ensures Valid() && gray == [] && Closed(children, marked)
      ensures marked == Live(children, RootSet(roots), objects)
    {
      MarkRoots(roots);
      TraceReferences(RootSet(roots));
      MarkedIsLive(RootSet(roots));
    }

    /** After tracing, the marks are exactly the live objects. */
    lemma MarkedIsLive(rs: set<Id>)
      requires Marking(rs) && rs <= marked && Closed(children, marked)
      ensures marked == Live(children, rs, objects)
    {
      forall o | o in Live(children, rs, objects) ensures o in marked {
        ClosedHoldsReachable(children, rs, marked, o);
      }
    }

    /**
     * lit_gcmem_memrealloc (lit_reallocate in mem.c): the accounting moves
     * by new - old; only a growing request with the total past the
     * threshold collects; size 0 frees and gives NULL.
     */
    method MemRealloc(oldSize: nat, newSize: nat, roots: seq<Option<Id>>) returns (isNull: bool)
      requires Valid() && Idle()
      requires forall i :: 0 <= i < |roots| && roots[i].Some? ==> roots[i].value in objects
      modifies this`objects, this`marked, this`gray, this`grayCapacity, this`strings
      modifies this`bytesAllocated, this`nextGc, this`allowGc
      ensures Valid() && Idle() && (isNull <==> newSize == 0)
      ensures var grown := old(bytesAllocated) + newSize - oldSize;
        if newSize > oldSize && grown > old(nextGc) && old(allowGc) then
          var live := Live(children, RootSet(roots), old(objects));
          objects == Kept(old(objects), live, |old(objects)|) &&
          bytesAllocated == grown - Garbage(old(objects), live, sizes, |old(objects)|) &&
          nextGc == bytesAllocated * HEAP_GROW_FACTOR
        else
          objects == old(objects) && bytesAllocated == grown && nextGc == old(nextGc) && allowGc == old(allowGc)
    {
      bytesAllocated := bytesAllocated + newSize - oldSize;
      if newSize > oldSize && bytesAllocated > nextGc {
        var _ := CollectGarbage(roots);
      }
      isNull := newSize == 0;
    }

    /**
     * lit_free_objects: every listed object is freed, whatever its mark,
     * and the gray stack's capacity drops to 0.
     */
    method FreeObjects()
      requires Valid()
      modifies this`objects, this`bytesAllocated, this`grayCapacity
      ensures objects == [] && grayCapacity == 0
      ensures bytesAllocated == old(bytesAllocated) - Garbage(old(objects), {}, sizes, |old(objects)|)
    {
      var i := 0;
      while i < |objects|
        invariant 0 <= i <= |objects|
        invariant bytesAllocated == old(bytesAllocated) - Garbage(objects, {}, sizes, i)
        modifies this`bytesAllocated
      {
        bytesAllocated := bytesAllocated - sizes[objects[i]];
        i := i + 1;
      }
      objects := [];
      grayCapacity := 0;
    }
  }

  /** The objects the roots name. */
  ghost function RootSet(roots: seq<Option<Id>>): set<Id>
  {
    RootsUpTo(roots, |roots|)
  }

  /** The objects the first n roots name. */
  ghost function RootsUpTo(roots: seq<Option<Id>>, n: nat): set<Id>
  {
    set i | 0 <= i < n && i < |roots| && roots[i].Some? :: roots[i].value
  }

  lemma RootsStep(roots: seq<Option<Id>>, n: nat)
    ensures n < |roots| ==> RootsUpTo(roots, n + 1) == RootsUpTo(roots, n) + (if roots[n].Some? then {roots[n].value} else {})
    ensures n < |roots| && roots[n].Some? ==> roots[n].value in RootSet(roots)
    ensures n == 0 ==> RootsUpTo(roots, n) == {}
  {
  }
}
