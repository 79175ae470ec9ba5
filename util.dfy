/**
 * The helpers of util.c that the runtime relies on outside floating point:
 * rounding up to a power of two, turning a script path into a module name,
 * and duplicating a C string.
 */
module Util {

  /** A C int, as its 32-bit two's complement pattern. */
  type Int32 = bv32

  /**
   * lit_util_closestpowof2 (and its twin lit_closest_power_of_two in mem.c):
   * decrement, smear the highest set bit into every lower bit, increment.
   * The shifts are logical here; on the inputs where C's arithmetic shift
   * of a negative int would differ the sign bit is already set, so the
   * smear yields all ones either way.
   */
  function ClosestPowOf2(n: Int32): (r: Int32)
    ensures 1 <= n <= 0x4000_0000 ==> r != 0 && r & (r - 1) == 0 && n <= r && (r >> 1) < n
    ensures n == 0 ==> r == 0
  {
    var m := n - 1;
    var m1 := m | (m >> 1);
    var m2 := m1 | (m1 >> 2);
    var m3 := m2 | (m2 >> 4);
    var m4 := m3 | (m3 >> 8);
    var m5 := m4 | (m4 >> 16);
    m5 + 1
  }

  /** The index of the first NUL: strlen. */
  function Strlen(s: seq<char>): (n: nat)
    requires '\0' in s
    ensures n < |s| && s[n] == '\0' && '\0' !in s[..n]
  {
    if s[0] == '\0' then 0
    else
      assert '\0' in s[1..] by {
        var i :| 0 <= i < |s| && s[i] == '\0';
        assert s[1..][i - 1] == '\0';
      }
      var n := 1 + Strlen(s[1..]);
      assert s[..n] == [s[0]] + s[1..][..n - 1];
      n
  }

  /** The directory separators that become module-path dots. */
  predicate IsSeparator(c: char) { c == '/' || c == '\\' }

  /** The script extensions that are dropped from a module name. */
  predicate HasScriptExtension(s: seq<char>)
  {
    |s| > 4 && (s[|s| - 4..] == ".lit" || s[|s| - 4..] == ".lbc")
  }

  /** The leading "./" that is dropped from a module name. */
  predicate HasDotSlash(s: seq<char>)
  {
    |s| > 2 && s[..2] == "./"
  }

  function Dotted(s: seq<char>): (r: seq<char>)
    ensures |r| == |s|
    ensures forall i :: 0 <= i < |s| ==> r[i] == if IsSeparator(s[i]) then '.' else s[i]
  {
    seq(|s|, i requires 0 <= i < |s| => if IsSeparator(s[i]) then '.' else s[i])
  }

  /** The module name lit_util_patchfilename makes of a file name. */
  function PatchedName(name: seq<char>): seq<char>
  {
    var s1 := if HasScriptExtension(name) then name[..|name| - 4] else name;
    var s2 := if HasDotSlash(s1) then s1[2..] else s1;
    Dotted(s2)
  }

  /** A module name holds no separators and is never longer than the file name. */
  lemma PatchedNameShape(name: seq<char>)
    ensures |PatchedName(name)| <= |name|
    ensures forall i :: 0 <= i < |PatchedName(name)| ==> !IsSeparator(PatchedName(name)[i])
  {
  }

  /**
   * The extension goes only when something is left in front of it, and the
   * "./" only when something is left after it.
   */
  lemma PatchedNameExamples()
    ensures PatchedName("./tests/basic.lit") == "tests.basic"
    ensures PatchedName("lib\\util.lbc") == "lib.util"
    ensures PatchedName(".lit") == ".lit"
    ensures PatchedName("./") == ".."
  {
    assert HasScriptExtension("./tests/basic.lit");
    assert "./tests/basic.lit"[..13] == "./tests/basic";
    assert HasDotSlash("./tests/basic");
    assert "./tests/basic"[2..] == "tests/basic";
    assert HasScriptExtension("lib\\util.lbc");
    assert "lib\\util.lbc"[..8] == "lib\\util";
    assert "lib\\util"[..2] == "li";
    assert ".lit"[..2] == ".l";
    assert Dotted(".lit") == ".lit";
    assert Dotted("./") == "..";
  }

  /**
   * lit_util_patchfilename on the NUL-terminated name held in a: the name
   * is patched in place and the result is the position where it now starts
   * (2 when a "./" was skipped); the patched name is followed by a NUL,
   * written over the extension's dot when one was dropped.
   */
  method PatchFileName(a: array<char>) returns (start: nat)
    requires '\0' in a[..]
    modifies a
    ensures start <= Strlen(old(a[..]))
    ensures var r := PatchedName(old(a[..])[..Strlen(old(a[..]))]);
      start + |r| < a.Length && a[start..start + |r|] == r && a[start + |r|] == '\0'
    ensures forall i :: 0 <= i < start ==> a[i] == old(a[i])
  {
    ghost var orig := a[..];
    var nameLength := StrlenOf(a);
    ghost var name := a[..nameLength];
    assert name == orig[..Strlen(orig)];
    nameLength := DropExtension(a, nameLength);
    ghost var s1 := a[..nameLength];
    assert s1 == orig[..nameLength];
    var n: nat;
    start, n := SkipAndDot(a, nameLength);
    ghost var r := PatchedName(name);
    assert a[start..start + n] == r && |r| == n;
    assert start + |r| == nameLength && a[start + |r|] == '\0';
    assert a[..start] == s1[..start];
    assert s1[..start] == orig[..start];
    forall i | 0 <= i < start
      ensures a[i] == orig[i]
    {
      assert a[..start][i] == orig[..start][i];
    }
  }

  /** The second and third steps, on the name in front of the NUL at nameLength. */
  method SkipAndDot(a: array<char>, nameLength: nat) returns (start: nat, n: nat)
    requires nameLength < a.Length && a[nameLength] == '\0'
    modifies a
    ensures start + n == nameLength && start <= 2 && a[nameLength] == '\0'
    ensures var s1 := old(a[..nameLength]);
      a[start..start + n] == Dotted(if HasDotSlash(s1) then s1[2..] else s1)
    ensures a[..start] == old(a[..nameLength])[..start]
  {
    start, n := SkipDotSlash(a, nameLength);
    ghost var s2 := a[start..start + n];
    ghost var prefix := a[..start];
    ReplaceSeparators(a, start, n);
    assert a[start..start + n] == Dotted(s2);
    assert a[..start] == prefix;
  }

  /** The second step: a leading "./" is skipped when more than two characters remain. */
  method SkipDotSlash(a: array<char>, nameLength: nat) returns (start: nat, n: nat)
    requires nameLength < a.Length && a[nameLength] == '\0'
    ensures start + n == nameLength && start <= 2
    ensures var s1 := a[..nameLength];
      a[start..start + n] == if HasDotSlash(s1) then s1[2..] else s1
  {
    start, n := 0, nameLength;
    if nameLength > 2 && a[0] == '.' && a[1] == '/' {
      assert a[..nameLength][..2] == "./";
      start, n := 2, nameLength - 2;
    }
  }

  /** The first step of lit_util_patchfilename: a NUL over the dot of a ".lit" or ".lbc" extension. */
  method DropExtension(a: array<char>, nameLength: nat) returns (n: nat)
    requires '\0' in a[..] && nameLength == Strlen(a[..])
    modifies a
    ensures var name := old(a[..nameLength]);
      n < a.Length && a[..n] == (if HasScriptExtension(name) then name[..|name| - 4] else name) && a[n] == '\0'
  {
    ghost var name := a[..nameLength];
    n := nameLength;
    if nameLength > 4 && (a[nameLength - 4..nameLength] == ".lit" || a[nameLength - 4..nameLength] == ".lbc") {
      assert name[|name| - 4..] == a[nameLength - 4..nameLength];
      a[nameLength - 4] := '\0';
      n := nameLength - 4;
    }
  }

  /** The strlen call: the first NUL's index. */
  method StrlenOf(a: array<char>) returns (n: nat)
    requires '\0' in a[..]
    ensures n == Strlen(a[..])
  {
    n := 0;
    while a[n] != '\0'
      invariant n < a.Length && '\0' !in a[..n]
      invariant Strlen(a[..]) >= n
      decreases a.Length - n
    {
      assert a[..n + 1] == a[..n] + [a[n]];
      n := n + 1;
      assert n < a.Length by { StrlenBound(a[..], n); }
    }
    NulFirst(a[..], n);
  }

  lemma StrlenBound(s: seq<char>, n: nat)
    requires '\0' in s && n <= |s| && '\0' !in s[..n]
    ensures n <= Strlen(s) && n < |s|
  {
  }

  lemma NulFirst(s: seq<char>, n: nat)
    requires '\0' in s && n < |s| && s[n] == '\0' && '\0' !in s[..n]
    ensures n == Strlen(s)
  {
  }

  /** The final loop: every separator among the n characters at start becomes '.'. */
  method ReplaceSeparators(a: array<char>, start: nat, n: nat)
    requires start + n <= a.Length
    modifies a
    ensures a[start..start + n] == Dotted(old(a[start..start + n]))
    ensures forall i :: 0 <= i < a.Length && !(start <= i < start + n) ==> a[i] == old(a[i])
  {
    ghost var o := a[..];
    var i := 0;
    while i < n
      invariant i <= n
      invariant forall k :: start <= k < start + i ==> a[k] == if IsSeparator(o[k]) then '.' else o[k]
      invariant forall k :: 0 <= k < a.Length && !(start <= k < start + i) ==> a[k] == o[k]
    {
      var c := a[start + i];
      if c == '/' || c == '\\' {
        a[start + i] := '.';
      }
      i := i + 1;
    }
  }

  /** lit_util_copystring: a new buffer holding the string and its NUL. */
  method CopyString(s: array<char>) returns (r: array<char>)
    requires '\0' in s[..]
    ensures fresh(r) && r.Length == Strlen(s[..]) + 1 && r[..] == s[..r.Length]
    ensures Strlen(r[..]) == Strlen(s[..])
  {
    var n := StrlenOf(s);
    var length := n + 1;
    r := new char[length];
    var i := 0;
    while i < length
      invariant i <= length && r[..i] == s[..i]
    {
      r[i] := s[i];
      i := i + 1;
    }
    assert r[..] == s[..length];
    NulFirst(r[..], length - 1);
  }
}
