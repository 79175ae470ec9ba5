/**
 * gen.rb, the symbol-renaming helper: the check of a symbol (fail_if_not_sym),
 * the validation of the symbol table and of the arguments in run_replace, the
 * whole-word substitution of do_gsub, the backup path, and the choice of verb.
 *
 * Files are a map from the paths of regular files to their contents, which
 * stands for File.file?, File.read, File.write and FileUtils.copy. The YAML
 * parser is a parameter (its result is a Loaded), and so is the process id.
 */
module Gen {
  import opened Wrappers

  // ---------------------------------------------------------------------
  // Words
  // ---------------------------------------------------------------------

  /** Ruby's `\w`: an ASCII letter, digit or underscore. */
  predicate WordChar(c: char)
  {
    'a' <= c <= 'z' || 'A' <= c <= 'Z' || '0' <= c <= '9' || c == '_'
  }

  /** A whole word: one or more word characters, `\A\w+\z`. */
  predicate IsWord(s: string)
  {
    |s| > 0 && forall i :: 0 <= i < |s| ==> WordChar(s[i])
  }

  /**
   * What `s.match(/^\w+$/)` tests: `^` and `$` match at line boundaries, so
   * some line of s is a word.
   */
  predicate SomeLineIsWord(s: string)
  {
    exists i, j :: 0 <= i < j <= |s| && (i == 0 || s[i - 1] == '\n') && (j == |s| || s[j] == '\n') && IsWord(s[i..j])
  }

  // ---------------------------------------------------------------------
  // fail_if_not_string and fail_if_not_sym
  // ---------------------------------------------------------------------

  /**
   * A key or value of the loaded table: a String, or any other object,
   * known by the YAML text it was read from, so that two of them are equal
   * exactly when Ruby's == finds them equal (42 and 42, not 42 and 43).
   */
  datatype Yaml = Str(s: string) | Other(text: string)

  /** fail_if_not_string: 1 (and a message) unless the value is a String. */
  function FailIfNotString(v: Yaml): nat
  {
    if v.Str? then 0 else 1
  }

  /**
   * fail_if_not_sym as written: a String fails unless /^\w+$/ matches it;
   * for anything else fail_if_not_string prints its message, but its 1 is
   * not returned.
   */
  function FailIfNotSymAsWritten(v: Yaml): nat
  {
    if FailIfNotString(v) == 0 then (if SomeLineIsWord(v.s) then 0 else 1) else 0
  }

  /** A String that is a whole word. */
  predicate IsWordSym(v: Yaml)
  {
    v.Str? && IsWord(v.s)
  }

  /** fail_if_not_sym as evidently intended: 0 exactly for a String that is a whole word. */
  function FailIfNotSym(v: Yaml): (r: nat)
    ensures r <= 1
    ensures r == 0 <==> IsWordSym(v)
  {
    if FailIfNotString(v) != 0 then 1 else if IsWord(v.s) then 0 else 1
  }

  /** Every symbol the corrected check accepts, the check as written accepts too. */
  lemma SymCheckNarrower(v: Yaml)
    requires FailIfNotSym(v) == 0
    ensures FailIfNotSymAsWritten(v) == 0
  {
    assert v.s[0..|v.s|] == v.s;
  }

  /** As written, a key or value that is not a String (a number, nil) counts no failure. */
  lemma OtherPassesAsWritten()
    ensures FailIfNotSymAsWritten(Other("42")) == 0 && FailIfNotSym(Other("42")) == 1
  {
  }

  /** As written, "ok\n-" counts no failure: its first line is a word. */
  lemma LinePassesAsWritten()
    ensures FailIfNotSymAsWritten(Str("ok\n-")) == 0 && FailIfNotSym(Str("ok\n-")) == 1
  {
    var s := "ok\n-";
    assert IsWord(s[0..2]);
    assert !WordChar(s[2]);
  }

  // ---------------------------------------------------------------------
  // The validation loop of run_replace
  // ---------------------------------------------------------------------

  /** The state of the validation loop: failcnt, names (a Hash, in insertion order) and uniqnames. */
  datatype Tally = Tally(failures: nat, names: seq<(Yaml, Yaml)>, used: seq<Yaml>)

  /** The keys of a Hash, in order. */
  function Keys<K, V>(names: seq<(K, V)>): seq<K>
  {
    seq(|names|, i requires 0 <= i < |names| => names[i].0)
  }

  /** The values of a Hash, in order. */
  function Values<K, V>(names: seq<(K, V)>): seq<V>
  {
    seq(|names|, i requires 0 <= i < |names| => names[i].1)
  }

  /** The values of a Hash are those of all its entries but the last, then the last one's. */
  lemma ValuesInit<K, V>(names: seq<(K, V)>)
    requires |names| > 0
    ensures Values(names) == Values(names[..|names| - 1]) + [names[|names| - 1].1]
  {
  }

  /** `names[k] = v` on a Ruby Hash: an existing key keeps its place, a new one goes last. */
  function Put<K(==), V>(names: seq<(K, V)>, k: K, v: V): (r: seq<(K, V)>)
    ensures k in Keys(names) ==> Keys(r) == Keys(names)
    ensures k !in Keys(names) ==> r == names + [(k, v)]
    ensures (k, v) in r
  {
    if |names| == 0 then [(k, v)]
    else if names[0].0 == k then
      assert Keys(names)[0] == k;
      assert Keys([(k, v)] + names[1..]) == [k] + Keys(names[1..]) == Keys(names);
      [(k, v)] + names[1..]
    else
      assert Keys(names) == [names[0].0] + Keys(names[1..]);
      var rest := Put(names[1..], k, v);
      assert Keys([names[0]] + rest) == [names[0].0] + Keys(rest);
      [names[0]] + rest
  }

  /** Put adds (k, v), keeps every entry for another key, and adds nothing else. */
  lemma {:induction false} PutMembers<K, V>(names: seq<(K, V)>, k: K, v: V)
    ensures forall x :: x in Put(names, k, v) ==> x == (k, v) || x in names
    ensures forall x :: x in names && x.0 != k ==> x in Put(names, k, v)
  {
    if |names| > 0 && names[0].0 != k {
      PutMembers(names[1..], k, v);
      assert names == [names[0]] + names[1..];
    }
  }

  /** The check applied to keys and values: as written, or as evidently intended. */
  function Sym(v: Yaml, strict: bool): nat
  {
    if strict then FailIfNotSym(v) else FailIfNotSymAsWritten(v)
  }

  /** One round of the loop over the table: both checks, then the duplicate-target check. */
  function Round(t: Tally, k: Yaml, v: Yaml, strict: bool): Tally
  {
    var f := t.failures + Sym(k, strict) + Sym(v, strict);
    if v in t.used then Tally(f + 1, t.names, t.used)
    else Tally(f, Put(t.names, k, v), t.used + [v])
  }

  /** A round that leaves no failure recorded the pair, and found none before. */
  lemma RoundClean(t: Tally, k: Yaml, v: Yaml, strict: bool)
    requires Round(t, k, v, strict).failures == 0
    ensures t.failures == 0 && Sym(k, strict) == 0 && Sym(v, strict) == 0 && v !in t.used
    ensures Round(t, k, v, strict) == Tally(0, Put(t.names, k, v), t.used + [v])
  {
  }

  /** The loop over the pairs of the table, in order. */
  function Tallied(pairs: seq<(Yaml, Yaml)>, strict: bool): Tally
  {
    if |pairs| == 0 then Tally(0, [], [])
    else Round(Tallied(pairs[..|pairs| - 1], strict), pairs[|pairs| - 1].0, pairs[|pairs| - 1].1, strict)
  }

  /** The validation loop of run_replace over the pairs of the loaded table. */
  method Validate(pairs: seq<(Yaml, Yaml)>, strict: bool) returns (failcnt: nat, names: seq<(Yaml, Yaml)>)
    ensures failcnt == Tallied(pairs, strict).failures && names == Tallied(pairs, strict).names
  {
    failcnt := 0;
    names := [];
    var uniqnames: seq<Yaml> := [];
    var i := 0;
    while i < |pairs|
      invariant 0 <= i <= |pairs|
      invariant Tally(failcnt, names, uniqnames) == Tallied(pairs[..i], strict)
    {
      var (k, v) := pairs[i];
      failcnt := failcnt + Sym(k, strict);
      failcnt := failcnt + Sym(v, strict);
      if v in uniqnames {
        failcnt := failcnt + 1;
      } else {
        names := Put(names, k, v);
        uniqnames := uniqnames + [v];
      }
      assert pairs[..i + 1][..i] == pairs[..i];
      i := i + 1;
    }
    assert pairs[..|pairs|] == pairs;
  }

  /** Every key and value is a String that is a whole word. */
  ghost predicate AllWords(pairs: seq<(Yaml, Yaml)>)
  {
    forall i :: 0 <= i < |pairs| ==> IsWordSym(pairs[i].0) && IsWordSym(pairs[i].1)
  }

  /** No two pairs have the same value. */
  ghost predicate DistinctValues(pairs: seq<(Yaml, Yaml)>)
  {
    forall i, j :: 0 <= i < j < |pairs| ==> pairs[i].1 != pairs[j].1
  }

  /** No two pairs have the same key, as in a Hash. */
  ghost predicate DistinctKeys<K, V>(pairs: seq<(K, V)>)
  {
    forall i, j :: 0 <= i < j < |pairs| ==> pairs[i].0 != pairs[j].0
  }

  /** While nothing has failed, every pair was recorded: uniqnames holds all the values so far. */
  lemma {:induction false} CleanRecordsAll(pairs: seq<(Yaml, Yaml)>, strict: bool)
    requires Tallied(pairs, strict).failures == 0
    ensures Tallied(pairs, strict).used == Values(pairs)
  {
    if |pairs| > 0 {
      var init := pairs[..|pairs| - 1];
      var last := pairs[|pairs| - 1];
      RoundClean(Tallied(init, strict), last.0, last.1, strict);
      CleanRecordsAll(init, strict);
      ValuesInit(pairs);
    }
  }

  /** A pair of words after a table of words leaves a table of words. */
  lemma AllWordsSnoc(init: seq<(Yaml, Yaml)>, k: Yaml, v: Yaml)
    requires AllWords(init) && IsWordSym(k) && IsWordSym(v)
    ensures AllWords(init + [(k, v)])
  {
    var pairs := init + [(k, v)];
    assert forall i :: 0 <= i < |init| ==> pairs[i] == init[i];
  }

  /** A pair whose value is new, after a table without repeated values, repeats none. */
  lemma DistinctSnoc(init: seq<(Yaml, Yaml)>, k: Yaml, v: Yaml)
    requires DistinctValues(init) && v !in Values(init)
    ensures DistinctValues(init + [(k, v)])
  {
    var pairs := init + [(k, v)];
    forall i, j | 0 <= i < j < |pairs|
      ensures pairs[i].1 != pairs[j].1
    {
      assert pairs[i] == init[i] && Values(init)[i] == init[i].1;
      if j < |init| {
        assert pairs[j] == init[j];
      }
    }
  }

  /** A non-empty sequence is its init and its last element. */
  lemma InitLast<T>(s: seq<T>)
    requires |s| > 0
    ensures s == s[..|s| - 1] + [s[|s| - 1]]
  {
  }

  /** A table that passes the corrected check holds only words, and no value twice. */
  lemma {:induction false} ValidOnlyIf(pairs: seq<(Yaml, Yaml)>)
    requires Tallied(pairs, true).failures == 0
    ensures AllWords(pairs) && DistinctValues(pairs)
  {
    if |pairs| > 0 {
      var init := pairs[..|pairs| - 1];
      var (k, v) := pairs[|pairs| - 1];
      RoundClean(Tallied(init, true), k, v, true);
      ValidOnlyIf(init);
      CleanRecordsAll(init, true);
      InitLast(pairs);
      AllWordsSnoc(init, k, v);
      DistinctSnoc(init, k, v);
    }
  }

  /** A table of words with no value twice passes the corrected check. */
  lemma {:induction false} ValidIf(pairs: seq<(Yaml, Yaml)>)
    requires AllWords(pairs) && DistinctValues(pairs)
    ensures Tallied(pairs, true).failures == 0
  {
    if |pairs| > 0 {
      var init := pairs[..|pairs| - 1];
      var (k, v) := pairs[|pairs| - 1];
      assert forall i :: 0 <= i < |init| ==> init[i] == pairs[i];
      assert AllWords(init) && DistinctValues(init);
      ValidIf(init);
      CleanRecordsAll(init, true);
      assert FailIfNotSym(k) == 0 && FailIfNotSym(v) == 0;
      assert v !in Values(init) by {
        assert forall i :: 0 <= i < |init| ==> Values(init)[i] == pairs[i].1 != v;
      }
    }
  }

  /**
   * With the corrected check, the table passes (no failure counted) exactly
   * when every key and value is a whole word and no two values are the same.
   */
  lemma ValidIff(pairs: seq<(Yaml, Yaml)>)
    ensures Tallied(pairs, true).failures == 0 <==> AllWords(pairs) && DistinctValues(pairs)
  {
    if Tallied(pairs, true).failures == 0 {
      ValidOnlyIf(pairs);
    }
    if AllWords(pairs) && DistinctValues(pairs) {
      ValidIf(pairs);
    }
  }

  /** Without its last pair, a table of distinct keys keeps them distinct, and lacks the last key. */
  lemma DistinctKeysInit<K, V>(pairs: seq<(K, V)>)
    requires |pairs| > 0 && DistinctKeys(pairs)
    ensures DistinctKeys(pairs[..|pairs| - 1]) && pairs[|pairs| - 1].0 !in Keys(pairs[..|pairs| - 1])
  {
    var init := pairs[..|pairs| - 1];
    assert forall i :: 0 <= i < |init| ==> Keys(init)[i] == pairs[i].0 != pairs[|pairs| - 1].0;
  }

  /** A table that passes, with distinct keys, is recorded whole and in order. */
  lemma {:induction false} CleanNamesAreTable(pairs: seq<(Yaml, Yaml)>, strict: bool)
    requires Tallied(pairs, strict).failures == 0 && DistinctKeys(pairs)
    ensures Tallied(pairs, strict).names == pairs
  {
    if |pairs| > 0 {
      var init := pairs[..|pairs| - 1];
      var k := pairs[|pairs| - 1].0;
      var v := pairs[|pairs| - 1].1;
      RoundClean(Tallied(init, strict), k, v, strict);
      DistinctKeysInit(pairs);
      CleanNamesAreTable(init, strict);
      InitLast(pairs);
    }
  }

  // ---------------------------------------------------------------------
  // Whole-word substitution (do_gsub)
  // ---------------------------------------------------------------------

  /** The length of the run of word characters s starts with. */
  function RunLength(s: string): (n: nat)
    ensures n <= |s| && (n < |s| ==> !WordChar(s[n]))
    ensures forall i :: 0 <= i < n ==> WordChar(s[i])
  {
    if |s| == 0 || !WordChar(s[0]) then 0 else 1 + RunLength(s[1..])
  }

  /**
   * `data.gsub!(/\b#{old}\b/, new)` for a word `old`: a match of the regex
   * is a whole run of word characters equal to `from`, and each becomes `to`.
   */
  function ReplaceWord(s: string, from: string, to: string): string
    decreases |s|
  {
    if |s| == 0 then ""
    else if !WordChar(s[0]) then [s[0]] + ReplaceWord(s[1..], from, to)
    else
      var n := RunLength(s);
      (if s[..n] == from then to else s[..n]) + ReplaceWord(s[n..], from, to)
  }

  /** `data.scan(/\b#{old}\b/).length` for a word `old`: the runs equal to `from`. */
  function CountWord(s: string, from: string): nat
    decreases |s|
  {
    if |s| == 0 then 0
    else if !WordChar(s[0]) then CountWord(s[1..], from)
    else
      var n := RunLength(s);
      (if s[..n] == from then 1 else 0) + CountWord(s[n..], from)
  }

  /** Where the regex `\b#{old}\b` matches: `from`, with no word character just before or just after it. */
  predicate MatchAt(s: string, i: nat, from: string)
  {
    i + |from| <= |s| && s[i..i + |from|] == from
    && (i == 0 || !WordChar(s[i - 1])) && (i + |from| == |s| || !WordChar(s[i + |from|]))
  }

  /** The run a word w starts, followed by a non-word character or nothing, is w. */
  lemma {:induction false} RunOf(w: string, t: string)
    requires IsWord(w) && (|t| == 0 || !WordChar(t[0]))
    ensures RunLength(w + t) == |w|
    decreases |w|
  {
    assert (w + t)[0] == w[0];
    if |w| > 1 {
      assert (w + t)[1..] == w[1..] + t;
      RunOf(w[1..], t);
    } else {
      assert (w + t)[1..] == t;
    }
  }

  /** Counting over a word followed by a non-word character or nothing. */
  lemma CountRun(w: string, t: string, from: string)
    requires IsWord(w) && (|t| == 0 || !WordChar(t[0]))
    ensures CountWord(w + t, from) == (if w == from then 1 else 0) + CountWord(t, from)
  {
    RunOf(w, t);
    assert (w + t)[..|w|] == w && (w + t)[|w|..] == t;
  }

  /** Replacing keeps a leading non-word character in front. */
  lemma ReplaceFirst(t: string, from: string, to: string)
    requires |t| > 0 && !WordChar(t[0])
    ensures |ReplaceWord(t, from, to)| > 0 && ReplaceWord(t, from, to)[0] == t[0]
  {
  }

  /** Where nothing matches, do_gsub's substitution changes nothing. */
  lemma {:induction false} NoMatchUnchanged(s: string, from: string, to: string)
    requires CountWord(s, from) == 0
    ensures ReplaceWord(s, from, to) == s
    decreases |s|
  {
    if |s| > 0 {
      if !WordChar(s[0]) {
        NoMatchUnchanged(s[1..], from, to);
        assert [s[0]] + s[1..] == s;
      } else {
        var n := RunLength(s);
        assert CountWord(s, from) == (if s[..n] == from then 1 else 0) + CountWord(s[n..], from);
        NoMatchUnchanged(s[n..], from, to);
        assert ReplaceWord(s, from, to) == s[..n] + ReplaceWord(s[n..], from, to);
        assert s[..n] + s[n..] == s;
      }
    }
  }

  /** After the substitution of a word by a different word, from no longer occurs as a whole word. */
  lemma {:induction false} ReplaceRemoves(s: string, from: string, to: string)
    requires IsWord(to) && from != to
    ensures CountWord(ReplaceWord(s, from, to), from) == 0
    decreases |s|
  {
    if |s| > 0 {
      if !WordChar(s[0]) {
        ReplaceRemoves(s[1..], from, to);
        assert ([s[0]] + ReplaceWord(s[1..], from, to))[1..] == ReplaceWord(s[1..], from, to);
      } else {
        var n := RunLength(s);
        var w := if s[..n] == from then to else s[..n];
        var t := ReplaceWord(s[n..], from, to);
        ReplaceRemoves(s[n..], from, to);
        if n < |s| {
          ReplaceFirst(s[n..], from, to);
        }
        CountRun(w, t, from);
      }
    }
  }

  /** Substituting a word never creates a whole-word occurrence of another word. */
  lemma {:induction false} ReplaceKeepsAbsent(s: string, from: string, to: string, other: string)
    requires IsWord(to) && other != to && CountWord(s, other) == 0
    ensures CountWord(ReplaceWord(s, from, to), other) == 0
    decreases |s|
  {
    if |s| > 0 {
      if !WordChar(s[0]) {
        ReplaceKeepsAbsent(s[1..], from, to, other);
        assert ([s[0]] + ReplaceWord(s[1..], from, to))[1..] == ReplaceWord(s[1..], from, to);
      } else {
        var n := RunLength(s);
        var w := if s[..n] == from then to else s[..n];
        var t := ReplaceWord(s[n..], from, to);
        ReplaceKeepsAbsent(s[n..], from, to, other);
        if n < |s| {
          ReplaceFirst(s[n..], from, to);
        }
        CountRun(w, t, other);
      }
    }
  }

  /** A run counted by CountWord is a match of the regex, and the other way round. */
  lemma {:induction false} CountIffMatch(s: string, from: string)
    requires IsWord(from)
    ensures CountWord(s, from) > 0 <==> exists i :: 0 <= i <= |s| && MatchAt(s, i, from)
    decreases |s|
  {
    if |s| > 0 {
      var k := if !WordChar(s[0]) then 1 else RunLength(s);
      var t := s[k..];
      CountIffMatch(t, from);
      if CountWord(t, from) > 0 {
        var i :| 0 <= i <= |t| && MatchAt(t, i, from);
        ShiftMatch(s, k, i, from);
      } else if CountWord(s, from) > 0 {
        assert s[..k] == from;
        assert s[0..|from|] == from;
        assert MatchAt(s, 0, from);
      }
      if exists i :: 0 <= i <= |s| && MatchAt(s, i, from) {
        var i :| 0 <= i <= |s| && MatchAt(s, i, from);
        assert WordChar(s[i]) by {
          assert s[i..i + |from|][0] == s[i];
        }
        if i < k {
          MatchInRun(s, i, from);
        } else {
          UnshiftMatch(s, k, i, from);
          assert MatchAt(t, i - k, from);
        }
      }
    }
  }

  /** A match in the rest after a run or a non-word character is a match in s. */
  lemma ShiftMatch(s: string, k: nat, i: nat, from: string)
    requires IsWord(from) && 0 < k <= |s| && (k == |s| || !WordChar(s[k]) || !WordChar(s[k - 1]))
    requires i <= |s| - k && MatchAt(s[k..], i, from)
    ensures MatchAt(s, k + i, from)
  {
    assert s[k..][i..i + |from|] == s[k + i..k + i + |from|];
    if i == 0 {
      assert s[k] == from[0];
    }
  }

  /** A match in s at or after k, where k ends a run or follows a non-word character, is a match in the rest. */
  lemma UnshiftMatch(s: string, k: nat, i: nat, from: string)
    requires IsWord(from) && 0 < k <= |s| && k <= i <= |s| && MatchAt(s, i, from)
    ensures MatchAt(s[k..], i - k, from)
  {
    assert s[k..][i - k..i - k + |from|] == s[i..i + |from|];
  }

  /** A prefix of word characters lies inside the run s starts with. */
  lemma RunCovers(s: string, len: nat)
    requires len <= |s| && forall m :: 0 <= m < len ==> WordChar(s[m])
    ensures len <= RunLength(s)
    decreases len
  {
    if len > 0 {
      RunCovers(s[1..], len - 1);
    }
  }

  /** Inside the run s starts with, the regex matches only at 0, and only when the run is from. */
  lemma MatchInRun(s: string, i: nat, from: string)
    requires IsWord(from) && |s| > 0 && WordChar(s[0]) && i < RunLength(s) && MatchAt(s, i, from)
    ensures i == 0 && s[..RunLength(s)] == from
  {
    var n := RunLength(s);
    forall m | 0 <= m < |from|
      ensures s[i + m] == from[m]
    {
      assert s[i..i + |from|][m] == s[i + m];
    }
    assert i == 0;
    assert |from| >= n;
    forall m | 0 <= m < |from|
      ensures WordChar(s[m])
    {
      assert s[m] == s[i + m] == from[m];
    }
    RunCovers(s, |from|);
    assert s[..n] == s[i..i + |from|];
  }

  /** The state of do_gsub after the first entries of the mapping: the data, and the matches so far. */
  function Gsub(data: string, mapping: seq<(string, string)>): (string, nat)
  {
    if |mapping| == 0 then (data, 0)
    else
      var (d, c) := Gsub(data, mapping[..|mapping| - 1]);
      var (from, to) := mapping[|mapping| - 1];
      (ReplaceWord(d, from, to), c + CountWord(d, from))
  }

  /**
   * do_gsub on the contents of a file: each entry of the mapping in turn,
   * counting its matches, then substituting them. The caller writes the
   * result only when the count is positive.
   */
  method DoGsub(data: string, mapping: seq<(string, string)>) returns (changecnt: nat, result: string)
    ensures (result, changecnt) == Gsub(data, mapping)
  {
    changecnt := 0;
    result := data;
    var i := 0;
    while i < |mapping|
      invariant 0 <= i <= |mapping|
      invariant (result, changecnt) == Gsub(data, mapping[..i])
    {
      var (from, to) := mapping[i];
      var cnt := CountWord(result, from);
      changecnt := changecnt + cnt;
      result := ReplaceWord(result, from, to);
      assert mapping[..i + 1][..i] == mapping[..i];
      i := i + 1;
    }
    assert mapping[..|mapping|] == mapping;
  }

  /** No match anywhere: the data is left as it was (so not writing it loses nothing). */
  lemma {:induction false} NoMatchesNoChange(data: string, mapping: seq<(string, string)>)
    requires Gsub(data, mapping).1 == 0
    ensures Gsub(data, mapping).0 == data
  {
    if |mapping| > 0 {
      var init := mapping[..|mapping| - 1];
      NoMatchesNoChange(data, init);
      NoMatchUnchanged(Gsub(data, init).0, mapping[|mapping| - 1].0, mapping[|mapping| - 1].1);
    }
  }

  /** Every value of the mapping is a word, and no key is the value of any entry. */
  ghost predicate Unchained(mapping: seq<(string, string)>)
  {
    (forall i :: 0 <= i < |mapping| ==> IsWord(mapping[i].1))
    && forall i, j :: 0 <= i < |mapping| && 0 <= j < |mapping| ==> mapping[i].0 != mapping[j].1
  }

  /** When no key is also a value, no key of the mapping is left as a whole word after do_gsub. */
  lemma {:induction false} KeysGone(data: string, mapping: seq<(string, string)>, k: nat)
    requires Unchained(mapping) && k < |mapping|
    ensures CountWord(Gsub(data, mapping).0, mapping[k].0) == 0
  {
    var init := mapping[..|mapping| - 1];
    var (from, to) := mapping[|mapping| - 1];
    assert forall i :: 0 <= i < |init| ==> init[i] == mapping[i];
    if k == |mapping| - 1 {
      ReplaceRemoves(Gsub(data, init).0, from, to);
    } else {
      assert Unchained(init);
      KeysGone(data, init, k);
      ReplaceKeepsAbsent(Gsub(data, init).0, from, to, mapping[k].0);
    }
  }

  /** The substitutions are made one after the other: swapping two names renames both to one. */
  lemma SwapIsSequential()
    ensures Gsub("a", [("a", "b"), ("b", "a")]).0 == "a"
  {
    assert RunLength("a") == 1;
    assert RunLength("b") == 1;
    assert [("a", "b"), ("b", "a")][..1] == [("a", "b")];
    assert Gsub("a", [("a", "b")]).0 == "b";
  }

  /** Every entry the loop recorded comes from the table. */
  lemma {:induction false} NamesFromPairs(pairs: seq<(Yaml, Yaml)>, strict: bool)
    ensures forall x :: x in Tallied(pairs, strict).names ==> x in pairs
  {
    if |pairs| > 0 {
      var init := pairs[..|pairs| - 1];
      var last := pairs[|pairs| - 1];
      NamesFromPairs(init, strict);
      PutMembers(Tallied(init, strict).names, last.0, last.1);
      assert forall x :: x in init ==> x in pairs;
    }
  }

  /** As written, a table with a key that is not a String passes; the corrected check rejects it. */
  lemma NonStringKeyPassesAsWritten()
    ensures Tallied([(Other("42"), Str("x"))], false).failures == 0
    ensures Tallied([(Other("42"), Str("x"))], true).failures > 0
  {
    var ps := [(Other("42"), Str("x"))];
    assert ps[..0] == [];
    assert IsWord("x"[0..1]);
  }

  /**
   * Values that are not Strings are compared by value: as written,
   * {"a": 42, "b": 43} has no failure and keeps both names, and
   * {"a": 42, "b": 42} counts the second 42 as a target already used.
   */
  lemma OthersComparedByValue()
    ensures var t := Tallied([(Str("a"), Other("42")), (Str("b"), Other("43"))], false);
      t.failures == 0 && |t.names| == 2
    ensures Tallied([(Str("a"), Other("42")), (Str("b"), Other("42"))], false).failures == 1
  {
    var distinct := [(Str("a"), Other("42")), (Str("b"), Other("43"))];
    var same := [(Str("a"), Other("42")), (Str("b"), Other("42"))];
    assert distinct[..1][..0] == [] && same[..1][..0] == [];
    assert distinct[..1] == same[..1] == [(Str("a"), Other("42"))];
    assert IsWord("a"[0..1]) && IsWord("b"[0..1]);
    assert Tallied(same[..1], false) == Tally(0, Put([], Str("a"), Other("42")), [Other("42")]);
  }

  // ---------------------------------------------------------------------
  // Paths: File.basename, File.extname and the backup location
  // ---------------------------------------------------------------------

  /** File.basename of a file's path: what follows its last '/'. */
  function Basename(path: string): (b: string)
    ensures |b| <= |path| && b == path[|path| - |b|..] && '/' !in b
    decreases |path|
  {
    if |path| == 0 || path[|path| - 1] == '/' then ""
    else Basename(path[..|path| - 1]) + [path[|path| - 1]]
  }

  /** The number of dots a name starts with. */
  function LeadingDots(b: string): (n: nat)
    ensures n <= |b| && (n < |b| ==> b[n] != '.')
    ensures forall i :: 0 <= i < n ==> b[i] == '.'
  {
    if |b| > 0 && b[0] == '.' then 1 + LeadingDots(b[1..]) else 0
  }

  /** The last dot of b in [lo, hi), if any. */
  function LastDot(b: string, lo: nat, hi: nat): (p: Option<nat>)
    requires lo <= hi <= |b|
    ensures p.Some? ==> lo <= p.value < hi && b[p.value] == '.' && forall q :: p.value < q < hi ==> b[q] != '.'
    ensures p.None? ==> forall q :: lo <= q < hi ==> b[q] != '.'
    decreases hi - lo
  {
    if hi == lo then None
    else if b[hi - 1] == '.' then Some(hi - 1)
    else LastDot(b, lo, hi - 1)
  }

  /** File.extname of a basename: from its last dot, leading dots aside; "" when there is none. */
  function Extname(b: string): string
  {
    match LastDot(b, LeadingDots(b), |b|)
    case None => ""
    case Some(p) => b[p..]
  }

  /** File.basename(base, ext): the basename without its extension. */
  function Stem(b: string): string
    requires |Extname(b)| <= |b|
  {
    b[..|b| - |Extname(b)|]
  }

  /** An extension is empty or a dot and no other dot, and the stem and the extension make the name. */
  lemma ExtnameShape(b: string)
    ensures |Extname(b)| <= |b| && Stem(b) + Extname(b) == b
    ensures Extname(b) == "" || (Extname(b)[0] == '.' && '.' !in Extname(b)[1..])
    ensures Extname(b) != "" ==> LeadingDots(b) < |b| - |Extname(b)|
  {
    var p := LastDot(b, LeadingDots(b), |b|);
    if p.Some? {
      var e := b[p.value..];
      assert forall q :: 0 <= q < |e| - 1 ==> e[1..][q] == b[p.value + 1 + q];
    }
  }

  /**
   * The backup location of a file: `_backup/<stem>.backup_<pid>.<ext>`, with
   * ext the extension without its dot (`ext[1 .. -1]` is nil, printed as
   * nothing, when there is no extension).
   */
  function BackupPath(file: string, pid: string): (p: string)
  {
    var b := Basename(file);
    ExtnameShape(b);
    var e := Extname(b);
    "_backup/" + Stem(b) + ".backup_" + pid + "." + (if |e| == 0 then "" else e[1..])
  }

  /** The backup location depends only on the basename: two files of one name in two directories share it. */
  lemma BackupSharedByBasename(f1: string, f2: string, pid: string)
    requires Basename(f1) == Basename(f2)
    ensures BackupPath(f1, pid) == BackupPath(f2, pid)
  {
  }

  /** The basename of a path whose last component is name. */
  lemma {:induction false} BasenameOf(dir: string, name: string)
    requires '/' !in name
    ensures Basename(dir + "/" + name) == name
    decreases |name|
  {
    var p := dir + "/" + name;
    if |name| == 0 {
      assert p[|p| - 1] == '/';
    } else {
      assert p[..|p| - 1] == dir + "/" + name[..|name| - 1];
      BasenameOf(dir, name[..|name| - 1]);
      assert name == name[..|name| - 1] + [name[|name| - 1]];
    }
  }

  /** The stem and extension of "lit.c". */
  lemma LitExtname()
    ensures Extname("lit.c") == ".c" && Stem("lit.c") == "lit"
  {
    var b := "lit.c";
    assert LeadingDots(b) == 0;
    assert LastDot(b, 0, 5) == Some(3);
  }

  /** The backup of any file named lit.c under process 42. */
  lemma BackupOfLit(file: string)
    requires Basename(file) == "lit.c"
    ensures BackupPath(file, "42") == "_backup/lit.backup_42.c"
  {
    LitExtname();
    assert ".c"[1..] == "c";
  }

  /** The backup of src/lit.c under process 42, which lib/lit.c shares. */
  lemma BackupExample()
    ensures BackupPath("src/lit.c", "42") == "_backup/lit.backup_42.c"
    ensures BackupPath("lib/lit.c", "42") == BackupPath("src/lit.c", "42")
  {
    BasenameOf("src", "lit.c");
    assert "src" + "/" + "lit.c" == "src/lit.c";
    BasenameOf("lib", "lit.c");
    assert "lib" + "/" + "lit.c" == "lib/lit.c";
    BackupOfLit("src/lit.c");
    BackupOfLit("lib/lit.c");
  }

  // ---------------------------------------------------------------------
  // run_replace
  // ---------------------------------------------------------------------

  /** s ends with t. */
  predicate EndsWith(s: string, t: string)
  {
    |t| <= |s| && s[|s| - |t|..] == t
  }

  /** `symfile.match(/\.ya?ml$/)`: some line of the name ends with ".yml" or ".yaml". */
  predicate YamlName(s: string)
  {
    exists j :: 0 <= j <= |s| && (j == |s| || s[j] == '\n') && (EndsWith(s[..j], ".yml") || EndsWith(s[..j], ".yaml"))
  }

  /** The failures counted for the symbol-table argument: missing, not a regular file, or not named .yml/.yaml. */
  function SymfileFailures(args: seq<string>, disk: map<string, string>): nat
  {
    if |args| == 0 || args[0] !in disk then 1
    else if YamlName(args[0]) then 0
    else 1
  }

  /** One failure for each file argument that is not a regular file. */
  function MissingFiles(files: seq<string>, disk: map<string, string>): nat
  {
    if |files| == 0 then 0
    else MissingFiles(files[..|files| - 1], disk) + (if files[|files| - 1] in disk then 0 else 1)
  }

  /** The file arguments: what follows the symbol table. */
  function FileArgs(args: seq<string>): seq<string>
  {
    if |args| == 0 then [] else args[1..]
  }

  /** The failures counted for the arguments, before the table is read. */
  function ArgFailures(args: seq<string>, disk: map<string, string>): nat
  {
    SymfileFailures(args, disk) + (if |FileArgs(args)| == 0 then 1 else 0) + MissingFiles(FileArgs(args), disk)
  }

  /** No file is counted missing exactly when every file argument is a regular file. */
  lemma {:induction false} MissingFilesZero(files: seq<string>, disk: map<string, string>)
    ensures MissingFiles(files, disk) == 0 <==> forall i :: 0 <= i < |files| ==> files[i] in disk
  {
    if |files| > 0 {
      var init := files[..|files| - 1];
      MissingFilesZero(init, disk);
      assert forall i :: 0 <= i < |init| ==> init[i] == files[i];
    }
  }

  /** The arguments pass exactly when the table is a regular .yml/.yaml file and at least one file follows, every one regular. */
  lemma ArgsPass(args: seq<string>, disk: map<string, string>)
    ensures ArgFailures(args, disk) == 0 <==>
      |args| >= 2 && args[0] in disk && YamlName(args[0]) && forall i :: 1 <= i < |args| ==> args[i] in disk
  {
    MissingFilesZero(FileArgs(args), disk);
    if |args| >= 1 {
      assert forall i :: 1 <= i < |args| ==> args[i] == FileArgs(args)[i - 1];
    }
  }

  /** The argument checks of run_replace, in order. */
  method CheckArguments(args: seq<string>, disk: map<string, string>) returns (failcnt: nat)
    ensures failcnt == ArgFailures(args, disk)
  {
    failcnt := 0;
    if |args| == 0 || args[0] !in disk {
      failcnt := failcnt + 1;
    } else if !YamlName(args[0]) {
      failcnt := failcnt + 1;
    }
    var thefiles := FileArgs(args);
    if |thefiles| == 0 {
      failcnt := failcnt + 1;
    }
    var i := 0;
    while i < |thefiles|
      invariant 0 <= i <= |thefiles|
      invariant failcnt == SymfileFailures(args, disk) + (if |thefiles| == 0 then 1 else 0) + MissingFiles(thefiles[..i], disk)
    {
      if thefiles[i] !in disk {
        failcnt := failcnt + 1;
      }
      assert thefiles[..i + 1][..i] == thefiles[..i];
      i := i + 1;
    }
    assert thefiles[..|thefiles|] == thefiles;
  }

  /** What reading the table gave: an exception (no file, bad YAML), something other than a Hash, or a Hash. */
  datatype Loaded = Failed | NotHash | Hash(pairs: seq<(Yaml, Yaml)>)

  /** The failures the table adds, with the corrected check. */
  function TableFailures(table: Loaded): nat
  {
    match table
    case Failed => 1
    case NotHash => 1
    case Hash(pairs) => Tallied(pairs, true).failures
  }

  /** The table path as written: the literal syms.yml, whatever the first argument names. */
  const SYMS := "syms.yml"

  /** The table run_replace reads, as written: YAML.load(File.read("syms.yml")). */
  function LoadTableAsWritten(args: seq<string>, disk: map<string, string>, parse: string -> Loaded): Loaded
  {
    if SYMS in disk then parse(disk[SYMS]) else Failed
  }

  /** The table run_replace evidently means to read: the one its first argument names. */
  function LoadTable(args: seq<string>, disk: map<string, string>, parse: string -> Loaded): Loaded
  {
    if |args| > 0 && args[0] in disk then parse(disk[args[0]]) else Failed
  }

  /** As written, the table checked for existence and the table read are different files. */
  lemma TableIgnoresArgument(parse: string -> Loaded)
    ensures LoadTableAsWritten(["names.yml", "lit.c"], map["names.yml" := "a: b", "lit.c" := "a"], parse) == Failed
    ensures ArgFailures(["names.yml", "lit.c"], map["names.yml" := "a: b", "lit.c" := "a"]) == 0
  {
    var args := ["names.yml", "lit.c"];
    var disk := map["names.yml" := "a: b", "lit.c" := "a"];
    assert EndsWith(args[0][..9], ".yml");
    ArgsPass(args, disk);
  }

  /** Once the arguments pass, the corrected run reads the table that was checked. */
  lemma TableIsArgument(args: seq<string>, disk: map<string, string>, parse: string -> Loaded)
    requires ArgFailures(args, disk) == 0
    ensures LoadTable(args, disk, parse) == parse(disk[args[0]])
  {
    ArgsPass(args, disk);
  }

  /** The text of a key or value; a table that passed holds only Strings (ValidOnlyIf). */
  function Text(v: Yaml): string
  {
    match v
    case Str(s) => s
    case Other(_) => ""
  }

  /** The renames do_gsub applies: the recorded names of a table, as text. */
  function Renames(table: Loaded): seq<(string, string)>
  {
    if table.Hash? then
      var names := Tallied(table.pairs, true).names;
      seq(|names|, i requires 0 <= i < |names| => (Text(names[i].0), Text(names[i].1)))
    else []
  }

  /** One round of the loop over thefiles, for a file and its backup location: the copy, then do_gsub, which writes only when something matched. */
  function ReplaceStep(d: map<string, string>, job: (string, string), mapping: seq<(string, string)>): map<string, string>
  {
    var (f, backup) := job;
    if f !in d then d
    else
      var d1 := d[backup := d[f]];
      var (data, cnt) := Gsub(d1[f], mapping);
      if cnt > 0 then d1[f := data] else d1
  }

  /** The files after the loop over thefiles, each given with its backup location. */
  function Rewritten(disk: map<string, string>, jobs: seq<(string, string)>, mapping: seq<(string, string)>): map<string, string>
  {
    if |jobs| == 0 then disk
    else ReplaceStep(Rewritten(disk, jobs[..|jobs| - 1], mapping), jobs[|jobs| - 1], mapping)
  }

  /** The loop over the first i + 1 jobs is the loop over the first i, then one more round. */
  lemma RewrittenNext(disk: map<string, string>, jobs: seq<(string, string)>, i: nat, mapping: seq<(string, string)>)
    requires i < |jobs|
    ensures Rewritten(disk, jobs[..i + 1], mapping) == ReplaceStep(Rewritten(disk, jobs[..i], mapping), jobs[i], mapping)
  {
    assert jobs[..i + 1][..i] == jobs[..i];
  }

  /** Each file with its backup location. */
  function Jobs(files: seq<string>, pid: string): (jobs: seq<(string, string)>)
    ensures |jobs| == |files| && forall i :: 0 <= i < |files| ==> jobs[i] == (files[i], BackupPath(files[i], pid))
  {
    seq(|files|, i requires 0 <= i < |files| => (files[i], BackupPath(files[i], pid)))
  }

  /** A round touches only the file and its backup, adds only the backup, and leaves the file holding do_gsub's result. */
  lemma StepEffects(d: map<string, string>, job: (string, string), mapping: seq<(string, string)>)
    requires job.0 in d
    ensures ReplaceStep(d, job, mapping).Keys == d.Keys + {job.1}
    ensures forall p :: p in d && p != job.0 && p != job.1 ==> ReplaceStep(d, job, mapping)[p] == d[p]
    ensures job.1 != job.0 ==> ReplaceStep(d, job, mapping)[job.0] == Gsub(d[job.0], mapping).0
    ensures job.1 != job.0 ==> ReplaceStep(d, job, mapping)[job.1] == d[job.0]
  {
    var d1 := d[job.1 := d[job.0]];
    if job.1 != job.0 && Gsub(d1[job.0], mapping).1 == 0 {
      NoMatchesNoChange(d1[job.0], mapping);
    }
  }

  /** Rewriting only adds files. */
  lemma {:induction false} RewrittenGrows(disk: map<string, string>, jobs: seq<(string, string)>, mapping: seq<(string, string)>)
    ensures disk.Keys <= Rewritten(disk, jobs, mapping).Keys
  {
    if |jobs| > 0 {
      var d := Rewritten(disk, jobs[..|jobs| - 1], mapping);
      RewrittenGrows(disk, jobs[..|jobs| - 1], mapping);
      if jobs[|jobs| - 1].0 in d {
        StepEffects(d, jobs[|jobs| - 1], mapping);
      }
    }
  }

  /** A file that is neither one of the files nor one of their backups is left as it was. */
  lemma {:induction false} RewrittenLeavesOthers(disk: map<string, string>, jobs: seq<(string, string)>, mapping: seq<(string, string)>, p: string)
    requires p in disk && forall i :: 0 <= i < |jobs| ==> jobs[i].0 != p && jobs[i].1 != p
    ensures p in Rewritten(disk, jobs, mapping) && Rewritten(disk, jobs, mapping)[p] == disk[p]
  {
    if |jobs| > 0 {
      var init := jobs[..|jobs| - 1];
      assert forall i :: 0 <= i < |init| ==> init[i] == jobs[i];
      RewrittenLeavesOthers(disk, init, mapping, p);
      var d := Rewritten(disk, init, mapping);
      if jobs[|jobs| - 1].0 in d {
        StepEffects(d, jobs[|jobs| - 1], mapping);
      }
    }
  }

  /** Distinct files, none of them the backup location of any. */
  ghost predicate Separate(jobs: seq<(string, string)>)
  {
    (forall i, j :: 0 <= i < j < |jobs| ==> jobs[i].0 != jobs[j].0)
    && forall i, j :: 0 <= i < |jobs| && 0 <= j < |jobs| ==> jobs[i].1 != jobs[j].0
  }

  /** Each file ends up holding do_gsub's substitution of its original contents, whether or not it was written. */
  lemma {:induction false} RewrittenFile(disk: map<string, string>, jobs: seq<(string, string)>, mapping: seq<(string, string)>, k: nat)
    requires Separate(jobs) && k < |jobs| && forall i :: 0 <= i < |jobs| ==> jobs[i].0 in disk
    ensures jobs[k].0 in Rewritten(disk, jobs, mapping)
    ensures Rewritten(disk, jobs, mapping)[jobs[k].0] == Gsub(disk[jobs[k].0], mapping).0
  {
    var init := jobs[..|jobs| - 1];
    var last := jobs[|jobs| - 1];
    assert forall i :: 0 <= i < |init| ==> init[i] == jobs[i];
    assert Separate(init);
    RewrittenGrows(disk, init, mapping);
    var d := Rewritten(disk, init, mapping);
    StepEffects(d, last, mapping);
    if k < |init| {
      RewrittenFile(disk, init, mapping, k);
    } else {
      RewrittenLeavesOthers(disk, init, mapping, last.0);
    }
  }

  /** With backup locations distinct from each other and from the files, each backup holds its file's original contents. */
  lemma {:induction false} BackupHoldsOriginal(disk: map<string, string>, jobs: seq<(string, string)>, mapping: seq<(string, string)>, k: nat)
    requires Separate(jobs) && k < |jobs| && forall i :: 0 <= i < |jobs| ==> jobs[i].0 in disk
    requires forall i, j :: 0 <= i < j < |jobs| ==> jobs[i].1 != jobs[j].1
    ensures jobs[k].1 in Rewritten(disk, jobs, mapping)
    ensures Rewritten(disk, jobs, mapping)[jobs[k].1] == disk[jobs[k].0]
  {
    var init := jobs[..|jobs| - 1];
    var last := jobs[|jobs| - 1];
    assert forall i :: 0 <= i < |init| ==> init[i] == jobs[i];
    assert Separate(init);
    RewrittenGrows(disk, init, mapping);
    var d := Rewritten(disk, init, mapping);
    StepEffects(d, last, mapping);
    if k < |init| {
      BackupHoldsOriginal(disk, init, mapping, k);
    } else {
      RewrittenLeavesOthers(disk, init, mapping, last.0);
    }
  }

  /** One round of the loop over thefiles: FileUtils.copy to the backup location, then do_gsub. */
  method ReplaceFile(d: map<string, string>, thefile: string, mapping: seq<(string, string)>, pid: string)
    returns (after: map<string, string>)
    requires thefile in d
    ensures after == ReplaceStep(d, (thefile, BackupPath(thefile, pid)), mapping)
  {
    var backuploc := BackupPath(thefile, pid);
    after := d[backuploc := d[thefile]];
    var changecnt, data := DoGsub(after[thefile], mapping);
    if changecnt > 0 {
      after := after[thefile := data];
    }
  }

  /** The loop over thefiles, run once every check passed. */
  method ReplaceFiles(disk: map<string, string>, thefiles: seq<string>, mapping: seq<(string, string)>, pid: string)
    returns (after: map<string, string>)
    requires forall i :: 0 <= i < |thefiles| ==> thefiles[i] in disk
    ensures after == Rewritten(disk, Jobs(thefiles, pid), mapping)
  {
    var jobs := Jobs(thefiles, pid);
    after := disk;
    var i := 0;
    while i < |thefiles|
      invariant 0 <= i <= |thefiles|
      invariant after == Rewritten(disk, jobs[..i], mapping)
    {
      RewrittenGrows(disk, jobs[..i], mapping);
      RewrittenNext(disk, jobs, i, mapping);
      after := ReplaceFile(after, thefiles[i], mapping, pid);
      i := i + 1;
    }
    assert jobs[..|thefiles|] == jobs;
  }

  /**
   * run_replace after the options: the argument checks, the table checks, and
   * then, only when nothing failed, a backup and do_gsub for each file. The
   * exit status is returned. The table is checked with the corrected
   * fail_if_not_sym (Validate with strict set); as written, a value that is
   * not a String or has one word line among others passes
   * (FailIfNotSymAsWritten).
   */
  method RunReplace(args: seq<string>, disk: map<string, string>, table: Loaded, pid: string)
    returns (code: int, after: map<string, string>)
    ensures code == 0 || code == 1
    ensures code == 1 <==> ArgFailures(args, disk) + TableFailures(table) > 0
    ensures code == 1 ==> after == disk
    ensures code == 0 ==> table.Hash? && AllWords(table.pairs) && DistinctValues(table.pairs)
    ensures code == 0 ==> after == Rewritten(disk, Jobs(FileArgs(args), pid), Renames(table))
  {
    var failcnt := CheckArguments(args, disk);
    match table {
      case Failed =>
        failcnt := failcnt + 1;
      case NotHash =>
        failcnt := failcnt + 1;
      case Hash(pairs) =>
        var f, names := Validate(pairs, true);
        failcnt := failcnt + f;
    }
    if failcnt != 0 {
      return 1, disk;
    }
    ValidOnlyIf(table.pairs);
    ArgsPass(args, disk);
    var thefiles := FileArgs(args);
    assert forall i :: 0 <= i < |thefiles| ==> thefiles[i] == args[i + 1];
    after := ReplaceFiles(disk, thefiles, Renames(table), pid);
    return 0, after;
  }

  // ---------------------------------------------------------------------
  // The verb
  // ---------------------------------------------------------------------

  /** What the first argument selects. */
  datatype Verb = Generate | Replace | Unrecognized | NoVerb

  /** String#downcase on ASCII letters. */
  function Downcase(s: string): (r: string)
    ensures |r| == |s|
  {
    seq(|s|, i requires 0 <= i < |s| => if 'A' <= s[i] <= 'Z' then (s[i] as int + 32) as char else s[i])
  }

  /** Some line of s starts with c: what `/^c.../` needs of s. */
  predicate LineStartsWith(s: string, c: char)
  {
    exists i :: 0 <= i < |s| && s[i] == c && (i == 0 || s[i - 1] == '\n')
  }

  /**
   * The dispatch as written: `/^g(en(erate)?)?/` and `/^r(e(place)?)?/` have
   * no end anchor, so any verb with a line starting with g (or r) selects it.
   */
  function VerbAsWritten(verb: Option<string>): Verb
  {
    match verb
    case None => NoVerb
    case Some(v) =>
      var d := Downcase(v);
      if LineStartsWith(d, 'g') then Generate
      else if LineStartsWith(d, 'r') then Replace
      else Unrecognized
  }

  /** The dispatch evidently intended: exactly g, gen or generate, and r, re or replace, in any case. */
  function VerbOf(verb: Option<string>): Verb
  {
    match verb
    case None => NoVerb
    case Some(v) =>
      var d := Downcase(v);
      if d == "g" || d == "gen" || d == "generate" then Generate
      else if d == "r" || d == "re" || d == "replace" then Replace
      else Unrecognized
  }

  /** c does not occur in s. */
  predicate Lacks(s: string, c: char)
  {
    |s| == 0 || (s[0] != c && Lacks(s[1..], c))
  }

  /** A string without c has no line starting with c. */
  lemma {:induction false} LacksNoLine(s: string, c: char)
    requires Lacks(s, c)
    ensures forall i :: 0 <= i < |s| ==> s[i] != c
    ensures !LineStartsWith(s, c)
  {
    if |s| > 0 {
      LacksNoLine(s[1..], c);
      assert forall i :: 1 <= i < |s| ==> s[i] == s[1..][i - 1];
    }
  }

  /** Every verb the intended dispatch accepts selects the same thing as written. */
  lemma VerbsAgree(verb: Option<string>)
    requires VerbOf(verb) != Unrecognized
    ensures VerbAsWritten(verb) == VerbOf(verb)
  {
    if verb.Some? {
      var d := Downcase(verb.value);
      if VerbOf(verb) == Replace {
        if d == "replace" {
          assert Lacks("replace", 'g');
        } else if d == "re" {
          assert Lacks("re", 'g');
        } else {
          assert Lacks("r", 'g');
        }
        LacksNoLine(d, 'g');
        assert d[0] == 'r';
        assert LineStartsWith(d, 'r');
      } else {
        assert d[0] == 'g';
        assert LineStartsWith(d, 'g');
      }
    }
  }

  /** As written, "grep" selects generate and "Remove" selects replace. */
  lemma PrefixVerbs()
    ensures VerbAsWritten(Some("grep")) == Generate && VerbOf(Some("grep")) == Unrecognized
    ensures VerbAsWritten(Some("Remove")) == Replace && VerbOf(Some("Remove")) == Unrecognized
  {
    assert Downcase("grep")[0] == 'g';
    assert Downcase("Remove") == "remove";
    LacksNoLine("remove", 'g');
    assert "remove"[0] == 'r';
  }

  // ---------------------------------------------------------------------
  // runcproto and run_generate
  // ---------------------------------------------------------------------

  /** `\s` in a Ruby regex. */
  predicate IsSpace(c: char)
  {
    c == ' ' || c == '\t' || c == '\n' || c == '\U{000B}' || c == '\U{000C}' || c == '\r'
  }

  /** What String#strip removes: whitespace and NUL. */
  predicate IsBlank(c: char)
  {
    IsSpace(c) || c == '\0'
  }

  /** String#lstrip. */
  function StripStart(s: string): (r: string)
    ensures |r| <= |s| && r == s[|s| - |r|..] && (|r| == 0 || !IsBlank(r[0]))
  {
    if |s| > 0 && IsBlank(s[0]) then StripStart(s[1..]) else s
  }

  /** String#rstrip. */
  function StripEnd(s: string): (r: string)
    ensures |r| <= |s| && r == s[..|r|] && (|r| == 0 || !IsBlank(r[|r| - 1]))
  {
    if |s| > 0 && IsBlank(s[|s| - 1]) then StripEnd(s[..|s| - 1]) else s
  }

  /** String#strip: a piece of s with nothing blank at either end. */
  function Strip(s: string): (r: string)
    ensures |r| <= |s|
    ensures |r| == 0 || (!IsBlank(r[0]) && !IsBlank(r[|r| - 1]))
  {
    StripEnd(StripStart(s))
  }

  /** Stripping twice is stripping once. */
  lemma StripIdempotent(s: string)
    ensures Strip(Strip(s)) == Strip(s)
  {
    var r := Strip(s);
    assert StripStart(r) == r;
    assert StripEnd(r) == r;
  }

  /** The length of the run of `\s` characters s starts with. */
  function SpaceRun(s: string): (n: nat)
    ensures n <= |s| && (n < |s| ==> !IsSpace(s[n]))
    ensures forall i :: 0 <= i < n ==> IsSpace(s[i])
  {
    if |s| > 0 && IsSpace(s[0]) then 1 + SpaceRun(s[1..]) else 0
  }

  /** t occurs in s at q. */
  predicate OccursAt(s: string, t: string, q: int)
  {
    0 <= q && q + |t| <= |s| && s[q..q + |t|] == t
  }

  /** The first position at or after lo where t occurs in s. */
  function Find(s: string, t: string, lo: nat): (p: Option<nat>)
    ensures p.Some? ==> lo <= p.value && OccursAt(s, t, p.value)
    ensures p.Some? ==> forall q :: lo <= q < p.value ==> !OccursAt(s, t, q)
    ensures p.None? ==> forall q :: lo <= q ==> !OccursAt(s, t, q)
    decreases |s| - lo
  {
    if lo + |t| > |s| then None
    else if s[lo..lo + |t|] == t then Some(lo)
    else Find(s, t, lo + 1)
  }

  /** The last position q with lo <= q and q + |t| <= hi where t occurs in s. */
  function FindLast(s: string, t: string, lo: nat, hi: nat): (p: Option<nat>)
    requires |t| > 0 && hi <= |s|
    ensures p.Some? ==> lo <= p.value && p.value + |t| <= hi && OccursAt(s, t, p.value)
    ensures p.Some? ==> forall q :: p.value < q && q + |t| <= hi ==> !OccursAt(s, t, q)
    ensures p.None? ==> forall q :: lo <= q && q + |t| <= hi ==> !OccursAt(s, t, q)
    decreases hi
  {
    if hi < lo + |t| then None
    else if s[hi - |t|..hi] == t then Some(hi - |t|)
    else FindLast(s, t, lo, hi - 1)
  }

  /** `s.include?(t)`. */
  predicate Contains(s: string, t: string)
  {
    Find(s, t, 0).Some?
  }

  // The first gsub of rawline, with the regex slash-star, spaces, (.*), spaces,
  // star-slash: from the first comment opener to the last comment closer after
  // it, the two markers and the spaces after the opener go.
  function UnwrapComment(s: string): string
  {
    match Find(s, "/*", 0)
    case None => s
    case Some(a) =>
      match FindLast(s, "*/", a + 2, |s|)
      case None => s
      case Some(b) =>
        var inner := s[a + 2..b];
        s[..a] + inner[SpaceRun(inner)..] + s[b + 2..]
  }

  // The second gsub of rawline: every "//", with the spaces around it, goes.
  function DropSlashes(s: string): string
    decreases |s|
  {
    if |s| == 0 then ""
    else
      var w := SpaceRun(s);
      if w + 2 <= |s| && s[w..w + 2] == "//" then
        var rest := s[w + 2..];
        DropSlashes(rest[SpaceRun(rest)..])
      else [s[0]] + DropSlashes(s[1..])
  }

  /** The third gsub of rawline: every run of spaces becomes one space. */
  function Squeeze(s: string): (r: string)
    ensures |r| <= |s|
    decreases |s|
  {
    if |s| == 0 then ""
    else if IsSpace(s[0]) then " " + Squeeze(s[SpaceRun(s)..])
    else [s[0]] + Squeeze(s[1..])
  }

  /** No two spaces in a row, and no `\s` but the plain space. */
  predicate Squeezed(s: string)
  {
    forall i {:trigger s[i]} :: 0 <= i < |s| ==> IsSpace(s[i]) ==> s[i] == ' ' && (i + 1 == |s| || !IsSpace(s[i + 1]))
  }

  /** A character in front of a squeezed string keeps it squeezed, unless it makes two spaces in a row. */
  lemma SqueezedCons(c: char, r: string)
    requires Squeezed(r) && (IsSpace(c) ==> c == ' ' && (|r| == 0 || !IsSpace(r[0])))
    ensures Squeezed([c] + r)
  {
    var t := [c] + r;
    forall i | 0 <= i < |t| && IsSpace(t[i])
      ensures t[i] == ' ' && (i + 1 == |t| || !IsSpace(t[i + 1]))
    {
      if i == 0 {
        assert t[0] == c;
        if |r| > 0 {
          assert t[1] == r[0];
        }
      } else {
        assert t[i] == r[i - 1];
        if i + 1 < |t| {
          assert t[i + 1] == r[i];
        }
      }
    }
  }

  /** Squeeze leaves single plain spaces only. */
  lemma {:induction false} SqueezeSqueezed(s: string)
    ensures Squeezed(Squeeze(s))
    ensures |s| > 0 && !IsSpace(s[0]) ==> |Squeeze(s)| > 0 && Squeeze(s)[0] == s[0]
    decreases |s|
  {
    if |s| > 0 {
      if IsSpace(s[0]) {
        var rest := s[SpaceRun(s)..];
        assert |rest| > 0 ==> rest[0] == s[SpaceRun(s)];
        SqueezeSqueezed(rest);
        SqueezedCons(' ', Squeeze(rest));
        assert " " + Squeeze(rest) == [' '] + Squeeze(rest);
      } else {
        SqueezeSqueezed(s[1..]);
        SqueezedCons(s[0], Squeeze(s[1..]));
      }
    }
  }

  /** The key of a prototype line (rawline): comments unwrapped, "//" dropped, spaces squeezed, stripped. */
  function Key(s: string): string
  {
    Strip(Squeeze(DropSlashes(UnwrapComment(s))))
  }

  // The first gsub of the value: each comment, from its opener to the first
  // closer after it, goes.
  function DropComments(s: string): string
    decreases |s|
  {
    if |s| == 0 then ""
    else if |s| >= 2 && s[..2] == "/*" then
      match Find(s, "*/", 2)
      case Some(b) => DropComments(s[b + 2..])
      case None => [s[0]] + DropComments(s[1..])
    else [s[0]] + DropComments(s[1..])
  }

  /** `gsub(/\/\/.*$/, "")` on a line: everything from the first "//" goes. */
  function DropLineComment(s: string): (r: string)
    ensures !Contains(r, "//")
  {
    match Find(s, "//", 0)
    case None => s
    case Some(p) =>
      forall q | OccursAt(s[..p], "//", q)
        ensures OccursAt(s, "//", q)
      {
        assert s[..p][q..q + 2] == s[q..q + 2];
      }
      s[..p]
  }

  /** The value runcproto keeps for a line: comments dropped, stripped. */
  function Clean(s: string): string
  {
    Strip(DropLineComment(DropComments(s)))
  }

  /** The filters: only lines with "static" under -s, and no line with "inline" unless -i. */
  predicate Keep(s: string, onlystatics: bool, alsoinline: bool)
  {
    (!onlystatics || Contains(s, "static")) && (alsoinline || !Contains(s, "inline"))
  }

  /** `raw.split(/\n/)` before trailing empty fields are dropped. */
  function SplitFields(raw: string): seq<string>
    decreases |raw|
  {
    match Find(raw, "\n", 0)
    case None => [raw]
    case Some(p) => [raw[..p]] + SplitFields(raw[p + 1..])
  }

  /** The fields joined back with newlines. */
  function JoinLines(ls: seq<string>): string
  {
    if |ls| == 0 then "" else if |ls| == 1 then ls[0] else ls[0] + "\n" + JoinLines(ls[1..])
  }

  /** Splitting at the newlines and joining back gives the text, and no field holds a newline. */
  lemma {:induction false} SplitJoin(raw: string)
    ensures JoinLines(SplitFields(raw)) == raw
    ensures forall i :: 0 <= i < |SplitFields(raw)| ==> !Contains(SplitFields(raw)[i], "\n")
    decreases |raw|
  {
    match Find(raw, "\n", 0)
    case None =>
    case Some(p) =>
      var rest := raw[p + 1..];
      SplitJoin(rest);
      var f := raw[..p];
      forall q | OccursAt(f, "\n", q)
        ensures OccursAt(raw, "\n", q)
      {
        assert f[q..q + 1] == raw[q..q + 1];
      }
      assert |SplitFields(rest)| >= 1 by {
        match Find(rest, "\n", 0)
        case None =>
        case Some(_) =>
      }
      assert raw == f + "\n" + rest by {
        assert raw[p..p + 1] == "\n";
      }
  }

  /** Ruby's split drops the empty fields at the end. */
  function DropTrailingEmpty(ls: seq<string>): seq<string>
  {
    if |ls| > 0 && ls[|ls| - 1] == "" then DropTrailingEmpty(ls[..|ls| - 1]) else ls
  }

  /** The lines of cproto's output. */
  function Lines(raw: string): seq<string>
  {
    DropTrailingEmpty(SplitFields(raw))
  }

  /** What the loop body records for a line: nothing when a filter skips it, else its key and the stripped line. */
  function Record(line: string, onlystatics: bool, alsoinline: bool): Option<(string, string)>
  {
    var s := Strip(line);
    if Keep(s, onlystatics, alsoinline) then Some((Key(s), s)) else None
  }

  /** The record of each line. */
  function Records(lines: seq<string>, onlystatics: bool, alsoinline: bool): (recs: seq<Option<(string, string)>>)
    ensures |recs| == |lines| && forall i :: 0 <= i < |lines| ==> recs[i] == Record(lines[i], onlystatics, alsoinline)
  {
    seq(|lines|, i requires 0 <= i < |lines| => Record(lines[i], onlystatics, alsoinline))
  }

  /** The ordered hash nlines after some records: each recorded line under its key, a later one replacing an earlier. */
  function Collect(recs: seq<Option<(string, string)>>): seq<(string, string)>
  {
    if |recs| == 0 then []
    else
      var c := Collect(recs[..|recs| - 1]);
      match recs[|recs| - 1]
      case None => c
      case Some(x) => Put(c, x.0, x.1)
  }

  /** The map step of runcproto: each value cleaned. */
  function CleanValues(nlines: seq<(string, string)>): (r: seq<(string, string)>)
    ensures |r| == |nlines| && forall i :: 0 <= i < |nlines| ==> r[i] == (nlines[i].0, Clean(nlines[i].1))
  {
    seq(|nlines|, i requires 0 <= i < |nlines| => (nlines[i].0, Clean(nlines[i].1)))
  }

  /** The reject step of runcproto: the entries whose value is empty go. */
  function RejectEmpty(ps: seq<(string, string)>): seq<(string, string)>
  {
    if |ps| == 0 then []
    else
      var c := RejectEmpty(ps[..|ps| - 1]);
      if ps[|ps| - 1].1 == "" then c else c + [ps[|ps| - 1]]
  }

  /** What runcproto returns for cproto's output raw. */
  function Prototypes(raw: string, onlystatics: bool, alsoinline: bool): seq<(string, string)>
  {
    RejectEmpty(CleanValues(Collect(Records(Lines(raw), onlystatics, alsoinline))))
  }

  /** One round of runcproto's loop over the lines: strip, compute rawline, apply the filters. */
  method RecordLine(line: string, onlystatics: bool, alsoinline: bool) returns (r: Option<(string, string)>)
    ensures r == Record(line, onlystatics, alsoinline)
  {
    var s := Strip(line);
    var rawline := Key(s);
    if onlystatics && !Contains(s, "static") {
      return None;
    }
    if !alsoinline && Contains(s, "inline") {
      return None;
    }
    return Some((rawline, s));
  }

  /** One more record: Collect of the longer prefix is Collect of the shorter, with the record put. */
  lemma CollectNext(recs: seq<Option<(string, string)>>, i: nat)
    requires i < |recs|
    ensures Collect(recs[..i + 1]) == match recs[i] { case None => Collect(recs[..i]) case Some(x) => Put(Collect(recs[..i]), x.0, x.1) }
  {
    assert recs[..i + 1][..i] == recs[..i];
  }

  /** One more entry: RejectEmpty of the longer prefix keeps the entry when its value is not empty. */
  lemma RejectNext(ps: seq<(string, string)>, j: nat)
    requires j < |ps|
    ensures RejectEmpty(ps[..j + 1]) == if ps[j].1 == "" then RejectEmpty(ps[..j]) else RejectEmpty(ps[..j]) + [ps[j]]
  {
    assert ps[..j + 1][..j] == ps[..j];
  }

  /** The loop over the lines: nlines[rawline] = s for each line the filters keep. */
  method CollectLines(lines: seq<string>, onlystatics: bool, alsoinline: bool) returns (nlines: seq<(string, string)>)
    ensures nlines == Collect(Records(lines, onlystatics, alsoinline))
  {
    ghost var recs := Records(lines, onlystatics, alsoinline);
    nlines := [];
    var i := 0;
    while i < |lines|
      invariant 0 <= i <= |lines|
      invariant nlines == Collect(recs[..i])
    {
      CollectNext(recs, i);
      var r := RecordLine(lines[i], onlystatics, alsoinline);
      if r.Some? {
        nlines := Put(nlines, r.value.0, r.value.1);
      }
      i := i + 1;
    }
    assert recs[..|lines|] == recs;
  }

  /** The map and reject steps over nlines. */
  method CleanEntries(nlines: seq<(string, string)>) returns (protos: seq<(string, string)>)
    ensures protos == RejectEmpty(CleanValues(nlines))
  {
    ghost var cleaned := CleanValues(nlines);
    protos := [];
    var j := 0;
    while j < |nlines|
      invariant 0 <= j <= |nlines|
      invariant protos == RejectEmpty(cleaned[..j])
    {
      RejectNext(cleaned, j);
      var c := Clean(nlines[j].1);
      if c != "" {
        protos := protos + [(nlines[j].0, c)];
      }
      j := j + 1;
    }
    assert cleaned[..|nlines|] == cleaned;
  }

  /** runcproto on cproto's output. */
  method RunCproto(raw: string, onlystatics: bool, alsoinline: bool) returns (protos: seq<(string, string)>)
    ensures protos == Prototypes(raw, onlystatics, alsoinline)
  {
    var lines := Lines(raw);
    var nlines := CollectLines(lines, onlystatics, alsoinline);
    protos := CleanEntries(nlines);
  }

  /** Put keeps the keys distinct. */
  lemma PutDistinct<K, V>(names: seq<(K, V)>, k: K, v: V)
    requires DistinctKeys(names)
    ensures DistinctKeys(Put(names, k, v))
  {
    var r := Put(names, k, v);
    if k in Keys(names) {
      assert forall i :: 0 <= i < |r| ==> r[i].0 == Keys(r)[i] == Keys(names)[i] == names[i].0;
    } else {
      assert forall i :: 0 <= i < |names| ==> Keys(names)[i] == names[i].0 != k;
    }
  }

  /** No two entries of nlines share a key, and each is a record. */
  lemma {:induction false} CollectSound(recs: seq<Option<(string, string)>>)
    ensures DistinctKeys(Collect(recs))
    ensures forall x :: x in Collect(recs) ==> Some(x) in recs
  {
    if |recs| > 0 {
      var init := recs[..|recs| - 1];
      var c := Collect(init);
      CollectSound(init);
      assert forall r :: r in init ==> r in recs;
      match recs[|recs| - 1]
      case None =>
      case Some(x) =>
        PutDistinct(c, x.0, x.1);
        PutMembers(c, x.0, x.1);
    }
  }

  /** The value kept for a key is the last record with that key. */
  lemma {:induction false} LastRecordWins(recs: seq<Option<(string, string)>>, i: nat)
    requires i < |recs| && recs[i].Some?
    requires forall j :: i < j < |recs| && recs[j].Some? ==> recs[j].value.0 != recs[i].value.0
    ensures recs[i].value in Collect(recs)
  {
    var init := recs[..|recs| - 1];
    var c := Collect(init);
    if i < |init| {
      assert forall j :: 0 <= j < |init| ==> init[j] == recs[j];
      LastRecordWins(init, i);
      match recs[|recs| - 1]
      case None =>
      case Some(x) =>
        PutMembers(c, x.0, x.1);
    }
  }

  /** Rejecting keeps some of the entries, in order: those with a value. */
  lemma {:induction false} RejectSound(ps: seq<(string, string)>)
    ensures forall x :: x in RejectEmpty(ps) <==> x in ps && x.1 != ""
    ensures DistinctKeys(ps) ==> DistinctKeys(RejectEmpty(ps))
  {
    if |ps| > 0 {
      var init := ps[..|ps| - 1];
      var last := ps[|ps| - 1];
      RejectSound(init);
      assert ps == init + [last];
      if DistinctKeys(ps) {
        assert DistinctKeys(init);
        forall x | x in RejectEmpty(init)
          ensures x.0 != last.0
        {
          var i :| 0 <= i < |init| && init[i] == x;
          assert ps[i] == x;
        }
      }
    }
  }

  /** The map step keeps the keys, so distinct keys stay distinct. */
  lemma CleanKeepsDistinct(nlines: seq<(string, string)>)
    requires DistinctKeys(nlines)
    ensures DistinctKeys(CleanValues(nlines))
  {
    var cleaned := CleanValues(nlines);
    assert forall i :: 0 <= i < |nlines| ==> cleaned[i].0 == nlines[i].0;
  }

  /** Each entry after the map step is an entry before it, with its value cleaned. */
  lemma CleanedFrom(nlines: seq<(string, string)>, x: (string, string))
    requires x in CleanValues(nlines)
    ensures exists v :: (x.0, v) in nlines && x.1 == Clean(v)
  {
    var cleaned := CleanValues(nlines);
    var i :| 0 <= i < |cleaned| && cleaned[i] == x;
    assert nlines[i] in nlines;
  }

  /** After the map and reject steps: distinct keys, and each entry a record with its value cleaned, not empty. */
  lemma CleanedSound(recs: seq<Option<(string, string)>>)
    ensures DistinctKeys(RejectEmpty(CleanValues(Collect(recs))))
    ensures forall x :: x in RejectEmpty(CleanValues(Collect(recs))) ==>
      x.1 != "" && exists v :: Some((x.0, v)) in recs && x.1 == Clean(v)
  {
    var nlines := Collect(recs);
    var cleaned := CleanValues(nlines);
    CollectSound(recs);
    CleanKeepsDistinct(nlines);
    RejectSound(cleaned);
    forall x | x in RejectEmpty(cleaned)
      ensures exists v :: Some((x.0, v)) in recs && x.1 == Clean(v)
    {
      CleanedFrom(nlines, x);
    }
  }

  /** The prototypes have distinct keys, and each is the record of a line the filters keep, with its value cleaned, not empty. */
  lemma PrototypesSound(raw: string, onlystatics: bool, alsoinline: bool)
    ensures DistinctKeys(Prototypes(raw, onlystatics, alsoinline))
    ensures forall x :: x in Prototypes(raw, onlystatics, alsoinline) ==>
      x.1 != "" && exists v :: Some((x.0, v)) in Records(Lines(raw), onlystatics, alsoinline) && x.1 == Clean(v)
  {
    CleanedSound(Records(Lines(raw), onlystatics, alsoinline));
  }

  /** The last record of a key gives the prototype for that key, unless its cleaned value is empty. */
  lemma LastEntryKept(recs: seq<Option<(string, string)>>, i: nat)
    requires i < |recs| && recs[i].Some? && Clean(recs[i].value.1) != ""
    requires forall j :: i < j < |recs| && recs[j].Some? ==> recs[j].value.0 != recs[i].value.0
    ensures (recs[i].value.0, Clean(recs[i].value.1)) in RejectEmpty(CleanValues(Collect(recs)))
  {
    LastRecordWins(recs, i);
    var nlines := Collect(recs);
    var x := recs[i].value;
    var k :| 0 <= k < |nlines| && nlines[k] == x;
    var cleaned := CleanValues(nlines);
    assert cleaned[k] == (x.0, Clean(x.1));
    RejectSound(cleaned);
  }

  /** The record of a kept line whose key no later kept line has: no later record has its key. */
  lemma LaterRecordsDiffer(lines: seq<string>, onlystatics: bool, alsoinline: bool, i: nat)
    requires i < |lines| && Keep(Strip(lines[i]), onlystatics, alsoinline)
    requires forall j :: i < j < |lines| && Keep(Strip(lines[j]), onlystatics, alsoinline) ==>
      Key(Strip(lines[j])) != Key(Strip(lines[i]))
    ensures var recs := Records(lines, onlystatics, alsoinline);
      recs[i] == Some((Key(Strip(lines[i])), Strip(lines[i]))) &&
      forall j :: i < j < |recs| && recs[j].Some? ==> recs[j].value.0 != recs[i].value.0
  {
    var recs := Records(lines, onlystatics, alsoinline);
    forall j | i < j < |recs| && recs[j].Some?
      ensures recs[j].value.0 != Key(Strip(lines[i]))
    {
      assert recs[j] == Record(lines[j], onlystatics, alsoinline);
    }
  }

  /**
   * A line the filters keep, whose key no later kept line has, gives the
   * prototype for that key, unless its cleaned value is empty
   * (Prototypes(raw) is this pipeline on Lines(raw)).
   */
  lemma LastLineWins(lines: seq<string>, onlystatics: bool, alsoinline: bool, i: nat)
    requires i < |lines| && Keep(Strip(lines[i]), onlystatics, alsoinline)
    requires forall j :: i < j < |lines| && Keep(Strip(lines[j]), onlystatics, alsoinline) ==>
      Key(Strip(lines[j])) != Key(Strip(lines[i]))
    requires Clean(Strip(lines[i])) != ""
    ensures (Key(Strip(lines[i])), Clean(Strip(lines[i]))) in RejectEmpty(CleanValues(Collect(Records(lines, onlystatics, alsoinline))))
  {
    var recs := Records(lines, onlystatics, alsoinline);
    LaterRecordsDiffer(lines, onlystatics, alsoinline, i);
    LastEntryKept(recs, i);
  }

  /** `s.gsub(t, "")` for a literal t: every occurrence, left to right, goes. */
  function RemoveAll(s: string, t: string): (r: string)
    requires |t| > 0
    ensures |r| <= |s|
    decreases |s|
  {
    if |s| < |t| then s
    else if s[..|t|] == t then RemoveAll(s[|t|..], t)
    else [s[0]] + RemoveAll(s[1..], t)
  }

  /** Without an occurrence of t, removing t changes nothing. */
  lemma {:induction false} RemoveAbsent(s: string, t: string)
    requires |t| > 0 && !Contains(s, t)
    ensures RemoveAll(s, t) == s
    decreases |s|
  {
    if |s| >= |t| {
      assert s[0..|t|] == s[..|t|];
      assert !OccursAt(s, t, 0);
      forall q | OccursAt(s[1..], t, q)
        ensures OccursAt(s, t, q + 1)
      {
        assert s[1..][q..q + |t|] == s[q + 1..q + 1 + |t|];
      }
      RemoveAbsent(s[1..], t);
      assert [s[0]] + s[1..] == s;
    }
  }

  /** The new name run_generate gives a function: the prefix, then the name without "internal_". */
  function NewName(prefix: string, name: string): string
  {
    prefix + RemoveAll(name, "internal_")
  }

  /** The new name starts with the prefix and is no longer than the prefix and the name. */
  lemma NewNamePrefixed(prefix: string, name: string)
    ensures var r := NewName(prefix, name); |prefix| <= |r| <= |prefix| + |name| && r[..|prefix|] == prefix
  {
  }

  /** A name with no "internal_" in it only gains the prefix. */
  lemma NewNameKeeps(prefix: string, name: string)
    requires !Contains(name, "internal_")
    ensures NewName(prefix, name) == prefix + name
  {
    RemoveAbsent(name, "internal_");
  }

  /** "internal_" goes wherever it occurs. */
  lemma NewNameDrops()
    ensures NewName("lit_", "internal_gc") == "lit_gc"
  {
    assert "internal_gc"[..9] == "internal_";
    assert "internal_gc"[9..] == "gc";
  }

  /** One entry of run_generate's output: the prototype's key, the name found, and the new name. */
  datatype Entry = Entry(srcfunc: string, name: string, renamed: string)

  /** The entries run_generate prints: one per prototype, in order, with the new name of each. */
  method RenameAll(protos: seq<(string, string)>, prefix: string) returns (entries: seq<Entry>)
    ensures |entries| == |protos|
    ensures forall i :: 0 <= i < |protos| ==> entries[i] == Entry(protos[i].0, protos[i].1, NewName(prefix, protos[i].1))
  {
    entries := [];
    var i := 0;
    while i < |protos|
      invariant 0 <= i <= |protos| && |entries| == i
      invariant forall j :: 0 <= j < i ==> entries[j] == Entry(protos[j].0, protos[j].1, NewName(prefix, protos[j].1))
    {
      var (srcfunc, name) := protos[i];
      entries := entries + [Entry(srcfunc, name, NewName(prefix, name))];
      i := i + 1;
    }
  }

  /** run_generate after the options: an entry for each prototype, in order. */
  method RunGenerate(raw: string, prefix: string, onlystatics: bool, alsoinline: bool) returns (entries: seq<Entry>)
    ensures var protos := Prototypes(raw, onlystatics, alsoinline);
      |entries| == |protos| &&
      forall i :: 0 <= i < |protos| ==> entries[i] == Entry(protos[i].0, protos[i].1, NewName(prefix, protos[i].1))
  {
    var protos := RunCproto(raw, onlystatics, alsoinline);
    entries := RenameAll(protos, prefix);
  }
}
