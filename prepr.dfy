/**
 * The preprocessor of ccprepr.c. lit_preprocess walks a NUL-terminated
 * source buffer once and blanks, in place, every directive (`#define`,
 * `#undef`, `#ifdef`, `#ifndef`, `#else`, `#endif`) and every branch that
 * is not taken: each character other than a newline becomes a space, so the
 * text keeps its length and its line numbers. The names defined so far are
 * the keys of the preprocessor's `defined` table (each mapped to true); the
 * branches still open sit on its `open_ifs` list as positions in the buffer.
 *
 * One pass of the C loop is the function Step on the buffer and the loop's
 * state; Run iterates it. Both exist for the code as written and for a
 * corrected variant (see Variant). The class Preprocessor runs the corrected
 * loop on an array and is proved equal to Run.
 */
module Prepr {
  import opened Lit
  import opened Wrappers
  import Scan

  /**
   * The code as written, or with its defects fixed: a block comment ends at
   * its closing star-slash, a comment also ends a directive argument, and an
   * `#else` or `#endif` without an open branch is an error.
   */
  datatype Variant = AsWritten | Corrected

  /** The local variables of lit_preprocess. Positions are offsets into the buffer. */
  datatype Cursor = Cursor(current: nat, macroStart: nat, argStart: nat,
                           inMacro: bool, inArg: bool, onNewLine: bool,
                           ignoreDepth: int, depth: int)

  /**
   * The state of the loop: its locals, the defined names, the open-if list
   * and how far the list's size_t count has been decremented below zero
   * (count = |openIfs| - below, modulo 2^64).
   */
  datatype PState = PState(cursor: Cursor, defined: set<seq<char>>, openIfs: seq<nat>, below: nat)

  /** LITERROR_UNKNOWN_MACRO carries the directive's name. */
  datatype PrepError = UnknownMacro(name: seq<char>) | UnclosedMacro

  /** Where one pass of the loop body leads. */
  datatype Next =
    | Continue(buf: seq<char>, st: PState)
    | Stop(buf: seq<char>, st: PState)
    | Fail(error: PrepError, buf: seq<char>, st: PState)
    | OutOfBounds

  /** The result of lit_preprocess: the error reported (None when it returns true) and the final buffer and preprocessor. */
  datatype Outcome =
    | Done(error: Option<PrepError>, buf: seq<char>, defined: set<seq<char>>, openIfs: seq<nat>, below: nat)
    | Undefined

  /** The state when lit_preprocess starts, with the preprocessor's defined set and open-if list. */
  function Init(defined: set<seq<char>>, openIfs: seq<nat>): PState
  {
    PState(Cursor(0, 0, 0, false, false, true, -1, 0), defined, openIfs, 0)
  }

  // ---------------------------------------------------------------------
  // Blanking (override)
  // ---------------------------------------------------------------------

  /** override(p, n): every character of buf[p..p+n] except a newline becomes a space. */
  function Override(buf: seq<char>, p: nat, n: nat): (r: seq<char>)
    requires p + n <= |buf|
    ensures |r| == |buf|
    ensures forall i :: 0 <= i < |buf| ==> r[i] == (if p <= i < p + n && buf[i] != '\n' then ' ' else buf[i])
    decreases n
  {
    if n == 0 then buf
    else Override(buf[p := if buf[p] == '\n' then '\n' else ' '], p + 1, n - 1)
  }

  /** `out` is `orig` with some characters other than newlines replaced by spaces. */
  predicate Blanked(orig: seq<char>, out: seq<char>)
  {
    |out| == |orig| && forall i :: 0 <= i < |orig| ==> out[i] == orig[i] || (orig[i] != '\n' && out[i] == ' ')
  }

  lemma BlankedTrans(a: seq<char>, b: seq<char>, c: seq<char>)
    requires Blanked(a, b) && Blanked(b, c)
    ensures Blanked(a, c)
  {
  }

  /** Blanking keeps the newlines exactly where they were. */
  lemma BlankedKeepsNewlines(orig: seq<char>, out: seq<char>)
    requires Blanked(orig, out)
    ensures forall i :: 0 <= i < |orig| ==> (out[i] == '\n' <==> orig[i] == '\n')
  {
  }

  // ---------------------------------------------------------------------
  // One pass of the loop
  // ---------------------------------------------------------------------

  /** What every state of the loop satisfies before a character is read. */
  predicate Shape(buf: seq<char>, s: PState)
  {
    Scan.Terminated(buf) && s.cursor.current < |buf|
    && s.cursor.macroStart <= s.cursor.current && s.cursor.argStart <= s.cursor.current
    && (s.cursor.inMacro ==> 1 <= s.cursor.macroStart)
    && (s.below > 0 ==> s.openIfs == [])
  }

  /** One pass keeps the buffer's length, and a pass that goes on moves forward. */
  predicate Follows(buf: seq<char>, s: PState, r: Next)
  {
    match r
    case Continue(b, t) => Shape(b, t) && t.cursor.current > s.cursor.current && |b| == |buf|
    case Stop(b, _) => |b| == |buf|
    case Fail(_, b, _) => |b| == |buf|
    case OutOfBounds => true
  }

  /** memcmp(at, w, |w|) == 0 on a NUL-terminated buffer (w has no NUL, so the comparison stops inside it). */
  predicate Matches(buf: seq<char>, at: nat, w: seq<char>)
  {
    at + |w| <= |buf| && buf[at..at + |w|] == w
  }

  /** The directives that take an argument. */
  predicate TakesArgument(buf: seq<char>, at: nat)
  {
    Matches(buf, at, "define") || Matches(buf, at, "undef") || Matches(buf, at, "ifdef") || Matches(buf, at, "ifndef")
  }

  /** Any character before the NUL has a successor. */
  lemma Onward(buf: seq<char>, i: nat)
    requires Scan.Terminated(buf) && i < |buf|
    ensures buf[i] != '\0' ==> i + 1 < |buf|
  {
  }

  /** The loop condition: the pass that read the NUL is the last. */
  /** A comment starts at i: a slash followed by a slash or a star. */
  predicate Comment(buf: seq<char>, i: nat)
  {
    i + 1 < |buf| && buf[i] == '/' && (buf[i + 1] == '/' || buf[i + 1] == '*')
  }

  function Resume(c: char, b: seq<char>, t: PState): Next
  {
    if c == '\0' then Stop(b, t) else Continue(b, t)
  }

  /** The line-comment loop from i: the index after the newline or NUL that ends it, and that character. */
  function LineCommentEnd(buf: seq<char>, i: nat): (r: (char, nat))
    requires Scan.Terminated(buf) && i < |buf|
    ensures i < r.1 <= |buf| && buf[r.1 - 1] == r.0 && (r.0 == '\n' || r.0 == '\0')
    ensures forall k :: i <= k < r.1 - 1 ==> buf[k] != '\n' && buf[k] != '\0'
    decreases |buf| - i
  {
    if buf[i] == '\n' || buf[i] == '\0' then (buf[i], i + 1)
    else
      Scan.Successor(buf, i);
      LineCommentEnd(buf, i + 1)
  }

  /**
   * The block-comment loop as written: it stops after the first character
   * that is a star or the NUL, or that is followed by a slash.
   */
  function BlockCommentEndAsWritten(buf: seq<char>, i: nat): (r: (char, nat))
    requires Scan.Terminated(buf) && i < |buf|
    ensures i < r.1 <= |buf| && buf[r.1 - 1] == r.0
    ensures r.0 == '*' || r.0 == '\0' || (r.1 < |buf| && buf[r.1] == '/')
    ensures forall k :: i <= k < r.1 - 1 ==> buf[k] != '*' && buf[k] != '\0'
    ensures forall k :: i < k < r.1 ==> buf[k] != '/'
    decreases |buf| - i
  {
    if buf[i] == '*' || buf[i] == '\0' then (buf[i], i + 1)
    else
      Scan.Successor(buf, i);
      if buf[i + 1] == '/' then (buf[i], i + 1) else BlockCommentEndAsWritten(buf, i + 1)
  }

  /** The block-comment loop corrected: it stops after the first star-slash, or after the NUL. */
  function BlockCommentEnd(buf: seq<char>, i: nat): (r: (char, nat))
    requires Scan.Terminated(buf) && i < |buf|
    ensures i < r.1 <= |buf| && buf[r.1 - 1] == r.0
    ensures r.0 == '\0' || (r.0 == '/' && r.1 >= i + 2 && buf[r.1 - 2] == '*')
    ensures forall k :: i <= k < r.1 - 2 ==> buf[k] != '\0' && !(buf[k] == '*' && buf[k + 1] == '/')
    decreases |buf| - i
  {
    if buf[i] == '\0' then (buf[i], i + 1)
    else
      Scan.Successor(buf, i);
      if buf[i] == '*' && buf[i + 1] == '/' then ('/', i + 2) else BlockCommentEnd(buf, i + 1)
  }

  /** The pass that meets two slashes: skip to the end of the line; a directive ends there. */
  function LineCommentStep(v: Variant, buf: seq<char>, s: PState): (r: Next)
    requires Shape(buf, s) && s.cursor.current + 2 < |buf|
    ensures Follows(buf, s, r)
  {
    var (c, e) := LineCommentEnd(buf, s.cursor.current + 2);
    var k := s.cursor.(current := e, inMacro := false, onNewLine := true,
                       inArg := if v.Corrected? then false else s.cursor.inArg);
    Resume(c, buf, s.(cursor := k))
  }

  /** The pass that meets a slash and a star. */
  function BlockCommentStep(v: Variant, buf: seq<char>, s: PState): (r: Next)
    requires Shape(buf, s) && s.cursor.current + 2 < |buf|
    ensures Follows(buf, s, r)
  {
    var (c, e) := if v.Corrected? then BlockCommentEnd(buf, s.cursor.current + 2)
                  else BlockCommentEndAsWritten(buf, s.cursor.current + 2);
    var k := s.cursor.(current := e, inMacro := false, onNewLine := true,
                       inArg := if v.Corrected? then false else s.cursor.inArg);
    Resume(c, buf, s.(cursor := k))
  }

  /**
   * A character outside a directive. A newline sets on_new_line, anything
   * but a space, a tab or '#' clears it, and a '#' opens a directive exactly
   * when on_new_line still holds.
   */
  function TextStep(k: Cursor, c: char): (r: Cursor)
    requires !k.inMacro
    ensures r.current == k.current + 1 == r.macroStart
    ensures r.inMacro <==> c == '#' && k.onNewLine
    ensures r.onNewLine == if c == '\n' then true else if c == ' ' || c == '\t' || c == '#' then k.onNewLine else false
    ensures r.(current := k.current, macroStart := k.macroStart, inMacro := false, onNewLine := k.onNewLine) == k
  {
    var k1 := k.(current := k.current + 1, macroStart := k.current + 1);
    if c == '\n' then k1.(onNewLine := true)
    else if !(c == '\t' || c == ' ' || c == '#') then k1.(onNewLine := false)
    else k1.(inMacro := k1.onNewLine && c == '#')
  }

  /** A character inside a directive: letters, and digits after the first, continue the word. */
  predicate InWord(c: char, current: nat, macroStart: nat)
  {
    IsAlpha(c) || (current + 1 - macroStart > 1 && IsDigit(c))
  }

  /** A character inside a directive's name or argument. */
  function MacroStep(v: Variant, buf: seq<char>, s: PState, c: char): (r: Next)
    requires Shape(buf, s) && s.cursor.inMacro && c == buf[s.cursor.current]
    ensures Follows(buf, s, r)
  {
    if InWord(c, s.cursor.current, s.cursor.macroStart) then
      Scan.Successor(buf, s.cursor.current);
      Continue(buf, s.(cursor := s.cursor.(current := s.cursor.current + 1)))
    else if s.cursor.inArg then ArgEnd(buf, s, c)
    else WordEnd(v, buf, s, c)
  }

  /**
   * The end of a directive's argument: `#define`/`#undef` add or remove it
   * unless inside an ignored branch; any other directive is taken as
   * `#ifdef`/`#ifndef`: it opens a branch and, outside an ignored branch,
   * starts ignoring it when the name's definedness disagrees with the
   * directive, and pushes it on the open-if list. The directive is blanked.
   */
  function ArgEnd(buf: seq<char>, s: PState, c: char): (r: Next)
    requires Shape(buf, s) && s.cursor.inMacro && c == buf[s.cursor.current]
    ensures Follows(buf, s, r)
  {
    var ms := s.cursor.macroStart;
    if Matches(buf, ms, "define") || Matches(buf, ms, "undef") then DefineEnd(buf, s, c) else IfdefEnd(buf, s, c)
  }

  /** ArgEnd for `#define` and `#undef`: `#undef` is told apart by its first letter. */
  function DefineEnd(buf: seq<char>, s: PState, c: char): (r: Next)
    requires Shape(buf, s) && s.cursor.inMacro && c == buf[s.cursor.current]
    ensures Follows(buf, s, r)
  {
    var n := s.cursor.current + 1;
    var ms := s.cursor.macroStart;
    var arg := buf[s.cursor.argStart..n - 1];
    var d := if s.cursor.ignoreDepth >= 0 then s.defined
             else if buf[ms] == 'u' then s.defined - {arg} else s.defined + {arg};
    Onward(buf, s.cursor.current);
    Resume(c, Override(buf, ms - 1, n - ms), s.(cursor := s.cursor.(current := n, inMacro := false, inArg := false), defined := d))
  }

  /** ArgEnd for `#ifdef` and `#ifndef`: `#ifndef` is told apart by its third letter. */
  function IfdefEnd(buf: seq<char>, s: PState, c: char): (r: Next)
    requires Shape(buf, s) && s.cursor.inMacro && c == buf[s.cursor.current]
    ensures Follows(buf, s, r)
  {
    var n := s.cursor.current + 1;
    var ms := s.cursor.macroStart;
    var arg := buf[s.cursor.argStart..n - 1];
    var blanked := Override(buf, ms - 1, n - ms);
    var k := s.cursor.(current := n, inMacro := false, inArg := false, depth := s.cursor.depth + 1);
    Onward(buf, s.cursor.current);
    if s.cursor.ignoreDepth >= 0 then Resume(c, blanked, s.(cursor := k))
    else if ms + 2 >= |buf| || s.below > 0 then OutOfBounds
    else
      var ignore := if (arg in s.defined) == (buf[ms + 2] == 'n') then k.depth else s.cursor.ignoreDepth;
      Resume(c, blanked, s.(cursor := k.(ignoreDepth := ignore), openIfs := s.openIfs + [ms]))
  }

  /** The end of a directive's name. */
  function WordEnd(v: Variant, buf: seq<char>, s: PState, c: char): (r: Next)
    requires Shape(buf, s) && s.cursor.inMacro && c == buf[s.cursor.current]
    ensures Follows(buf, s, r)
  {
    var n := s.cursor.current + 1;
    var ms := s.cursor.macroStart;
    var k := s.cursor.(current := n);
    Onward(buf, s.cursor.current);
    if TakesArgument(buf, ms) then
      Resume(c, buf, s.(cursor := k.(argStart := n, inArg := true)))
    else if Matches(buf, ms, "else") || Matches(buf, ms, "endif") then
      if buf[ms + 1] == 'n' then EndifStep(v, buf, s, c) else ElseStep(v, buf, s, c)
    else
      Fail(UnknownMacro(buf[ms..n - 1]), buf, s.(cursor := k))
  }

  /**
   * `#endif`. Inside an ignored branch the whole branch, from its opening
   * directive, is blanked, and the ignoring ends when this closes the branch
   * that started it; otherwise the branch is popped and the `#endif` blanked.
   */
  function EndifStep(v: Variant, buf: seq<char>, s: PState, c: char): (r: Next)
    requires Shape(buf, s) && s.cursor.inMacro && c == buf[s.cursor.current]
    ensures Follows(buf, s, r)
  {
    var n := s.cursor.current + 1;
    var ms := s.cursor.macroStart;
    var depth := s.cursor.depth - 1;
    var k := s.cursor.(current := n, inMacro := false, depth := depth);
    Onward(buf, s.cursor.current);
    if s.cursor.ignoreDepth > -1 then
      if s.openIfs == [] then OutOfBounds
      else
        var bs := s.openIfs[|s.openIfs| - 1];
        if !(1 <= bs <= n) then OutOfBounds
        else if s.cursor.ignoreDepth == depth + 1 then
          Resume(c, Override(buf, bs - 1, n - bs), s.(cursor := k.(ignoreDepth := -1), openIfs := s.openIfs[..|s.openIfs| - 1]))
        else
          Resume(c, Override(buf, bs - 1, n - bs), s.(cursor := k))
    else if s.openIfs == [] then
      if v.Corrected? then Fail(UnclosedMacro, buf, s.(cursor := k))
      else Resume(c, Override(buf, ms - 1, n - ms), s.(cursor := k, below := s.below + 1))
    else
      Resume(c, Override(buf, ms - 1, n - ms), s.(cursor := k, openIfs := s.openIfs[..|s.openIfs| - 1]))
  }

  /**
   * `#else`, acted on outside ignored branches and in the branch that is
   * being ignored. Ending an ignored branch blanks it from its opening
   * directive; otherwise the `#else` replaces the branch's position on the
   * list and the rest of the branch is ignored.
   */
  function ElseStep(v: Variant, buf: seq<char>, s: PState, c: char): (r: Next)
    requires Shape(buf, s) && s.cursor.inMacro && c == buf[s.cursor.current]
    ensures Follows(buf, s, r)
  {
    var n := s.cursor.current + 1;
    var ms := s.cursor.macroStart;
    var ignore := s.cursor.ignoreDepth;
    var depth := s.cursor.depth;
    var k := s.cursor.(current := n, inMacro := false);
    Onward(buf, s.cursor.current);
    if ignore < 0 || depth <= ignore then
      if s.openIfs == [] then
        if v.Corrected? then Fail(UnclosedMacro, buf, s.(cursor := k)) else OutOfBounds
      else if ignore == depth then
        var bs := s.openIfs[|s.openIfs| - 1];
        if !(1 <= bs <= n) then OutOfBounds
        else Resume(c, Override(buf, bs - 1, n - bs), s.(cursor := k.(ignoreDepth := -1)))
      else
        Resume(c, buf, s.(cursor := k.(ignoreDepth := depth), openIfs := s.openIfs[..|s.openIfs| - 1] + [ms]))
    else
      Resume(c, buf, s.(cursor := k))
  }

  /** The pass that meets a comment: `//` runs to the end of the line, a slash and a star to the comment's end. */
  function CommentStep(v: Variant, buf: seq<char>, s: PState): (r: Next)
    requires Shape(buf, s) && Comment(buf, s.cursor.current)
    ensures Follows(buf, s, r)
  {
    Scan.Successor(buf, s.cursor.current + 1);
    if buf[s.cursor.current + 1] == '/' then LineCommentStep(v, buf, s) else BlockCommentStep(v, buf, s)
  }

  /** One pass of the do-while loop of lit_preprocess. */
  function Step(v: Variant, buf: seq<char>, s: PState): (r: Next)
    requires Shape(buf, s)
    ensures Follows(buf, s, r)
  {
    var c := buf[s.cursor.current];
    if Comment(buf, s.cursor.current) then CommentStep(v, buf, s)
    else if s.cursor.inMacro then MacroStep(v, buf, s, c)
    else
      Onward(buf, s.cursor.current);
      Resume(c, buf, s.(cursor := TextStep(s.cursor, c)))
  }

  /** The check after the loop: an unfinished directive or an open branch is UNCLOSED_MACRO; success empties the list. */
  function Finish(buf: seq<char>, s: PState): (r: Outcome)
    ensures r.Done? && r.buf == buf && r.defined == s.defined
    ensures r.error == None <==> !s.cursor.inMacro && s.openIfs == [] && s.below == 0 && s.cursor.depth <= 0
    ensures r.error != None ==> r.error == Some(UnclosedMacro) && r.openIfs == s.openIfs && r.below == s.below
    ensures r.error == None ==> r.openIfs == [] && r.below == 0
  {
    if s.cursor.inMacro || |s.openIfs| > 0 || s.below > 0 || s.cursor.depth > 0 then
      Done(Some(UnclosedMacro), buf, s.defined, s.openIfs, s.below)
    else Done(None, buf, s.defined, [], 0)
  }

  /** The loop from state s to its end. */
  function Run(v: Variant, buf: seq<char>, s: PState): (r: Outcome)
    requires Shape(buf, s)
    decreases |buf| - s.cursor.current, 0
  {
    Then(v, Step(v, buf, s))
  }

  /** The loop's continuation after a pass that led to r. */
  function Then(v: Variant, r: Next): Outcome
    requires r.Continue? ==> Shape(r.buf, r.st)
    decreases if r.Continue? then |r.buf| - r.st.cursor.current else 0, 1
  {
    match r
    case Continue(b, t) => Run(v, b, t)
    case Stop(b, t) => Finish(b, t)
    case Fail(e, b, t) => Done(Some(e), b, t.defined, t.openIfs, t.below)
    case OutOfBounds => Undefined
  }

  // ---------------------------------------------------------------------
  // Properties of a whole run
  // ---------------------------------------------------------------------

  /** The buffer a pass leads to is the old one with some characters blanked. */
  predicate Blanks(buf: seq<char>, r: Next)
  {
    match r
    case Continue(b, _) => Blanked(buf, b)
    case Stop(b, _) => Blanked(buf, b)
    case Fail(_, b, _) => Blanked(buf, b)
    case OutOfBounds => true
  }

  lemma OverridesBlank(buf: seq<char>)
    ensures forall p: nat, n: nat :: p + n <= |buf| ==> Blanked(buf, Override(buf, p, n))
  {
  }

  lemma ArgEndBlanks(buf: seq<char>, s: PState, c: char)
    requires Shape(buf, s) && s.cursor.inMacro && c == buf[s.cursor.current]
    ensures Blanks(buf, ArgEnd(buf, s, c))
  {
    OverridesBlank(buf);
  }

  lemma EndifBlanks(v: Variant, buf: seq<char>, s: PState, c: char)
    requires Shape(buf, s) && s.cursor.inMacro && c == buf[s.cursor.current]
    ensures Blanks(buf, EndifStep(v, buf, s, c))
  {
    OverridesBlank(buf);
  }

  lemma ElseBlanks(v: Variant, buf: seq<char>, s: PState, c: char)
    requires Shape(buf, s) && s.cursor.inMacro && c == buf[s.cursor.current]
    ensures Blanks(buf, ElseStep(v, buf, s, c))
  {
    OverridesBlank(buf);
  }

  lemma WordEndBlanks(v: Variant, buf: seq<char>, s: PState, c: char)
    requires Shape(buf, s) && s.cursor.inMacro && c == buf[s.cursor.current]
    ensures Blanks(buf, WordEnd(v, buf, s, c))
  {
    EndifBlanks(v, buf, s, c);
    ElseBlanks(v, buf, s, c);
  }

  lemma MacroBlanks(v: Variant, buf: seq<char>, s: PState, c: char)
    requires Shape(buf, s) && s.cursor.inMacro && c == buf[s.cursor.current]
    ensures Blanks(buf, MacroStep(v, buf, s, c))
  {
    if InWord(c, s.cursor.current, s.cursor.macroStart) {
    } else if s.cursor.inArg {
      ArgEndBlanks(buf, s, c);
    } else {
      WordEndBlanks(v, buf, s, c);
    }
  }

  /** A pass only blanks. */
  lemma StepBlanks(v: Variant, buf: seq<char>, s: PState)
    requires Shape(buf, s)
    ensures Blanks(buf, Step(v, buf, s))
  {
    var i := s.cursor.current;
    if Comment(buf, i) {
      StepComment(v, buf, s);
    } else if s.cursor.inMacro {
      StepMacro(v, buf, s);
      MacroBlanks(v, buf, s, buf[i]);
    } else {
      StepText(v, buf, s);
    }
  }

  /** lit_preprocess edits in place: the text keeps its length and its newlines, and only gains spaces. */
  lemma {:induction false} RunBlanks(v: Variant, buf: seq<char>, s: PState)
    requires Shape(buf, s)
    ensures Run(v, buf, s).Done? ==> Blanked(buf, Run(v, buf, s).buf)
    decreases |buf| - s.cursor.current
  {
    StepBlanks(v, buf, s);
    match Step(v, buf, s)
    case Continue(b, t) =>
      RunBlanks(v, b, t);
      if Run(v, b, t).Done? {
        BlankedTrans(buf, b, Run(v, b, t).buf);
      }
    case Stop(b, t) =>
    case Fail(e, b, t) =>
    case OutOfBounds =>
  }

  /**
   * What the corrected loop keeps: the count never wraps, every open branch
   * lies in the part already read, an argument belongs to a directive that
   * takes one, and the open-if list holds one position per open branch down
   * to the one being ignored.
   */
  predicate Balanced(buf: seq<char>, s: PState)
  {
    s.below == 0
    && (forall k :: 0 <= k < |s.openIfs| ==> 1 <= s.openIfs[k] <= s.cursor.current)
    && (s.cursor.inArg ==> s.cursor.inMacro && s.cursor.macroStart + 5 <= |buf|)
    && (if s.cursor.ignoreDepth < 0 then s.cursor.ignoreDepth == -1 && |s.openIfs| == s.cursor.depth
        else 1 <= s.cursor.ignoreDepth == |s.openIfs| <= s.cursor.depth)
  }

  /** A pass that neither indexes outside an object nor breaks the balance. */
  predicate KeepsBalance(r: Next)
  {
    !r.OutOfBounds? && (r.Continue? ==> Balanced(r.buf, r.st))
  }

  lemma ArgEndBalanced(buf: seq<char>, s: PState, c: char)
    requires Shape(buf, s) && Balanced(buf, s) && s.cursor.inMacro && s.cursor.inArg && c == buf[s.cursor.current]
    ensures KeepsBalance(ArgEnd(buf, s, c))
  {
  }

  lemma EndifBalanced(buf: seq<char>, s: PState, c: char)
    requires Shape(buf, s) && Balanced(buf, s) && s.cursor.inMacro && !s.cursor.inArg && c == buf[s.cursor.current]
    ensures KeepsBalance(EndifStep(Corrected, buf, s, c))
  {
  }

  lemma ElseBalanced(buf: seq<char>, s: PState, c: char)
    requires Shape(buf, s) && Balanced(buf, s) && s.cursor.inMacro && !s.cursor.inArg && c == buf[s.cursor.current]
    ensures KeepsBalance(ElseStep(Corrected, buf, s, c))
  {
  }

  lemma WordEndBalanced(buf: seq<char>, s: PState, c: char)
    requires Shape(buf, s) && Balanced(buf, s) && s.cursor.inMacro && !s.cursor.inArg && c == buf[s.cursor.current]
    ensures KeepsBalance(WordEnd(Corrected, buf, s, c))
  {
    var ms := s.cursor.macroStart;
    if !TakesArgument(buf, ms) && (Matches(buf, ms, "else") || Matches(buf, ms, "endif")) {
      if buf[ms + 1] == 'n' {
        EndifBalanced(buf, s, c);
      } else {
        ElseBalanced(buf, s, c);
      }
    }
  }

  lemma MacroBalanced(buf: seq<char>, s: PState, c: char)
    requires Shape(buf, s) && Balanced(buf, s) && s.cursor.inMacro && c == buf[s.cursor.current]
    ensures KeepsBalance(MacroStep(Corrected, buf, s, c))
  {
    if !InWord(c, s.cursor.current, s.cursor.macroStart) {
      if s.cursor.inArg {
        ArgEndBalanced(buf, s, c);
      } else {
        WordEndBalanced(buf, s, c);
      }
    }
  }

  lemma CommentBalanced(buf: seq<char>, s: PState)
    requires Shape(buf, s) && Balanced(buf, s) && s.cursor.current + 2 < |buf|
    ensures KeepsBalance(LineCommentStep(Corrected, buf, s))
    ensures KeepsBalance(BlockCommentStep(Corrected, buf, s))
  {
  }

  lemma TextBalanced(buf: seq<char>, s: PState, c: char)
    requires Shape(buf, s) && Balanced(buf, s) && !s.cursor.inMacro
    ensures Balanced(buf, s.(cursor := TextStep(s.cursor, c)))
  {
  }

  /** A pass at a comment runs the comment's loop. */
  lemma StepComment(v: Variant, buf: seq<char>, s: PState)
    requires Shape(buf, s) && Comment(buf, s.cursor.current)
    ensures s.cursor.current + 2 < |buf|
    ensures buf[s.cursor.current + 1] == '/' ==> Step(v, buf, s) == LineCommentStep(v, buf, s)
    ensures buf[s.cursor.current + 1] == '*' ==> Step(v, buf, s) == BlockCommentStep(v, buf, s)
  {
    Scan.Successor(buf, s.cursor.current + 1);
  }

  /** A pass inside a directive, not at a comment. */
  lemma StepMacro(v: Variant, buf: seq<char>, s: PState)
    requires Shape(buf, s) && !Comment(buf, s.cursor.current) && s.cursor.inMacro
    ensures Step(v, buf, s) == MacroStep(v, buf, s, buf[s.cursor.current])
  {
  }

  /** A pass outside a directive, not at a comment. */
  lemma StepText(v: Variant, buf: seq<char>, s: PState)
    requires Shape(buf, s) && !Comment(buf, s.cursor.current) && !s.cursor.inMacro
    ensures var c := buf[s.cursor.current]; Step(v, buf, s) == Resume(c, buf, s.(cursor := TextStep(s.cursor, c)))
  {
  }

  /** A corrected pass never indexes outside an object and keeps the balance. */
  lemma StepBalanced(buf: seq<char>, s: PState)
    requires Shape(buf, s) && Balanced(buf, s)
    ensures KeepsBalance(Step(Corrected, buf, s))
  {
    var i := s.cursor.current;
    if Comment(buf, i) {
      StepComment(Corrected, buf, s);
      CommentBalanced(buf, s);
    } else if s.cursor.inMacro {
      StepMacro(Corrected, buf, s);
      MacroBalanced(buf, s, buf[i]);
    } else {
      StepText(Corrected, buf, s);
      TextBalanced(buf, s, buf[i]);
    }
  }

  /** The corrected loop always reaches a verdict. */
  lemma {:induction false} RunDefined(buf: seq<char>, s: PState)
    requires Shape(buf, s) && Balanced(buf, s)
    ensures Run(Corrected, buf, s).Done?
    decreases |buf| - s.cursor.current
  {
    StepBalanced(buf, s);
    match Step(Corrected, buf, s)
    case Continue(b, t) => RunDefined(b, t);
    case Stop(b, t) =>
    case Fail(e, b, t) =>
  }

  // ---------------------------------------------------------------------
  // Directives, read as a whole
  // ---------------------------------------------------------------------

  /** A character that ends a name without starting a comment or ending the buffer. */
  predicate Separator(c: char)
  {
    c != '/' && c != '\0' && !IsAlpha(c) && !IsDigit(c)
  }

  /** The state after a '#' at p and its name up to q have been read. */
  function AtName(s: PState, q: nat): PState
  {
    s.(cursor := s.cursor.(current := q, macroStart := s.cursor.current + 1, inMacro := true))
  }

  /** Word characters inside a directive are read one per pass, and nothing else changes. */
  lemma {:induction false} WordRun(v: Variant, buf: seq<char>, s: PState, e: nat)
    requires Shape(buf, s) && s.cursor.inMacro && s.cursor.current <= e < |buf|
    requires forall j :: s.cursor.current <= j < e ==> InWord(buf[j], j, s.cursor.macroStart)
    ensures Shape(buf, s.(cursor := s.cursor.(current := e)))
    ensures Run(v, buf, s) == Run(v, buf, s.(cursor := s.cursor.(current := e)))
    decreases e - s.cursor.current
  {
    if s.cursor.current < e {
      WordStep(v, buf, s);
      WordRun(v, buf, s.(cursor := s.cursor.(current := s.cursor.current + 1)), e);
    }
  }

  /** One word character inside a directive. */
  lemma WordStep(v: Variant, buf: seq<char>, s: PState)
    requires Shape(buf, s) && s.cursor.inMacro && InWord(buf[s.cursor.current], s.cursor.current, s.cursor.macroStart)
    ensures Shape(buf, s.(cursor := s.cursor.(current := s.cursor.current + 1)))
    ensures Step(v, buf, s) == Continue(buf, s.(cursor := s.cursor.(current := s.cursor.current + 1)))
  {
    Scan.Successor(buf, s.cursor.current);
    StepMacro(v, buf, s);
  }

  /** A '#' with only blanks before it on its line, then letters up to q: the passes read the directive's name. */
  lemma NameRun(v: Variant, buf: seq<char>, s: PState, q: nat)
    requires Shape(buf, s) && !s.cursor.inMacro && s.cursor.onNewLine
    requires buf[s.cursor.current] == '#' && s.cursor.current < q < |buf|
    requires forall j :: s.cursor.current < j < q ==> IsAlpha(buf[j])
    ensures Shape(buf, AtName(s, q))
    ensures Run(v, buf, s) == Run(v, buf, AtName(s, q))
  {
    var p := s.cursor.current;
    var s1 := AtName(s, p + 1);
    assert Step(v, buf, s) == Continue(buf, s1);
    WordRun(v, buf, s1, q);
  }

  /** At the separator after the name, the pass is WordEnd. */
  lemma AtWordEnd(v: Variant, buf: seq<char>, s: PState, q: nat)
    requires Shape(buf, s) && !s.cursor.inMacro && !s.cursor.inArg && s.cursor.onNewLine
    requires buf[s.cursor.current] == '#' && s.cursor.current < q < |buf|
    requires forall j :: s.cursor.current < j < q ==> IsAlpha(buf[j])
    requires buf[q] != '/' && !IsAlpha(buf[q]) && !IsDigit(buf[q])
    ensures Shape(buf, AtName(s, q))
    ensures Run(v, buf, s) == Then(v, WordEnd(v, buf, AtName(s, q), buf[q]))
  {
    NameRun(v, buf, s, q);
    assert Step(v, buf, AtName(s, q)) == WordEnd(v, buf, AtName(s, q), buf[q]);
  }

  /** A directive whose name is none of the six is UNKNOWN_MACRO: lit_preprocess returns false with the buffer as it was. */
  lemma UnknownDirective(v: Variant, buf: seq<char>, s: PState, q: nat)
    requires Shape(buf, s) && !s.cursor.inMacro && !s.cursor.inArg && s.cursor.onNewLine
    requires buf[s.cursor.current] == '#' && s.cursor.current < q < |buf|
    requires forall j :: s.cursor.current < j < q ==> IsAlpha(buf[j])
    requires buf[q] != '/' && !IsAlpha(buf[q]) && !IsDigit(buf[q])
    requires var at := s.cursor.current + 1;
      !TakesArgument(buf, at) && !Matches(buf, at, "else") && !Matches(buf, at, "endif")
    ensures Run(v, buf, s) == Done(Some(UnknownMacro(buf[s.cursor.current + 1..q])), buf, s.defined, s.openIfs, s.below)
  {
    AtWordEnd(v, buf, s, q);
  }

  /** The state at the end of the argument of the directive opened at p, whose name ends at q. */
  function AtArg(s: PState, p: nat, q: nat, e: nat): PState
  {
    s.(cursor := s.cursor.(current := e, macroStart := p + 1, argStart := q + 1, inMacro := true, inArg := true))
  }

  /** The letters of a directive name that takes an argument. */
  lemma ArgNameLetters(buf: seq<char>, p: nat, w: seq<char>)
    requires w == "define" || w == "undef" || w == "ifdef" || w == "ifndef"
    requires Matches(buf, p + 1, w)
    ensures forall j :: p < j < p + 1 + |w| ==> IsAlpha(buf[j])
  {
    forall j | p < j < p + 1 + |w|
      ensures IsAlpha(buf[j])
    {
      assert buf[j] == w[j - p - 1];
    }
  }

  /** A name that takes an argument, ended by a separator, starts the argument after it. */
  lemma ArgWordEnd(v: Variant, buf: seq<char>, s: PState, w: seq<char>)
    requires w == "define" || w == "undef" || w == "ifdef" || w == "ifndef"
    requires var p := s.cursor.current; var q := p + 1 + |w|;
      Shape(buf, AtName(s, q)) && Matches(buf, p + 1, w) && Separator(buf[q])
    ensures var p := s.cursor.current; var q := p + 1 + |w|;
      WordEnd(v, buf, AtName(s, q), buf[q]) == Continue(buf, AtArg(s, p, q, q + 1))
  {
    var p := s.cursor.current;
    assert TakesArgument(buf, p + 1);
  }

  /** Inside an argument, a separator makes the pass ArgEnd. */
  lemma StepArgEnd(v: Variant, buf: seq<char>, s: PState)
    requires Shape(buf, s) && s.cursor.inMacro && s.cursor.inArg && Separator(buf[s.cursor.current])
    ensures Step(v, buf, s) == ArgEnd(buf, s, buf[s.cursor.current])
  {
  }

  /** `#w name`, w one of the four directives with an argument: the passes read up to the end of the name. */
  lemma AtArgEnd(v: Variant, buf: seq<char>, s: PState, w: seq<char>, e: nat)
    requires Shape(buf, s) && !s.cursor.inMacro && !s.cursor.inArg && s.cursor.onNewLine
    requires w == "define" || w == "undef" || w == "ifdef" || w == "ifndef"
    requires var p := s.cursor.current; buf[p] == '#' && Matches(buf, p + 1, w)
    requires var q := s.cursor.current + 1 + |w|; q < e < |buf| && Separator(buf[q]) && Separator(buf[e])
    requires forall j :: s.cursor.current + 1 + |w| < j < e ==> IsAlpha(buf[j]) || IsDigit(buf[j])
    ensures Shape(buf, AtArg(s, s.cursor.current, s.cursor.current + 1 + |w|, e))
    ensures Run(v, buf, s) == Run(v, buf, AtArg(s, s.cursor.current, s.cursor.current + 1 + |w|, e))
  {
    var p := s.cursor.current;
    var q := p + 1 + |w|;
    ArgStart(v, buf, s, w);
    WordRun(v, buf, AtArg(s, p, q, q + 1), e);
  }

  /** `#w` and a separator, w one of the four directives with an argument: the argument starts after the separator. */
  lemma ArgStart(v: Variant, buf: seq<char>, s: PState, w: seq<char>)
    requires Shape(buf, s) && !s.cursor.inMacro && !s.cursor.inArg && s.cursor.onNewLine
    requires w == "define" || w == "undef" || w == "ifdef" || w == "ifndef"
    requires var p := s.cursor.current; buf[p] == '#' && Matches(buf, p + 1, w)
    requires var q := s.cursor.current + 1 + |w|; q + 1 < |buf| && Separator(buf[q])
    ensures var p := s.cursor.current; var q := p + 1 + |w|;
      Shape(buf, AtArg(s, p, q, q + 1)) && Run(v, buf, s) == Run(v, buf, AtArg(s, p, q, q + 1))
  {
    var p := s.cursor.current;
    var q := p + 1 + |w|;
    ArgNameLetters(buf, p, w);
    AtWordEnd(v, buf, s, q);
    ArgWordEnd(v, buf, s, w);
  }

  /**
   * `#w name`, w one of the four directives with an argument: the run goes
   * on from wherever the pass at the end of the name leads.
   */
  lemma DirectiveRun(v: Variant, buf: seq<char>, s: PState, w: seq<char>, q: nat, e: nat)
    requires Shape(buf, s) && !s.cursor.inMacro && !s.cursor.inArg && s.cursor.onNewLine
    requires w == "define" || w == "undef" || w == "ifdef" || w == "ifndef"
    requires buf[s.cursor.current] == '#' && Matches(buf, s.cursor.current + 1, w) && q == s.cursor.current + 1 + |w|
    requires q < e < |buf| && Separator(buf[q]) && Separator(buf[e])
    requires forall j :: q < j < e ==> IsAlpha(buf[j]) || IsDigit(buf[j])
    ensures Shape(buf, AtArg(s, s.cursor.current, q, e))
    ensures var x := ArgEnd(buf, AtArg(s, s.cursor.current, q, e), buf[e]);
      x.Continue? ==> Run(v, buf, s) == Run(v, x.buf, x.st)
  {
    AtArgEnd(v, buf, s, w, e);
    StepArgEnd(v, buf, AtArg(s, s.cursor.current, q, e));
  }

  /** The state after `#define name` or `#undef name`, the name ending at e. */
  function DefineState(buf: seq<char>, s: PState, undef: bool, e: nat): PState
    requires s.cursor.current + (if undef then 6 else 7) < e <= |buf|
  {
    var p := s.cursor.current;
    var q := p + (if undef then 6 else 7);
    var name := buf[q + 1..e];
    s.(cursor := s.cursor.(current := e + 1, macroStart := p + 1, argStart := q + 1),
       defined := if s.cursor.ignoreDepth >= 0 then s.defined
                  else if undef then s.defined - {name} else s.defined + {name})
  }

  /** The state after `#ifdef name` or `#ifndef name`, the name ending at e. */
  function IfdefState(buf: seq<char>, s: PState, negated: bool, e: nat): PState
    requires s.cursor.current + (if negated then 7 else 6) < e <= |buf|
  {
    var p := s.cursor.current;
    var q := p + (if negated then 7 else 6);
    var name := buf[q + 1..e];
    var ignoring := s.cursor.ignoreDepth >= 0;
    var depth := s.cursor.depth + 1;
    s.(cursor := s.cursor.(current := e + 1, macroStart := p + 1, argStart := q + 1, depth := depth,
                           ignoreDepth := if !ignoring && (name in s.defined) == negated then depth else s.cursor.ignoreDepth),
       openIfs := if ignoring then s.openIfs else s.openIfs + [p + 1])
  }

  /** DefineEnd at the end of a `#define` or `#undef` argument. */
  lemma DefineEndUpdates(buf: seq<char>, s: PState, undef: bool, e: nat)
    requires Shape(buf, s) && !s.cursor.inMacro && !s.cursor.inArg
    requires s.cursor.current + (if undef then 6 else 7) < e < |buf| && buf[e] != '\0'
    requires buf[s.cursor.current + 1] == (if undef then 'u' else 'd')
    ensures var p := s.cursor.current; var sE := AtArg(s, p, p + (if undef then 6 else 7), e);
      Shape(buf, sE) && DefineEnd(buf, sE, buf[e]).Continue?
      && DefineEnd(buf, sE, buf[e]).buf == Override(buf, p, e - p)
      && DefineEnd(buf, sE, buf[e]).st == DefineState(buf, s, undef, e)
  {
  }

  /** The branch of ArgEnd for `#define` and `#undef`. */
  lemma ArgEndDefines(buf: seq<char>, s: PState, undef: bool, e: nat)
    requires Shape(buf, s) && !s.cursor.inMacro && !s.cursor.inArg
    requires Matches(buf, s.cursor.current + 1, if undef then "undef" else "define")
    requires s.cursor.current + (if undef then 6 else 7) < e < |buf| && buf[e] != '\0'
    ensures var p := s.cursor.current; var sE := AtArg(s, p, p + (if undef then 6 else 7), e);
      Shape(buf, sE) && ArgEnd(buf, sE, buf[e]) == DefineEnd(buf, sE, buf[e])
  {
    var p := s.cursor.current;
    assert buf[p + 1] == (if undef then "undef" else "define")[0];
  }

  /** IfdefEnd at the end of an `#ifdef` or `#ifndef` argument blanks the directive. */
  lemma IfdefEndBlanks(buf: seq<char>, s: PState, negated: bool, e: nat)
    requires Shape(buf, s) && !s.cursor.inMacro && !s.cursor.inArg && s.below == 0
    requires s.cursor.current + (if negated then 7 else 6) < e < |buf| && buf[e] != '\0'
    ensures var p := s.cursor.current; var sE := AtArg(s, p, p + (if negated then 7 else 6), e);
      Shape(buf, sE) && IfdefEnd(buf, sE, buf[e]).Continue? && IfdefEnd(buf, sE, buf[e]).buf == Override(buf, p, e - p)
  {
  }

  /** IfdefEnd at the end of an `#ifdef` or `#ifndef` argument opens the branch. */
  lemma IfdefEndOpens(buf: seq<char>, s: PState, negated: bool, e: nat)
    requires Shape(buf, s) && !s.cursor.inMacro && !s.cursor.inArg && s.below == 0
    requires Matches(buf, s.cursor.current + 1, if negated then "ifndef" else "ifdef")
    requires s.cursor.current + (if negated then 7 else 6) < e < |buf| && buf[e] != '\0'
    ensures var p := s.cursor.current; var sE := AtArg(s, p, p + (if negated then 7 else 6), e);
      Shape(buf, sE) && IfdefEnd(buf, sE, buf[e]).Continue?
      && IfdefEnd(buf, sE, buf[e]).st == IfdefState(buf, s, negated, e)
  {
    var p := s.cursor.current;
    var w: seq<char> := if negated then "ifndef" else "ifdef";
    assert buf[p + 3] == w[2];
  }

  /** The branch of ArgEnd for `#ifdef` and `#ifndef`. */
  lemma ArgEndOpens(buf: seq<char>, s: PState, negated: bool, e: nat)
    requires Shape(buf, s) && !s.cursor.inMacro && !s.cursor.inArg
    requires Matches(buf, s.cursor.current + 1, if negated then "ifndef" else "ifdef")
    requires s.cursor.current + (if negated then 7 else 6) < e < |buf| && buf[e] != '\0'
    ensures var p := s.cursor.current; var sE := AtArg(s, p, p + (if negated then 7 else 6), e);
      Shape(buf, sE) && ArgEnd(buf, sE, buf[e]) == IfdefEnd(buf, sE, buf[e])
  {
    var p := s.cursor.current;
    var w: seq<char> := if negated then "ifndef" else "ifdef";
    assert buf[p + 1] == w[0];
    assert !Matches(buf, p + 1, "define") && !Matches(buf, p + 1, "undef");
  }

  /**
   * `#define name` adds the name to the defined set and `#undef name`
   * removes it, unless inside an ignored branch; the directive is blanked.
   */
  lemma DefineDirective(v: Variant, buf: seq<char>, s: PState, undef: bool, e: nat)
    requires Shape(buf, s) && !s.cursor.inMacro && !s.cursor.inArg && s.cursor.onNewLine
    requires var p := s.cursor.current; buf[p] == '#' && Matches(buf, p + 1, if undef then "undef" else "define")
    requires var q := s.cursor.current + (if undef then 6 else 7); q < e < |buf| && Separator(buf[q]) && Separator(buf[e])
    requires forall j :: s.cursor.current + (if undef then 6 else 7) < j < e ==> IsAlpha(buf[j]) || IsDigit(buf[j])
    ensures Shape(Override(buf, s.cursor.current, e - s.cursor.current), DefineState(buf, s, undef, e))
    ensures Run(v, buf, s) == Run(v, Override(buf, s.cursor.current, e - s.cursor.current), DefineState(buf, s, undef, e))
  {
    var w: seq<char> := if undef then "undef" else "define";
    var p := s.cursor.current;
    var q := p + (if undef then 6 else 7);
    assert q == p + 1 + |w|;
    ArgEndDefines(buf, s, undef, e);
    DefineEndUpdates(buf, s, undef, e);
    DirectiveRun(v, buf, s, w, q, e);
  }

  /**
   * `#ifdef name` opens a branch and, outside an ignored branch, starts
   * ignoring it when the name is not defined; `#ifndef name` when it is.
   * Only a branch opened outside an ignored one goes on the open-if list.
   */
  lemma IfdefDirective(v: Variant, buf: seq<char>, s: PState, negated: bool, e: nat)
    requires Shape(buf, s) && !s.cursor.inMacro && !s.cursor.inArg && s.cursor.onNewLine && s.below == 0
    requires var p := s.cursor.current; buf[p] == '#' && Matches(buf, p + 1, if negated then "ifndef" else "ifdef")
    requires var q := s.cursor.current + (if negated then 7 else 6); q < e < |buf| && Separator(buf[q]) && Separator(buf[e])
    requires forall j :: s.cursor.current + (if negated then 7 else 6) < j < e ==> IsAlpha(buf[j]) || IsDigit(buf[j])
    ensures Shape(Override(buf, s.cursor.current, e - s.cursor.current), IfdefState(buf, s, negated, e))
    ensures Run(v, buf, s) == Run(v, Override(buf, s.cursor.current, e - s.cursor.current), IfdefState(buf, s, negated, e))
  {
    var w: seq<char> := if negated then "ifndef" else "ifdef";
    var p := s.cursor.current;
    var q := p + (if negated then 7 else 6);
    assert q == p + 1 + |w|;
    ArgEndOpens(buf, s, negated, e);
    IfdefEndBlanks(buf, s, negated, e);
    IfdefEndOpens(buf, s, negated, e);
    DirectiveRun(v, buf, s, w, q, e);
  }

  /** An `#else` read as a name selects ElseStep. */
  lemma WordEndElse(v: Variant, buf: seq<char>, s: PState)
    requires Shape(buf, s) && s.cursor.inMacro && Matches(buf, s.cursor.macroStart, "else")
    ensures WordEnd(v, buf, s, buf[s.cursor.current]) == ElseStep(v, buf, s, buf[s.cursor.current])
  {
    var ms := s.cursor.macroStart;
    assert buf[ms] == 'e' && buf[ms + 1] == 'l';
    assert !TakesArgument(buf, ms);
  }

  /** ElseStep outside an ignored branch with no branch open. */
  lemma ElseStepUnopened(v: Variant, buf: seq<char>, s: PState)
    requires Shape(buf, s) && s.cursor.inMacro && s.cursor.ignoreDepth < 0 && s.openIfs == []
    ensures var r := ElseStep(v, buf, s, buf[s.cursor.current]);
      if v.Corrected? then r.Fail? && r.error == UnclosedMacro && r.buf == buf && r.st.defined == s.defined
        && r.st.openIfs == [] && r.st.below == s.below
      else r.OutOfBounds?
  {
  }

  /**
   * An `#else` with no branch open, outside an ignored branch: as written the
   * loop sets the last element of the empty open-if list; corrected, it is
   * UNCLOSED_MACRO with the buffer as it was.
   */
  lemma ElseWithoutBranch(v: Variant, buf: seq<char>, s: PState)
    requires Shape(buf, s) && !s.cursor.inMacro && !s.cursor.inArg && s.cursor.onNewLine
    requires s.cursor.ignoreDepth < 0 && s.openIfs == []
    requires var p := s.cursor.current; buf[p] == '#' && Matches(buf, p + 1, "else") && p + 5 < |buf| && Separator(buf[p + 5])
    ensures Run(v, buf, s) == if v.Corrected? then Done(Some(UnclosedMacro), buf, s.defined, [], s.below) else Undefined
  {
    var p := s.cursor.current;
    forall j | p < j < p + 5
      ensures IsAlpha(buf[j])
    {
      assert buf[j] == "else"[j - p - 1];
    }
    AtWordEnd(v, buf, s, p + 5);
    WordEndElse(v, buf, AtName(s, p + 5));
    ElseStepUnopened(v, buf, AtName(s, p + 5));
  }

  // ---------------------------------------------------------------------
  // Comments, read as a whole
  // ---------------------------------------------------------------------

  /**
   * A line comment up to the newline or NUL at t is skipped in one pass and
   * ends the directive being read; as written it leaves in_arg as it was.
   */
  lemma LineCommentRun(v: Variant, buf: seq<char>, s: PState, t: nat)
    requires Shape(buf, s) && s.cursor.current + 2 <= t < |buf|
    requires buf[s.cursor.current] == '/' && buf[s.cursor.current + 1] == '/' && (buf[t] == '\n' || buf[t] == '\0')
    requires forall k :: s.cursor.current + 2 <= k < t ==> buf[k] != '\n' && buf[k] != '\0'
    ensures Step(v, buf, s) == Resume(buf[t], buf, s.(cursor := s.cursor.(current := t + 1, inMacro := false, onNewLine := true,
                                                                        inArg := v.AsWritten? && s.cursor.inArg)))
  {
    StepComment(v, buf, s);
    var r := LineCommentEnd(buf, s.cursor.current + 2);
    assert r.1 == t + 1;
  }

  /** The corrected block comment runs to the first star-slash after its opening: the pass goes on after the slash at t. */
  lemma BlockCommentRun(buf: seq<char>, s: PState, t: nat)
    requires Shape(buf, s) && s.cursor.current + 3 <= t < |buf|
    requires buf[s.cursor.current] == '/' && buf[s.cursor.current + 1] == '*' && buf[t - 1] == '*' && buf[t] == '/'
    requires forall k :: s.cursor.current + 2 <= k < t - 1 ==> buf[k] != '\0' && !(buf[k] == '*' && buf[k + 1] == '/')
    ensures Step(Corrected, buf, s) == Continue(buf, s.(cursor := s.cursor.(current := t + 1, inMacro := false, onNewLine := true, inArg := false)))
  {
    StepComment(Corrected, buf, s);
    var r := BlockCommentEnd(buf, s.cursor.current + 2);
    assert r.1 == t + 1;
  }

  /** The block-comment loop as written stops after the first star when no earlier character is followed by a slash. */
  lemma BlockCommentEndAsWrittenAt(buf: seq<char>, i: nat, t: nat)
    requires Scan.Terminated(buf) && i <= t < |buf| && buf[t] == '*'
    requires forall k :: i <= k < t ==> buf[k] != '*' && buf[k] != '\0'
    requires forall k :: i < k <= t ==> buf[k] != '/'
    ensures BlockCommentEndAsWritten(buf, i) == ('*', t + 1)
  {
  }

  /** As written, a block comment with a star at t and no earlier slash ends after that star. */
  lemma BlockCommentRunAsWritten(buf: seq<char>, s: PState, t: nat)
    requires Shape(buf, s) && s.cursor.current + 2 <= t < |buf|
    requires buf[s.cursor.current] == '/' && buf[s.cursor.current + 1] == '*' && buf[t] == '*'
    requires forall k :: s.cursor.current + 2 <= k < t ==> buf[k] != '*' && buf[k] != '\0'
    requires forall k :: s.cursor.current + 2 < k <= t ==> buf[k] != '/'
    ensures Step(AsWritten, buf, s) == Continue(buf, s.(cursor := s.cursor.(current := t + 1, inMacro := false, onNewLine := true)))
  {
    StepComment(AsWritten, buf, s);
    BlockCommentEndAsWrittenAt(buf, s.cursor.current + 2, t);
  }

  /** A separator ends a `#define` argument, whatever position the argument started at. */
  lemma ArgumentDefines(v: Variant, buf: seq<char>, s: PState)
    requires Shape(buf, s) && s.cursor.inMacro && s.cursor.inArg
    requires Matches(buf, s.cursor.macroStart, "define") && Separator(buf[s.cursor.current])
    ensures s.cursor.current + 1 < |buf|
    ensures Step(v, buf, s) == DefineEnd(buf, s, buf[s.cursor.current])
  {
    StepMacro(v, buf, s);
  }

  /** Outside ignored branches, the end of a `#define` argument adds the text from arg_start to the defined set. */
  lemma MacroDefines(buf: seq<char>, s: PState)
    requires Shape(buf, s) && s.cursor.inMacro && s.cursor.inArg && s.cursor.ignoreDepth < 0
    requires Matches(buf, s.cursor.macroStart, "define") && Separator(buf[s.cursor.current])
    ensures var r := DefineEnd(buf, s, buf[s.cursor.current]);
      r.Continue? && r.buf == Override(buf, s.cursor.macroStart - 1, s.cursor.current + 1 - s.cursor.macroStart)
      && r.st == s.(cursor := s.cursor.(current := s.cursor.current + 1, inMacro := false, inArg := false),
                    defined := s.defined + {buf[s.cursor.argStart..s.cursor.current]})
  {
    assert buf[s.cursor.macroStart] == 'd';
  }

  // ---------------------------------------------------------------------
  // Inputs on which the code as written and the corrected loop differ
  // ---------------------------------------------------------------------

  /** `#else` alone: as written it writes below the empty open-if list. */
  lemma StrayElse(buf: seq<char>)
    requires buf == "#else\n\0"
    ensures Shape(buf, Init({}, []))
    ensures Run(AsWritten, buf, Init({}, [])) == Undefined
    ensures Run(Corrected, buf, Init({}, [])) == Done(Some(UnclosedMacro), buf, {}, [], 0)
  {
    assert Matches(buf, 1, "else");
    ElseWithoutBranch(AsWritten, buf, Init({}, []));
    ElseWithoutBranch(Corrected, buf, Init({}, []));
  }

  /** The letters of `/* *` newline `#x */` and its NUL. */
  predicate StarredComment(buf: seq<char>)
  {
    |buf| == 11 && buf[0] == '/' && buf[1] == '*' && buf[2] == ' ' && buf[3] == '*' && buf[4] == '\n'
    && buf[5] == '#' && buf[6] == 'x' && buf[7] == ' ' && buf[8] == '*' && buf[9] == '/' && buf[10] == '\0'
  }

  /** As written the comment ends at its first star, so the `#x` inside it is read as a directive. */
  lemma StarredCommentAsWritten(buf: seq<char>)
    requires StarredComment(buf)
    ensures Shape(buf, Init({}, []))
    ensures Run(AsWritten, buf, Init({}, [])) == Done(Some(UnknownMacro("x")), buf, {}, [], 0)
  {
    var v := AsWritten;
    var s0 := Init({}, []);
    BlockCommentRunAsWritten(buf, s0, 3);
    var s4 := s0.(cursor := Cursor(4, 0, 0, false, false, true, -1, 0));
    assert Run(v, buf, s0) == Run(v, buf, s4);
    StepText(v, buf, s4);
    var s5 := s0.(cursor := Cursor(5, 5, 0, false, false, true, -1, 0));
    assert Run(v, buf, s4) == Run(v, buf, s5);
    assert buf[6..7] == "x";
    UnknownDirective(v, buf, s5, 7);
  }

  /** Corrected, the comment runs to its star-slash and the text holds no directive. */
  lemma StarredCommentCorrected(buf: seq<char>)
    requires StarredComment(buf)
    ensures Shape(buf, Init({}, []))
    ensures Run(Corrected, buf, Init({}, [])) == Done(None, buf, {}, [], 0)
  {
    var v := Corrected;
    var s0 := Init({}, []);
    BlockCommentRun(buf, s0, 9);
    var s10 := s0.(cursor := Cursor(10, 0, 0, false, false, true, -1, 0));
    assert Run(v, buf, s0) == Run(v, buf, s10);
    StepText(v, buf, s10);
    assert Step(v, buf, s10).Stop?;
    assert Run(v, buf, s10) == Done(None, buf, {}, [], 0);
  }

  /** A star inside a block comment. */
  lemma StarInComment(buf: seq<char>)
    requires buf == "/* *\n#x */\0"
    ensures Shape(buf, Init({}, []))
    ensures Run(AsWritten, buf, Init({}, [])) == Done(Some(UnknownMacro("x")), buf, {}, [], 0)
    ensures Run(Corrected, buf, Init({}, [])) == Done(None, buf, {}, [], 0)
  {
    assert StarredComment(buf);
    StarredCommentAsWritten(buf);
    StarredCommentCorrected(buf);
  }

  /** The letters of `#undef //` newline `#define A` newline and its NUL. */
  predicate CommentedUndef(buf: seq<char>)
  {
    |buf| == 21 && buf[0] == '#' && buf[1..6] == "undef" && buf[6] == ' ' && buf[7] == '/' && buf[8] == '/'
    && buf[9] == '\n' && buf[10] == '#' && buf[11..17] == "define" && buf[17] == ' ' && buf[18] == 'A'
    && buf[19] == '\n' && buf[20] == '\0'
  }

  /** `#undef` and its separator start an argument; the comment after it ends the line, and as written in_arg stays set. */
  lemma CommentedUndefHead(v: Variant, buf: seq<char>)
    requires CommentedUndef(buf)
    ensures Shape(buf, Init({}, []))
    ensures var s4 := Init({}, []).(cursor := Cursor(10, 1, 7, false, v.AsWritten?, true, -1, 0));
      Shape(buf, s4) && Run(v, buf, Init({}, [])) == Run(v, buf, s4)
  {
    var s0 := Init({}, []);
    assert Matches(buf, 1, "undef");
    ArgStart(v, buf, s0, "undef");
    var s3 := AtArg(s0, 0, 6, 7);
    LineCommentRun(v, buf, s3, 9);
    var s4 := Init({}, []).(cursor := Cursor(10, 1, 7, false, v.AsWritten?, true, -1, 0));
    assert Step(v, buf, s3) == Continue(buf, s4);
    assert Run(v, buf, s3) == Run(v, buf, s4);
  }

  /** As written, the `#define` on the next line is read as a name and its separator ends the `#undef` argument begun before the comment. */
  lemma CommentedUndefMiddle(buf: seq<char>)
    requires CommentedUndef(buf)
    ensures var s4 := Init({}, []).(cursor := Cursor(10, 1, 7, false, true, true, -1, 0));
      var s7 := Init({buf[7..17]}, []).(cursor := Cursor(18, 11, 7, false, false, true, -1, 0));
      Shape(buf, s4) && Shape(Override(buf, 10, 7), s7)
      && Run(AsWritten, buf, s4) == Run(AsWritten, Override(buf, 10, 7), s7)
  {
    var v := AsWritten;
    var s4 := Init({}, []).(cursor := Cursor(10, 1, 7, false, true, true, -1, 0));
    StepText(v, buf, s4);
    var s5 := s4.(cursor := Cursor(11, 11, 7, true, true, true, -1, 0));
    WordRun(v, buf, s5, 17);
    var s6 := s4.(cursor := Cursor(17, 11, 7, true, true, true, -1, 0));
    assert Run(v, buf, s4) == Run(v, buf, s5);
    ArgumentDefines(v, buf, s6);
    MacroDefines(buf, s6);
    var r := DefineEnd(buf, s6, buf[17]);
    assert s6.defined + {buf[7..17]} == {buf[7..17]};
    assert r.st == Init({buf[7..17]}, []).(cursor := Cursor(18, 11, 7, false, false, true, -1, 0));
  }

  /** The rest of the text, `A` and a newline, holds no directive. */
  lemma CommentedUndefTail(buf: seq<char>, b: seq<char>, d: set<seq<char>>)
    requires CommentedUndef(buf) && b == Override(buf, 10, 7)
    ensures var s7 := Init(d, []).(cursor := Cursor(18, 11, 7, false, false, true, -1, 0));
      Shape(b, s7) && Run(AsWritten, b, s7) == Done(None, b, d, [], 0)
  {
    var v := AsWritten;
    var s7 := Init(d, []).(cursor := Cursor(18, 11, 7, false, false, true, -1, 0));
    assert b[18] == 'A' && b[19] == '\n' && b[20] == '\0';
    StepText(v, b, s7);
    var s8 := s7.(cursor := Cursor(19, 19, 7, false, false, false, -1, 0));
    StepText(v, b, s8);
    var s9 := s7.(cursor := Cursor(20, 20, 7, false, false, true, -1, 0));
    StepText(v, b, s9);
    assert Run(v, b, s9) == Done(None, b, d, [], 0);
    assert Run(v, b, s8) == Run(v, b, s9);
  }

  /** Corrected, the comment ends the `#undef` and the `#define A` after it defines A. */
  lemma CommentedUndefCorrected(buf: seq<char>)
    requires CommentedUndef(buf)
    ensures Shape(buf, Init({}, []))
    ensures Run(Corrected, buf, Init({}, [])) == Done(None, Override(buf, 10, 9), {"A"}, [], 0)
  {
    var v := Corrected;
    CommentedUndefHead(v, buf);
    var s4 := Init({}, []).(cursor := Cursor(10, 1, 7, false, false, true, -1, 0));
    assert Matches(buf, 11, "define");
    DefineDirective(v, buf, s4, false, 19);
    var b := Override(buf, 10, 9);
    var s := DefineState(buf, s4, false, 19);
    assert buf[18..19] == "A";
    assert s.defined == {"A"};
    assert b[20] == '\0';
    StepText(v, b, s);
  }

  /**
   * A comment in place of a `#undef` argument: as written the argument runs
   * on through the next line, and the text from the comment to the end of
   * the next directive's name is defined; corrected, that directive defines A.
   */
  lemma CommentInDirective(buf: seq<char>)
    requires buf == "#undef //\n#define A\n\0"
    ensures Shape(buf, Init({}, []))
    ensures Run(AsWritten, buf, Init({}, [])) == Done(None, Override(buf, 10, 7), {"//\n#define"}, [], 0)
    ensures Run(Corrected, buf, Init({}, [])) == Done(None, Override(buf, 10, 9), {"A"}, [], 0)
  {
    assert buf[1..6] == "undef" && buf[11..17] == "define";
    assert CommentedUndef(buf);
    assert buf[7..17] == "//\n#define";
    CommentedUndefHead(AsWritten, buf);
    CommentedUndefMiddle(buf);
    CommentedUndefTail(buf, Override(buf, 10, 7), {"//\n#define"});
    CommentedUndefCorrected(buf);
  }

  /** The letters of `#ifdef A` newline and its NUL. */
  predicate OpenIfdef(buf: seq<char>)
  {
    |buf| == 10 && buf[0] == '#' && buf[1..6] == "ifdef" && buf[6] == ' ' && buf[7] == 'A' && buf[8] == '\n' && buf[9] == '\0'
  }

  /** A branch left open is UNCLOSED_MACRO, and its position stays on the open-if list. */
  lemma UnclosedIfdef(v: Variant, buf: seq<char>)
    requires OpenIfdef(buf)
    ensures Shape(buf, Init({}, []))
    ensures Run(v, buf, Init({}, [])) == Done(Some(UnclosedMacro), Override(buf, 0, 8), {}, [1], 0)
  {
    var s0 := Init({}, []);
    assert Matches(buf, 1, "ifdef");
    IfdefDirective(v, buf, s0, false, 8);
    var b := Override(buf, 0, 8);
    var s := IfdefState(buf, s0, false, 8);
    assert s.openIfs == [1];
    assert b[9] == '\0';
    StepText(v, b, s);
  }

  /**
   * lit_preprocess keeps its open-if list across calls and empties it only
   * on success: after a call that left `#ifdef A` open, an empty buffer is
   * UNCLOSED_MACRO, while from an empty list it is accepted.
   */
  lemma StaleOpenIfs(v: Variant, buf: seq<char>)
    requires buf == "#ifdef A\n\0"
    ensures Shape(buf, Init({}, [])) && Shape("\0", Init({}, []))
    ensures var first := Run(v, buf, Init({}, []));
      first.Done? && first.error == Some(UnclosedMacro)
      && Run(v, "\0", Init(first.defined, first.openIfs)) == Done(Some(UnclosedMacro), "\0", {}, [1], 0)
      && Run(v, "\0", Init(first.defined, [])) == Done(None, "\0", {}, [], 0)
  {
    assert buf[1..6] == "ifdef";
    UnclosedIfdef(v, buf);
  }

  // ---------------------------------------------------------------------
  // Loop pieces used by the imperative preprocessor
  // ---------------------------------------------------------------------

  /** How a pass of the loop ends: the loop goes on, the NUL was read, or lit_preprocess returns false. */
  datatype Flow = Go | Halt | Raise(error: PrepError)

  /** The pass result a flow, buffer and state stand for. */
  function After(flow: Flow, buf: seq<char>, st: PState): Next
  {
    match flow
    case Go => Continue(buf, st)
    case Halt => Stop(buf, st)
    case Raise(e) => Fail(e, buf, st)
  }

  /** WordEnd at a name that takes an argument: the argument starts after the separator. */
  lemma WordEndTakes(v: Variant, buf: seq<char>, s: PState, c: char)
    requires Shape(buf, s) && s.cursor.inMacro && c == buf[s.cursor.current] && TakesArgument(buf, s.cursor.macroStart)
    ensures var n := s.cursor.current + 1;
      WordEnd(v, buf, s, c) == Resume(c, buf, s.(cursor := s.cursor.(current := n, argStart := n, inArg := true)))
  {
  }

  /** WordEnd at `#else` or `#endif`, told apart by the second letter. */
  lemma WordEndCloses(v: Variant, buf: seq<char>, s: PState, c: char)
    requires Shape(buf, s) && s.cursor.inMacro && c == buf[s.cursor.current] && !TakesArgument(buf, s.cursor.macroStart)
    requires Matches(buf, s.cursor.macroStart, "else") || Matches(buf, s.cursor.macroStart, "endif")
    ensures WordEnd(v, buf, s, c) == if buf[s.cursor.macroStart + 1] == 'n' then EndifStep(v, buf, s, c) else ElseStep(v, buf, s, c)
  {
  }

  /** WordEnd at any other name: UNKNOWN_MACRO with the name. */
  lemma WordEndUnknown(v: Variant, buf: seq<char>, s: PState, c: char)
    requires Shape(buf, s) && s.cursor.inMacro && c == buf[s.cursor.current] && !TakesArgument(buf, s.cursor.macroStart)
    requires !Matches(buf, s.cursor.macroStart, "else") && !Matches(buf, s.cursor.macroStart, "endif")
    ensures var n := s.cursor.current + 1;
      WordEnd(v, buf, s, c) == Fail(UnknownMacro(buf[s.cursor.macroStart..n - 1]), buf, s.(cursor := s.cursor.(current := n)))
  {
  }

  /** The NUL or a star-slash at j. */
  predicate Closes(buf: seq<char>, j: nat)
  {
    j < |buf| && (buf[j] == '\0' || (buf[j] == '*' && j + 1 < |buf| && buf[j + 1] == '/'))
  }

  /** The corrected block comment from i ends at the first close at or after i. */
  lemma {:induction false} BlockCommentEndAt(buf: seq<char>, i: nat, e: nat)
    requires Scan.Terminated(buf) && i <= e < |buf| && Closes(buf, e)
    requires forall j :: i <= j < e ==> !Closes(buf, j)
    ensures BlockCommentEnd(buf, i) == if buf[e] == '\0' then ('\0', e + 1) else ('/', e + 2)
    decreases e - i
  {
    if i < e {
      assert !Closes(buf, i);
      Scan.Successor(buf, i);
      BlockCommentEndAt(buf, i + 1, e);
    }
  }

  // ---------------------------------------------------------------------
  // The preprocessor object (LitPreprocessor) on a mutable buffer
  // ---------------------------------------------------------------------

  class Preprocessor {
    /** The keys of the `defined` table. */
    var defined: set<seq<char>>
    /** The `open_ifs` list: where each open branch's directive name starts. */
    var openIfs: seq<nat>

    /** lit_init_preprocessor: an empty table and an empty list. */
    constructor ()
      ensures defined == {} && openIfs == []
    {
      defined := {};
      openIfs := [];
    }

    /** lit_add_definition. */
    method AddDefinition(name: seq<char>)
      modifies this`defined
      ensures defined == old(defined) + {name}
    {
      defined := defined + {name};
    }

    /** override: blank a[p..p+n], newlines kept. */
    static method Blank(a: array<char>, p: nat, n: nat)
      requires p + n <= a.Length
      modifies a
      ensures a[..] == Override(old(a[..]), p, n)
    {
      var i := 0;
      while i < n
        invariant 0 <= i <= n
        invariant Override(a[..], p + i, n - i) == Override(old(a[..]), p, n)
      {
        ghost var before := a[..];
        if a[p + i] != '\n' {
          a[p + i] := ' ';
        }
        assert a[..] == before[p + i := if before[p + i] == '\n' then '\n' else ' '];
        i := i + 1;
      }
    }

    /** The line-comment loop from i. */
    static method LineCommentLoop(a: array<char>, i: nat) returns (c: char, e: nat)
      requires Scan.Terminated(a[..]) && i < a.Length
      ensures (c, e) == LineCommentEnd(a[..], i)
    {
      c := a[i];
      e := i + 1;
      while c != '\n' && c != '\0'
        invariant i < e <= a.Length && c == a[e - 1]
        invariant LineCommentEnd(a[..], i) == LineCommentEnd(a[..], e - 1)
        decreases a.Length - e
      {
        Scan.Successor(a[..], e - 1);
        c := a[e];
        e := e + 1;
      }
    }

    /** The corrected block-comment loop from i. */
    static method BlockCommentLoop(a: array<char>, i: nat) returns (c: char, e: nat)
      requires Scan.Terminated(a[..]) && i < a.Length
      ensures (c, e) == BlockCommentEnd(a[..], i)
    {
      e := i;
      while a[e] != '\0' && !(a[e] == '*' && a[e + 1] == '/')
        invariant i <= e < a.Length
        invariant forall j :: i <= j < e ==> !Closes(a[..], j)
        decreases a.Length - e
      {
        e := e + 1;
      }
      BlockCommentEndAt(a[..], i, e);
      if a[e] == '\0' {
        c, e := '\0', e + 1;
      } else {
        c, e := '/', e + 2;
      }
    }

    /** The loop's state with the given locals. */
    function State(k: Cursor): PState
      reads this
    {
      PState(k, defined, openIfs, 0)
    }

    /** A pass at a comment: only the locals change. */
    method CommentPass(a: array<char>, k: Cursor) returns (next: Cursor, flow: Flow)
      requires Shape(a[..], State(k)) && Comment(a[..], k.current)
      ensures After(flow, a[..], State(next)) == CommentStep(Corrected, a[..], State(k))
    {
      Scan.Successor(a[..], k.current + 1);
      if a[k.current + 1] == '/' {
        next, flow := LineCommentPass(a, k);
      } else {
        next, flow := BlockCommentPass(a, k);
      }
    }

    /** A pass at two slashes. */
    method LineCommentPass(a: array<char>, k: Cursor) returns (next: Cursor, flow: Flow)
      requires Shape(a[..], State(k)) && k.current + 2 < a.Length
      ensures After(flow, a[..], State(next)) == LineCommentStep(Corrected, a[..], State(k))
    {
      var c, e := LineCommentLoop(a, k.current + 2);
      next := k.(current := e, inMacro := false, onNewLine := true, inArg := false);
      flow := if c == '\0' then Halt else Go;
    }

    /** A pass at a slash and a star. */
    method BlockCommentPass(a: array<char>, k: Cursor) returns (next: Cursor, flow: Flow)
      requires Shape(a[..], State(k)) && k.current + 2 < a.Length
      ensures After(flow, a[..], State(next)) == BlockCommentStep(Corrected, a[..], State(k))
    {
      var c, e := BlockCommentLoop(a, k.current + 2);
      next := k.(current := e, inMacro := false, onNewLine := true, inArg := false);
      flow := if c == '\0' then Halt else Go;
    }

    /** The end of a directive's argument. */
    method ArgumentEnd(a: array<char>, k: Cursor, c: char) returns (next: Cursor, flow: Flow)
      requires Shape(a[..], State(k)) && Balanced(a[..], State(k)) && k.inMacro && k.inArg && c == a[k.current]
      modifies a, this`defined, this`openIfs
      ensures After(flow, a[..], State(next)) == ArgEnd(old(a[..]), old(State(k)), c)
    {
      var ms := k.macroStart;
      if Matches(a[..], ms, "define") || Matches(a[..], ms, "undef") {
        next, flow := DefinePass(a, k, c);
      } else {
        next, flow := IfdefPass(a, k, c);
      }
    }

    /** The end of a `#define` or `#undef` argument. */
    method DefinePass(a: array<char>, k: Cursor, c: char) returns (next: Cursor, flow: Flow)
      requires Shape(a[..], State(k)) && k.inMacro && c == a[k.current]
      modifies a, this`defined
      ensures After(flow, a[..], State(next)) == DefineEnd(old(a[..]), old(State(k)), c)
    {
      ghost var r := DefineEnd(a[..], State(k), c);
      var n := k.current + 1;
      var ms := k.macroStart;
      var arg := a[k.argStart..n - 1];
      if k.ignoreDepth < 0 {
        if a[ms] == 'u' {
          defined := defined - {arg};
        } else {
          defined := defined + {arg};
        }
      }
      Blank(a, ms - 1, n - ms);
      next := k.(current := n, inMacro := false, inArg := false);
      flow := if c == '\0' then Halt else Go;
      assert r.buf == a[..] && r.st == State(next);
    }

    /** The end of an `#ifdef` or `#ifndef` argument. */
    method IfdefPass(a: array<char>, k: Cursor, c: char) returns (next: Cursor, flow: Flow)
      requires Shape(a[..], State(k)) && Balanced(a[..], State(k)) && k.inMacro && k.inArg && c == a[k.current]
      modifies a, this`openIfs
      ensures After(flow, a[..], State(next)) == IfdefEnd(old(a[..]), old(State(k)), c)
    {
      ghost var r := IfdefEnd(a[..], State(k), c);
      var n := k.current + 1;
      var ms := k.macroStart;
      var arg := a[k.argStart..n - 1];
      next := k.(current := n, inMacro := false, inArg := false, depth := k.depth + 1);
      if k.ignoreDepth < 0 {
        if (arg in defined) == (a[ms + 2] == 'n') {
          next := next.(ignoreDepth := next.depth);
        }
        openIfs := openIfs + [ms];
      }
      Blank(a, ms - 1, n - ms);
      flow := if c == '\0' then Halt else Go;
      assert r.buf == a[..] && r.st == State(next);
    }

    /** `#endif`. */
    method EndifPass(a: array<char>, k: Cursor, c: char) returns (next: Cursor, flow: Flow)
      requires Shape(a[..], State(k)) && Balanced(a[..], State(k)) && k.inMacro && !k.inArg && c == a[k.current]
      modifies a, this`openIfs
      ensures After(flow, a[..], State(next)) == EndifStep(Corrected, old(a[..]), old(State(k)), c)
    {
      if k.ignoreDepth > -1 {
        next, flow := EndIgnored(a, k, c);
      } else {
        next, flow := EndTaken(a, k, c);
      }
    }

    /** `#endif` inside an ignored branch: the branch is blanked from its opening directive. */
    method EndIgnored(a: array<char>, k: Cursor, c: char) returns (next: Cursor, flow: Flow)
      requires Shape(a[..], State(k)) && Balanced(a[..], State(k)) && k.inMacro && !k.inArg && c == a[k.current]
      requires k.ignoreDepth > -1
      modifies a, this`openIfs
      ensures After(flow, a[..], State(next)) == EndifStep(Corrected, old(a[..]), old(State(k)), c)
    {
      ghost var r := EndifStep(Corrected, a[..], State(k), c);
      var n := k.current + 1;
      next := k.(current := n, inMacro := false, depth := k.depth - 1);
      flow := if c == '\0' then Halt else Go;
      var bs := openIfs[|openIfs| - 1];
      Blank(a, bs - 1, n - bs);
      if k.ignoreDepth == next.depth + 1 {
        next := next.(ignoreDepth := -1);
        openIfs := openIfs[..|openIfs| - 1];
      }
      assert r.buf == a[..] && r.st == State(next);
    }

    /** `#endif` outside ignored branches: the branch is popped and the directive blanked. */
    method EndTaken(a: array<char>, k: Cursor, c: char) returns (next: Cursor, flow: Flow)
      requires Shape(a[..], State(k)) && k.inMacro && !k.inArg && c == a[k.current]
      requires k.ignoreDepth <= -1
      modifies a, this`openIfs
      ensures After(flow, a[..], State(next)) == EndifStep(Corrected, old(a[..]), old(State(k)), c)
    {
      ghost var r := EndifStep(Corrected, a[..], State(k), c);
      var n := k.current + 1;
      var ms := k.macroStart;
      next := k.(current := n, inMacro := false, depth := k.depth - 1);
      flow := if c == '\0' then Halt else Go;
      if openIfs == [] {
        flow := Raise(UnclosedMacro);
      } else {
        openIfs := openIfs[..|openIfs| - 1];
        Blank(a, ms - 1, n - ms);
      }
      assert r.buf == a[..] && r.st == State(next);
    }

    /** `#else`. */
    method ElsePass(a: array<char>, k: Cursor, c: char) returns (next: Cursor, flow: Flow)
      requires Shape(a[..], State(k)) && Balanced(a[..], State(k)) && k.inMacro && !k.inArg && c == a[k.current]
      modifies a, this`openIfs
      ensures After(flow, a[..], State(next)) == ElseStep(Corrected, old(a[..]), old(State(k)), c)
    {
      ghost var r := ElseStep(Corrected, a[..], State(k), c);
      var n := k.current + 1;
      var ms := k.macroStart;
      next := k.(current := n, inMacro := false);
      flow := if c == '\0' then Halt else Go;
      if k.ignoreDepth < 0 || k.depth <= k.ignoreDepth {
        if openIfs == [] {
          flow := Raise(UnclosedMacro);
        } else if k.ignoreDepth == k.depth {
          var bs := openIfs[|openIfs| - 1];
          Blank(a, bs - 1, n - bs);
          next := next.(ignoreDepth := -1);
        } else {
          openIfs := openIfs[..|openIfs| - 1] + [ms];
          next := next.(ignoreDepth := k.depth);
        }
      }
      assert r.buf == a[..] && r.st == State(next);
    }

    /** The end of a directive's name. */
    method NameEnd(a: array<char>, k: Cursor, c: char) returns (next: Cursor, flow: Flow)
      requires Shape(a[..], State(k)) && Balanced(a[..], State(k)) && k.inMacro && !k.inArg && c == a[k.current]
      modifies a, this`openIfs
      ensures After(flow, a[..], State(next)) == WordEnd(Corrected, old(a[..]), old(State(k)), c)
    {
      var ms := k.macroStart;
      if TakesArgument(a[..], ms) {
        WordEndTakes(Corrected, a[..], State(k), c);
        next := k.(current := k.current + 1, argStart := k.current + 1, inArg := true);
        flow := if c == '\0' then Halt else Go;
      } else if Matches(a[..], ms, "else") || Matches(a[..], ms, "endif") {
        next, flow := ClosePass(a, k, c);
      } else {
        WordEndUnknown(Corrected, a[..], State(k), c);
        next := k.(current := k.current + 1);
        flow := Raise(UnknownMacro(a[ms..k.current]));
      }
    }

    /** `#else` or `#endif`. */
    method ClosePass(a: array<char>, k: Cursor, c: char) returns (next: Cursor, flow: Flow)
      requires Shape(a[..], State(k)) && Balanced(a[..], State(k)) && k.inMacro && !k.inArg && c == a[k.current]
      requires !TakesArgument(a[..], k.macroStart)
      requires Matches(a[..], k.macroStart, "else") || Matches(a[..], k.macroStart, "endif")
      modifies a, this`openIfs
      ensures After(flow, a[..], State(next)) == WordEnd(Corrected, old(a[..]), old(State(k)), c)
    {
      WordEndCloses(Corrected, a[..], State(k), c);
      if a[k.macroStart + 1] == 'n' {
        next, flow := EndifPass(a, k, c);
      } else {
        next, flow := ElsePass(a, k, c);
      }
    }

    /** One pass of the do-while loop of lit_preprocess. */
    method Pass(a: array<char>, k: Cursor) returns (next: Cursor, flow: Flow)
      requires Shape(a[..], State(k)) && Balanced(a[..], State(k))
      modifies a, this`defined, this`openIfs
      ensures After(flow, a[..], State(next)) == Step(Corrected, old(a[..]), old(State(k)))
    {
      ghost var buf := a[..];
      ghost var s := State(k);
      var c := a[k.current];
      if Comment(a[..], k.current) {
        next, flow := CommentPass(a, k);
      } else if k.inMacro {
        StepMacro(Corrected, buf, s);
        if IsAlpha(c) || (k.current + 1 - k.macroStart > 1 && IsDigit(c)) {
          Scan.Successor(buf, k.current);
          next := k.(current := k.current + 1);
          flow := Go;
        } else if k.inArg {
          next, flow := ArgumentEnd(a, k, c);
        } else {
          next, flow := NameEnd(a, k, c);
        }
      } else {
        StepText(Corrected, buf, s);
        next := k.(current := k.current + 1, macroStart := k.current + 1);
        if c == '\n' {
          next := next.(onNewLine := true);
        } else if !(c == '\t' || c == ' ' || c == '#') {
          next := next.(onNewLine := false);
        } else {
          next := next.(inMacro := next.onNewLine && c == '#');
        }
        flow := if c == '\0' then Halt else Go;
      }
    }

    /**
     * lit_preprocess on the NUL-terminated text in a, starting from an empty
     * open-if list: the text, the defined set, the list and the verdict are
     * those of the corrected loop.
     */
    method Preprocess(a: array<char>) returns (ok: bool, error: Option<PrepError>)
      requires Scan.Terminated(a[..])
      modifies this, a
      ensures var o := Run(Corrected, old(a[..]), Init(old(defined), []));
        o.Done? && a[..] == o.buf && defined == o.defined && openIfs == o.openIfs && error == o.error
      ensures ok <==> error == None
    {
      openIfs := [];
      var k := Cursor(0, 0, 0, false, false, true, -1, 0);
      ghost var o := Run(Corrected, a[..], Init(defined, []));
      RunDefined(a[..], Init(defined, []));
      while true
        invariant Shape(a[..], State(k)) && Balanced(a[..], State(k))
        invariant Run(Corrected, a[..], State(k)) == o
        decreases a.Length - k.current
      {
        StepBalanced(a[..], State(k));
        var next, flow := Pass(a, k);
        if flow.Halt? {
          if next.inMacro || |openIfs| > 0 || next.depth > 0 {
            error := Some(UnclosedMacro);
          } else {
            openIfs := [];
            error := None;
          }
          ok := error == None;
          return;
        } else if flow.Raise? {
          error := Some(flow.error);
          ok := false;
          return;
        }
        k := next;
      }
    }
  }
}
