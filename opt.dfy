/**
 * The AST optimizer of ccopt.c: the table of optimization flags with its
 * "any enabled" summary and the levels that fill it, and the optimizer's
 * list of variables with its scope depth. The optimizing passes themselves
 * are never reached, because lit_astopt_optast returns at once.
 */
module Opt {
  import opened Wrappers

  /** The optimizations, in the order of their enum. */
  const CONSTANT_FOLDING := 0
  const LITERAL_FOLDING := 1
  const UNUSED_VAR := 2
  const UNREACHABLE_CODE := 3
  const EMPTY_BODY := 4
  const LINE_INFO := 5
  const PRIVATE_NAMES := 6
  const C_FOR := 7
  const OPTIMIZATION_COUNT := 8

  type Optimization = o: nat | o < OPTIMIZATION_COUNT

  /** The option names the command line and the flags table use. */
  const NAMES: seq<string> := ["constant-folding", "literal-folding", "unused-var", "unreachable-code",
                               "empty-body", "line-info", "private-names", "c-for"]

  datatype Level = LevelNone | LevelRepl | LevelDebug | LevelRelease | LevelExtreme | LevelTotal

  /** Whether optimization o is on at a level (the level past the last one selects nothing). */
  predicate OnAt(level: Level, o: Optimization)
    requires !level.LevelTotal?
  {
    match level
    case LevelNone => false
    case LevelRepl => o in {CONSTANT_FOLDING, LITERAL_FOLDING, C_FOR}
    case LevelDebug => o !in {UNUSED_VAR, LINE_INFO, PRIVATE_NAMES}
    case LevelRelease => o != LINE_INFO
    case LevelExtreme => true
  }

  /** The whole flag table a level selects. */
  function LevelFlags(level: Level): (flags: seq<bool>)
    requires !level.LevelTotal?
    ensures |flags| == OPTIMIZATION_COUNT
    ensures forall o: Optimization :: flags[o] == OnAt(level, o)
  {
    seq(OPTIMIZATION_COUNT, (o: int) requires 0 <= o < OPTIMIZATION_COUNT => OnAt(level, o))
  }

  /** Every level turns on at least what the level below it does. */
  lemma LevelsGrow(o: Optimization)
    ensures !OnAt(LevelNone, o)
    ensures OnAt(LevelRepl, o) ==> OnAt(LevelDebug, o)
    ensures OnAt(LevelDebug, o) ==> OnAt(LevelRelease, o)
    ensures OnAt(LevelRelease, o) ==> OnAt(LevelExtreme, o)
  {
  }

  /** Only NONE leaves every optimization off, so any other level enables something. */
  lemma LevelEnablesSome(level: Level)
    requires !level.LevelTotal?
    ensures (true in LevelFlags(level)) <==> !level.LevelNone?
  {
    var flags := LevelFlags(level);
    if !level.LevelNone? {
      assert flags[CONSTANT_FOLDING];
    } else {
      forall i | 0 <= i < |flags| ensures !flags[i] {
        assert flags[i] == OnAt(level, i);
      }
    }
  }

  /**
   * optimization_states with optimization_states_setup and
   * any_optimization_enabled: the static flag table of ccopt.c.
   */
  class Flags {
    var states: seq<bool>
    var setup: bool
    var any: bool

    /** The summary flag says whether some optimization is on. */
    ghost predicate Valid()
      reads this
    {
      |states| == OPTIMIZATION_COUNT && (any <==> true in states)
    }

    /** The table as the program starts: nothing set up, every flag off. */
    constructor ()
      ensures Valid() && !setup && states == seq(OPTIMIZATION_COUNT, _ => false) && !any
    {
      states := seq(OPTIMIZATION_COUNT, _ => false);
      setup := false;
      any := false;
    }

    /** lit_astopt_setalloptenabled: every flag, and the summary, become b. */
    method SetAllOptEnabled(b: bool)
      modifies this
      ensures Valid() && setup && any == b
      ensures states == seq(OPTIMIZATION_COUNT, _ => b)
    {
      setup := true;
      any := b;
      states := seq(OPTIMIZATION_COUNT, _ => b);
      assert states[0] == b;
    }

    /**
     * lit_astopt_setoptenabled: sets up the DEBUG table first if nothing
     * is set up yet, then sets flag o. Turning a flag on sets the summary;
     * turning one off clears it only when no flag is left on.
     */
    method SetOptEnabled(o: Optimization, enabled: bool)
      requires Valid()
      modifies this
      ensures Valid() && setup
      ensures states == (if old(setup) then old(states) else LevelFlags(LevelDebug))[o := enabled]
    {
      if !setup {
        SetupStates();
      }
      SetFlag(o, enabled);
    }

    /** The part of setoptenabled after the set-up check. */
    method SetFlag(o: Optimization, enabled: bool)
      requires Valid()
      modifies this
      ensures Valid() && setup == old(setup)
      ensures states == old(states)[o := enabled]
    {
      states := states[o := enabled];
      if enabled {
        any := true;
        assert states[o];
      } else {
        var i := 0;
        while i < OPTIMIZATION_COUNT
          invariant 0 <= i <= OPTIMIZATION_COUNT
          invariant forall k :: 0 <= k < i ==> !states[k]
        {
          if states[i] {
            // some flag is still on, so the summary, which was set, stays set
            assert old(states)[i];
            return;
          }
          i := i + 1;
        }
        any := false;
      }
    }

    /** lit_astopt_setupstates: the DEBUG level. */
    method SetupStates()
      modifies this
      ensures Valid() && setup && states == LevelFlags(LevelDebug)
    {
      SetOptLevel(LevelDebug);
    }

    /**
     * lit_astopt_setoptlevel: the table of the level, built by turning
     * everything on or off and then switching single flags off. The level
     * past the last one changes nothing.
     */
    method SetOptLevel(level: Level)
      modifies this
      ensures level.LevelTotal? ==> states == old(states) && setup == old(setup) && any == old(any)
      ensures !level.LevelTotal? ==> Valid() && setup && states == LevelFlags(level)
    {
      match level
      case LevelNone =>
        SetAllOptEnabled(false);
      case LevelRepl =>
        SetAllOptEnabled(true);
        SetFlag(UNUSED_VAR, false);
        SetFlag(UNREACHABLE_CODE, false);
        SetFlag(EMPTY_BODY, false);
        SetFlag(LINE_INFO, false);
        SetFlag(PRIVATE_NAMES, false);
      case LevelDebug =>
        SetAllOptEnabled(true);
        SetFlag(UNUSED_VAR, false);
        SetFlag(LINE_INFO, false);
        SetFlag(PRIVATE_NAMES, false);
      case LevelRelease =>
        SetAllOptEnabled(true);
        SetFlag(LINE_INFO, false);
      case LevelExtreme =>
        SetAllOptEnabled(true);
      case LevelTotal =>
    }

    /** lit_astopt_isoptenabled: the first query sets up the DEBUG table. */
    method IsOptEnabled(o: Optimization) returns (b: bool)
      requires Valid()
      modifies this
      ensures Valid() && setup
      ensures states == if old(setup) then old(states) else LevelFlags(LevelDebug)
      ensures b == states[o]
    {
      if !setup {
        SetupStates();
      }
      b := states[o];
    }
  }

  /**
   * A declared variable: its name, the scope depth it was declared at,
   * whether it is used, and the statement slot its declaration sits in
   * (a slot is named by a number).
   */
  datatype Variable = Variable(name: string, depth: int, constant: bool, used: bool, declaration: nat)

  /** The most recently added variable called name, as an index. */
  function LastNamed(vs: seq<Variable>, name: string): (r: Option<nat>)
    ensures r.Some? ==> r.value < |vs| && vs[r.value].name == name &&
                        forall k :: r.value < k < |vs| ==> vs[k].name != name
    ensures r.None? ==> forall k :: 0 <= k < |vs| ==> vs[k].name != name
  {
    if |vs| == 0 then None
    else if vs[|vs| - 1].name == name then Some(|vs| - 1)
    else LastNamed(vs[..|vs| - 1], name)
  }

  /** A newly added variable hides every earlier one of its name, and no other name sees it. */
  lemma AddedHides(vs: seq<Variable>, v: Variable, name: string)
    ensures LastNamed(vs + [v], v.name) == Some(|vs|)
    ensures name != v.name ==> LastNamed(vs + [v], name) == LastNamed(vs, name)
  {
    assert (vs + [v])[..|vs|] == vs;
  }

  /** The depths of the list never decrease from older to newer. */
  ghost predicate Nested(vs: seq<Variable>)
  {
    forall i, j :: 0 <= i < j < |vs| ==> vs[i].depth <= vs[j].depth
  }

  /** The statement at a slot, as isemptyexpr sees it: a block and its statement count, or another kind. */
  datatype Statement = Block(count: nat) | OtherStatement

  /** lit_astopt_isemptyexpr: no statement at all, or a block of none. */
  predicate IsEmptyExpr(s: Option<Statement>)
  {
    s.None? || (s.value.Block? && s.value.count == 0)
  }

  /** A statement that is present and not a block is never empty. */
  lemma IsEmptyExprCases(s: Option<Statement>)
    ensures s == Some(OtherStatement) ==> !IsEmptyExpr(s)
    ensures forall n: nat :: IsEmptyExpr(Some(Block(n))) <==> n == 0
  {
  }

  /**
   * LitOptimizer: the variables in scope, the current depth, and whether
   * new variables start out used. cleared records the declaration slots
   * end_scope has destroyed and set to NULL.
   */
  class Optimizer {
    var variables: seq<Variable>
    var depth: int
    var markUsed: bool
    var cleared: set<nat>

    /** Every variable sits at or above the current depth, the newest deepest. */
    ghost predicate Valid()
      reads this
    {
      Nested(variables) && forall i :: 0 <= i < |variables| ==> variables[i].depth <= depth
    }

    /** lit_astopt_init: depth -1, no variables, new variables unused. */
    constructor ()
      ensures Valid() && variables == [] && depth == -1 && !markUsed && cleared == {}
    {
      variables := [];
      depth := -1;
      markUsed := false;
      cleared := {};
    }

    /** lit_astopt_beginscope. */
    method BeginScope()
      requires Valid()
      modifies this`depth
      ensures Valid() && depth == old(depth) + 1
    {
      depth := depth + 1;
    }

    /** lit_astopt_addvar: appends the variable at the current depth; it is the one returned. */
    method AddVar(name: string, constant: bool, declaration: nat) returns (index: nat)
      requires Valid()
      modifies this`variables
      ensures Valid()
      ensures variables == old(variables) + [Variable(name, depth, constant, markUsed, declaration)]
      ensures index == |old(variables)| && LastNamed(variables, name) == Some(index)
    {
      AddedHides(variables, Variable(name, depth, constant, markUsed, declaration), name);
      variables := variables + [Variable(name, depth, constant, markUsed, declaration)];
      index := |variables| - 1;
    }

    /** lit_astopt_resolvevar: a search from the newest variable back. */
    method ResolveVar(name: string) returns (r: Option<nat>)
      ensures r == LastNamed(variables, name)
    {
      var i := |variables|;
      while i > 0
        invariant 0 <= i <= |variables|
        invariant LastNamed(variables, name) == LastNamed(variables[..i], name)
      {
        assert variables[..i][..i - 1] == variables[..i - 1];
        if variables[i - 1].name == name {
          return Some(i - 1);
        }
        i := i - 1;
      }
      return None;
    }

    /**
     * lit_astopt_endscope: the depth drops by one and the variables deeper
     * than it are popped, newest first. When unused-var is on, the
     * declaration of each popped variable that was never used is destroyed.
     */
    method EndScope(flags: Flags)
      requires Valid() && flags.Valid()
      modifies this`depth, this`variables, this`cleared, flags
      ensures Valid() && flags.Valid() && depth == old(depth) - 1
      ensures flags.states == if old(flags.setup) then old(flags.states) else LevelFlags(LevelDebug)
      ensures variables == Visible(old(variables), depth)
      ensures cleared == old(cleared) + (if flags.states[UNUSED_VAR] then Unused(old(variables), depth) else {})
    {
      depth := depth - 1;
      var removeUnused := flags.IsOptEnabled(UNUSED_VAR);
      ghost var vs := variables;
      PopScope(removeUnused);
      VisibleFilters(vs, depth);
      NestedPrefix(vs, |variables|);
    }

    /** The loop of lit_astopt_endscope: the variables deeper than depth are popped, newest first. */
    method PopScope(removeUnused: bool)
      modifies this`variables, this`cleared
      ensures variables == Visible(old(variables), depth)
      ensures cleared == old(cleared) + (if removeUnused then Unused(old(variables), depth) else {})
    {
      ghost var start := variables;
      while |variables| > 0 && variables[|variables| - 1].depth > depth
        invariant |variables| <= |start| && variables == start[..|variables|]
        invariant forall k :: |variables| <= k < |start| ==> start[k].depth > depth
        invariant cleared == old(cleared) + (if removeUnused then Removed(start, |variables|) else {})
        decreases |variables|
        modifies this`variables, this`cleared
      {
        var last := variables[|variables| - 1];
        RemovedStep(start, |variables|);
        if removeUnused && !last.used {
          cleared := cleared + {last.declaration};
        }
        variables := variables[..|variables| - 1];
      }
      VisibleCut(start, depth, |variables|);
      UnusedCut(start, depth, |variables|);
    }
  }

  /** The variables at or above depth d: with nested depths, a prefix. */
  ghost function Visible(vs: seq<Variable>, d: int): (r: seq<Variable>)
    ensures |r| <= |vs|
  {
    if |vs| > 0 && vs[|vs| - 1].depth > d then Visible(vs[..|vs| - 1], d) else vs
  }

  /** Declaration slots of the unused variables from index n on. */
  ghost function Removed(vs: seq<Variable>, n: nat): set<nat>
  {
    set k | n <= k < |vs| && !vs[k].used :: vs[k].declaration
  }

  /** A prefix of a nested list is nested. */
  lemma NestedPrefix(vs: seq<Variable>, n: nat)
    requires Nested(vs) && n <= |vs|
    ensures Nested(vs[..n])
  {
  }

  /** Popping the variable at n - 1 adds its declaration when it was never used. */
  lemma RemovedStep(vs: seq<Variable>, n: nat)
    requires 1 <= n <= |vs|
    ensures Removed(vs, n - 1) == Removed(vs, n) + (if vs[n - 1].used then {} else {vs[n - 1].declaration})
  {
  }

  /** Declaration slots of the unused variables deeper than d. */
  ghost function Unused(vs: seq<Variable>, d: int): set<nat>
  {
    Removed(vs, |Visible(vs, d)|)
  }

  /** Where end_scope's loop stops is where Visible cuts. */
  lemma {:induction false} VisibleCut(vs: seq<Variable>, d: int, n: nat)
    requires n <= |vs| && (forall k :: n <= k < |vs| ==> vs[k].depth > d)
    requires n == 0 || vs[n - 1].depth <= d
    ensures Visible(vs, d) == vs[..n]
    decreases |vs|
  {
    if n < |vs| {
      assert vs[..|vs| - 1][..n] == vs[..n];
      VisibleCut(vs[..|vs| - 1], d, n);
    } else {
      assert vs[..n] == vs;
    }
  }

  lemma UnusedCut(vs: seq<Variable>, d: int, n: nat)
    requires n <= |vs| && Visible(vs, d) == vs[..n]
    ensures Unused(vs, d) == Removed(vs, n)
  {
  }

  /**
   * With nested depths, end_scope keeps exactly the variables not deeper
   * than the new depth, in order.
   */
  lemma {:induction false} VisibleFilters(vs: seq<Variable>, d: int)
    requires Nested(vs)
    ensures forall v :: v in Visible(vs, d) <==> v in vs && v.depth <= d
    ensures Visible(vs, d) == vs[..|Visible(vs, d)|]
    decreases |vs|
  {
    if |vs| > 0 && vs[|vs| - 1].depth > d {
      var init := vs[..|vs| - 1];
      assert Nested(init);
      VisibleFilters(init, d);
      forall v | v in vs && v.depth <= d ensures v in init {
        var k :| 0 <= k < |vs| && vs[k] == v;
      }
      assert vs[..|Visible(vs, d)|] == init[..|Visible(init, d)|];
    } else if |vs| > 0 {
      forall v | v in vs ensures v.depth <= d {
        var k :| 0 <= k < |vs| && vs[k] == v;
        assert vs[k].depth <= vs[|vs| - 1].depth;
      }
    }
  }

  /**
   * lit_astopt_optast returns before doing anything, so the statements
   * come back as they were and the flags are not even set up.
   */
  method OptAst(flags: Flags, statements: seq<Option<Statement>>) returns (r: seq<Option<Statement>>)
    ensures r == statements
  {
    return statements;
  }
}
