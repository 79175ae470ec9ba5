/**
 * The LitParser object of ccparser.c, updated in place: its current and
 * previous token, had_error, panic_mode and the errors it reported. The
 * token-level operations (advance, raise, sync, match, the newline loop,
 * consume) and the loops over parameter and argument lists are methods
 * on it; each one is proved to leave the parser in the state the
 * corresponding function of module Parser computes, so every property
 * proved there about those functions holds of these methods.
 */
module LitParsers {
  import opened Scan
  import opened Parser

  class LitParser {
    /** What the scanner produces for this source, up to and including its first EOF. */
    const tokens: seq<Tok>
    var current: nat
    var previous: nat
    var hadError: bool
    var panicMode: bool
    var errors: seq<ParseError>

    /** The parser's fields as a value. */
    function State(): PState
      reads this
    {
      PState(current, previous, hadError, panicMode, errors)
    }

    /** lit_parser_init over a scanner that produces ts: no error, not panicking. */
    constructor(ts: seq<Tok>)
      requires Stream(ts)
      ensures tokens == ts && State() == PState(0, 0, false, false, [])
      ensures Ok(tokens, State())
    {
      tokens := ts;
      current := 0;
      previous := 0;
      hadError := false;
      panicMode := false;
      errors := [];
    }

    /** Moves the parser to a state a parsing function returned. */
    method Restore(s: PState)
      modifies this
      ensures State() == s
    {
      current := s.pos;
      previous := s.prev;
      hadError := s.hadError;
      panicMode := s.panicMode;
      errors := s.errors;
    }

    /** lit_parser_advance: the current token becomes the previous one, and the next is scanned. */
    method Advance() returns (f: Flow)
      requires Ok(tokens, State())
      modifies this
      ensures (f, State()) == Parser.Advance(tokens, old(State()))
      decreases |tokens| - current, 1
    {
      previous := current;
      current := Next(tokens, current);
      f := Scan();
    }

    /** The loop of lit_parser_advance: every error token scanned is reported, and the next one scanned. */
    method Scan() returns (f: Flow)
      requires Ok(tokens, State())
      modifies this
      ensures (f, State()) == ScanFrom(tokens, old(State()))
      decreases |tokens| - current, if tokens[current].kind == Error then 5 else 0
    {
      f := Go;
      while tokens[current].kind == Error
        invariant Ok(tokens, State()) && ScanFrom(tokens, State()) == ScanFrom(tokens, old(State()))
        invariant current >= old(current) && f == Go
        decreases |tokens| - current
      {
        ghost var before := State();
        assert current < |tokens| - 1;
        f := Raise(LexicalError(tokens[current].text));
        if f != Go {
          assert ScanFrom(tokens, before) == (f, State());
          return;
        }
        ghost var raised := State();
        current := Next(tokens, current);
        assert State() == raised.(pos := Next(tokens, raised.pos));
      }
      assert ScanFrom(tokens, State()) == (Go, State());
    }

    /**
     * lit_parser_raisestring: nothing while panic_mode is set; otherwise the
     * error is reported, had_error set and the parser synchronised.
     */
    method Raise(e: ParseError) returns (f: Flow)
      requires Ok(tokens, State())
      modifies this
      ensures (f, State()) == Parser.Raise(tokens, old(State()), e)
      decreases |tokens| - current, 4
    {
      if panicMode {
        return Go;
      }
      errors := errors + [e];
      hadError := true;
      f := Sync();
    }

    /**
     * lit_parser_sync: panic_mode is cleared and tokens are skipped up to the
     * EOF; a statement boundary before it unwinds to the statement loop.
     */
    method Sync() returns (f: Flow)
      requires Ok(tokens, State())
      modifies this
      ensures (f, State()) == Parser.Sync(tokens, old(State()))
      decreases |tokens| - current, 3
    {
      panicMode := false;
      ghost var s0 := State();
      assert Parser.Sync(tokens, old(State())) == SyncLoop(tokens, s0);
      while tokens[current].kind != Eof
        invariant Ok(tokens, State()) && SyncLoop(tokens, State()) == SyncLoop(tokens, s0)
        invariant current >= old(current)
        decreases |tokens| - current
      {
        ghost var before := State();
        if tokens[previous].kind == NewLine || SyncPoint(tokens[current].kind) {
          assert SyncLoop(tokens, before) == (Unwind, State());
          return Unwind;
        }
        assert current < |tokens| - 1;
        assert SyncLoop(tokens, before) == (var (g, t) := Parser.Advance(tokens, before); if g != Go then (g, t) else SyncLoop(tokens, t));
        f := Advance();
        if f != Go {
          return;
        }
      }
      assert SyncLoop(tokens, State()) == (Go, State());
      f := Go;
    }

    /** lit_parser_match: the current token is consumed when it has type k. */
    method Match(k: TokenType) returns (f: Flow, matched: bool)
      requires Ok(tokens, State())
      modifies this
      ensures (f, matched, State()) == Parser.Match(tokens, old(State()), k)
      decreases |tokens| - current, 2
    {
      if tokens[current].kind != k {
        return Go, false;
      }
      f := Advance();
      matched := true;
    }

    /** lit_parser_matchnewline: every NEW_LINE token is consumed. */
    method MatchNewlines() returns (f: Flow)
      requires Ok(tokens, State())
      modifies this
      ensures (f, State()) == Parser.MatchNewlines(tokens, old(State()))
      decreases |tokens| - current, 3
    {
      ghost var s0 := State();
      var matched := true;
      f := Go;
      while matched
        invariant Ok(tokens, State()) && current >= old(current)
        invariant matched ==> Parser.MatchNewlines(tokens, State()) == Parser.MatchNewlines(tokens, s0)
        invariant !matched ==> (f, State()) == Parser.MatchNewlines(tokens, s0)
        decreases |tokens| - current, matched
      {
        f, matched := Match(NewLine);
        if f != Go {
          return;
        }
      }
    }

    /** lit_parser_consume: the current token must have type k. */
    method Consume(k: TokenType, what: Expected) returns (f: Flow)
      requires Ok(tokens, State())
      modifies this
      ensures (f, State()) == Parser.Consume(tokens, old(State()), k, what)
      decreases |tokens| - current, 5
    {
      ghost var s := State();
      if tokens[current].kind == k {
        assert Parser.Consume(tokens, s, k, what) == Parser.Advance(tokens, s);
        f := Advance();
      } else {
        assert Parser.Consume(tokens, s, k, what) == Parser.Raise(tokens, s, ExpectationUnmet(what));
        f := Raise(ExpectationUnmet(what));
      }
    }

    /**
     * lit_parser_parseparameters: parameters up to the `)`; `...` ends the
     * list, and a parameter without a default after one with a default is
     * reported. The default values are parsed by ParseExpression.
     */
    method ParseParameters(rules: TokenType -> Rule) returns (f: Flow, ps: seq<Param>)
      requires Sane(rules) && Ok(tokens, State())
      modifies this
      ensures (f, ps, State()) == Parser.ParseParameters(rules, tokens, old(State()), [], false)
    {
      ghost var s0 := State();
      var hadDefault := false;
      ps := [];
      f := Go;
      while tokens[current].kind != RightParen
        invariant Ok(tokens, State()) && f == Go
        invariant Parser.ParseParameters(rules, tokens, State(), ps, hadDefault) == Parser.ParseParameters(rules, tokens, s0, [], false)
        decreases |tokens| - current
      {
        var more;
        f, ps, hadDefault, more := ParameterStep(rules, ps, hadDefault);
        if !more {
          return;
        }
      }
    }

    /**
     * One round of the loop of lit_parser_parseparameters: `...`, or a
     * parameter's name, its default value and the `,` after it. It says
     * whether the loop goes on.
     */
    method ParameterStep(rules: TokenType -> Rule, ps: seq<Param>, hadDefault: bool) returns (f: Flow, ps': seq<Param>, hadDefault': bool, more: bool)
      requires Sane(rules) && Ok(tokens, State()) && tokens[current].kind != RightParen
      modifies this
      ensures Ok(tokens, State())
      ensures more ==> f == Go && current > old(current)
      ensures more ==> Parser.ParseParameters(rules, tokens, old(State()), ps, hadDefault) == Parser.ParseParameters(rules, tokens, State(), ps', hadDefault')
      ensures !more ==> Parser.ParseParameters(rules, tokens, old(State()), ps, hadDefault) == (f, ps', State())
    {
      var vararg;
      f, vararg := Match(DotDotDot);
      if f != Go {
        return f, ps, hadDefault, false;
      }
      if vararg {
        return f, ps + [Param("...", Missing)], hadDefault, false;
      }
      f := Consume(Identifier, ArgumentName);
      if f != Go {
        return f, ps, hadDefault, false;
      }
      f, ps', hadDefault', more := ParameterRest(rules, ps, hadDefault);
    }

    /** The rest of a round, after the parameter's name: its default value and the `,` after it. */
    method ParameterRest(rules: TokenType -> Rule, ps: seq<Param>, hadDefault: bool) returns (f: Flow, ps': seq<Param>, hadDefault': bool, more: bool)
      requires Sane(rules) && Ok(tokens, State())
      modifies this
      ensures Ok(tokens, State())
      ensures more ==> f == Go && current > old(current)
      ensures more ==> ParameterTail(rules, tokens, old(State()), ps, hadDefault) == Parser.ParseParameters(rules, tokens, State(), ps', hadDefault')
      ensures !more ==> ParameterTail(rules, tokens, old(State()), ps, hadDefault) == (f, ps', State())
    {
      var p, equal;
      f, p, equal := Parameter(rules, hadDefault);
      if f != Go {
        return f, ps, hadDefault, false;
      }
      ps' := ps + [p];
      hadDefault' := hadDefault || equal;
      f, more := NextParameter(rules, ps', hadDefault');
    }

    /** The `,` before another parameter: without it, the list ends. */
    method NextParameter(rules: TokenType -> Rule, ps: seq<Param>, hadDefault: bool) returns (f: Flow, more: bool)
      requires Sane(rules) && Ok(tokens, State())
      modifies this
      ensures Ok(tokens, State())
      ensures more ==> f == Go && current > old(current)
      ensures more ==> AfterParameter(rules, tokens, old(State()), ps, hadDefault) == Parser.ParseParameters(rules, tokens, State(), ps, hadDefault)
      ensures !more ==> AfterParameter(rules, tokens, old(State()), ps, hadDefault) == (f, ps, State())
    {
      f, more := Match(Comma);
      more := f == Go && more;
    }

    /** A parameter whose name is the token just consumed, and its default value. */
    method Parameter(rules: TokenType -> Rule, hadDefault: bool) returns (f: Flow, p: Param, equal: bool)
      requires Sane(rules) && Ok(tokens, State())
      modifies this
      ensures (f, p, equal, State()) == Parser.Parameter(rules, tokens, old(State()), hadDefault)
    {
      var name := tokens[previous].text;
      f, equal := Match(Equal);
      if f != Go {
        return f, Param(name, Missing), equal;
      }
      var d;
      f, d := Default(rules, equal, hadDefault);
      p := Param(name, d);
    }

    /** The default value of a parameter, after its name and, when equal, an `=`. */
    method Default(rules: TokenType -> Rule, equal: bool, hadDefault: bool) returns (f: Flow, d: Expr)
      requires Sane(rules) && Ok(tokens, State())
      modifies this
      ensures (f, d, State()) == DefaultValue(rules, tokens, old(State()), equal, hadDefault)
    {
      if equal {
        var r := ParseExpression(rules, tokens, State());
        f, d := r.0, r.1;
        Restore(r.2);
      } else if hadDefault {
        f := Raise(DefaultArgCentred);
        d := Missing;
      } else {
        f, d := Go, Missing;
      }
    }

    /** A function's or method's parameter list: more than 255 parameters are reported. */
    method ParameterList(rules: TokenType -> Rule) returns (f: Flow, ps: seq<Param>)
      requires Sane(rules) && Ok(tokens, State())
      modifies this
      ensures (f, ps, State()) == Parser.ParameterList(rules, tokens, old(State()))
    {
      f, ps := ParseParameters(rules);
      if f == Go && |ps| > 255 {
        f := Raise(TooManyFunctionArgs(|ps|));
      }
    }

    /**
     * lit_parser_rulecall, after the `(`: the arguments, at most 255 of
     * them, and the `)`.
     */
    method ParseCall(rules: TokenType -> Rule, callee: Expr) returns (f: Flow, e: Expr)
      requires Sane(rules) && Ok(tokens, State()) && previous < current
      modifies this
      ensures (f, e, State()) == RuleCall(rules, tokens, old(State()), callee)
    {
      var args;
      f, args := Arguments(rules);
      if f != Go {
        return f, Missing;
      }
      f, e := CloseCall(callee, args);
    }

    /** The argument loop of lit_parser_rulecall: expressions separated by commas up to the `)`; `...` and a comma end it. */
    method Arguments(rules: TokenType -> Rule) returns (f: Flow, args: seq<Expr>)
      requires Sane(rules) && Ok(tokens, State())
      modifies this
      ensures (f, args, State()) == CallArgs(rules, tokens, old(State()), [])
    {
      ghost var s0 := State();
      args := [];
      f := Go;
      while tokens[current].kind != RightParen
        invariant Ok(tokens, State()) && f == Go
        invariant CallArgs(rules, tokens, State(), args) == CallArgs(rules, tokens, s0, [])
        decreases |tokens| - current
      {
        ghost var before := State();
        var r := ParseExpression(rules, tokens, State());
        Restore(r.2);
        if r.0 != Go {
          return r.0, args;
        }
        assert CallArgs(rules, tokens, before, args)
          == (var (f1, m, s1) := Parser.Match(tokens, r.2, Comma);
              if f1 != Go || !m then (f1, args + [r.1], s1)
              else if r.1 == Variable("...") then (Go, args + [r.1], s1)
              else CallArgs(rules, tokens, s1, args + [r.1]));
        args := args + [r.1];
        var comma;
        f, comma := Match(Comma);
        if f != Go || !comma || r.1 == Variable("...") {
          return;
        }
      }
    }

    /** The end of lit_parser_rulecall: more than 255 arguments are reported, then the `)` is consumed. */
    method CloseCall(callee: Expr, args: seq<Expr>) returns (f: Flow, e: Expr)
      requires Ok(tokens, State())
      modifies this
      ensures (f, e, State()) == CallEnd(tokens, old(State()), callee, args)
    {
      f := Go;
      if |args| > 255 {
        f := Raise(TooManyFunctionArgs(|args|));
        if f != Go {
          return f, Missing;
        }
      }
      f := Consume(RightParen, CloseArguments);
      if f != Go {
        return f, Missing;
      }
      e := Call(callee, args);
    }
  }
}
