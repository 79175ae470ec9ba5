/**
 * The Pratt parser of ccparser.c, for the expression core: token
 * advance with lexical-error reporting, error raising and the panic
 * flag, synchronisation, match/consume, precedence climbing, the unary,
 * binary, logical and compound-assignment rules, variables, literals,
 * groupings, calls and parameter lists.
 *
 * The scanner is represented by the sequence of tokens it produces, up
 * to and including its first EOF token (it goes on returning EOF after
 * that). The parser state holds the index of the current token and of
 * the previous one, had_error, panic_mode and the errors reported so
 * far. A synchronisation that stops before the end leaves the parser
 * through a longjmp to the statement loop; here every parsing function
 * returns a Flow that says whether it returned normally (Go), unwound
 * (Unwind), reached a rule this model does not cover (Outside), or called
 * an infix rule the table does not have (NullRule).
 */
module Parser {
  import Lit
  import opened Scan

  /** A token: its type and the text it covers (the message, for an error token). */
  datatype Tok = Tok(kind: TokenType, text: string)

  /** The errors the parser reports (the LitError codes it raises, and the scanner's messages). */
  datatype ParseError =
    | LexicalError(message: string)
    | ExpectedExpression
    | InvalidAssignmentTarget
    | DefaultArgCentred
    | TooManyFunctionArgs(count: nat)
    | ExpectationUnmet(what: Expected)

  /** What lit_parser_consume was told to expect, for its EXPECTATION_UNMET message. */
  datatype Expected = IsAfterBang | CloseGrouping | CloseArguments | ArgumentName

  /** The state of a LitParser: current and previous token, had_error, panic_mode, and the report. */
  datatype PState = PState(pos: nat, prev: nat, hadError: bool, panicMode: bool, errors: seq<ParseError>)

  /** How a parsing function ended. */
  datatype Flow =
    | Go
    | Unwind
    | Outside(kind: TokenType)
    | NullRule(kind: TokenType)

  /** The value of a literal node: a fixed constant, or the value the scanner attached to the token. */
  datatype Constant = Fixed(bits: Lit.Value) | TokenValue(token: Tok)

  /** The expression nodes the covered rules build (ccast.c). */
  datatype Expr =
    | Missing
    | Literal(value: Constant)
    | Variable(name: string)
    | Assign(target: Expr, rhs: Expr)
    | UnaryOp(operand: Expr, op: TokenType)
    | BinaryOp(left: Expr, right: Expr, op: TokenType, ignoreLeft: bool)
    | Call(callee: Expr, args: seq<Expr>)

  /** A parameter and its default value (Missing when it has none). */
  datatype Param = Param(name: string, default: Expr)

  // ---------------------------------------------------------------------
  // Precedences (LitPrecedence in lit.h)
  // ---------------------------------------------------------------------

  const PREC_NONE: nat := 0
  const PREC_ASSIGNMENT: nat := 1
  const PREC_OR: nat := 2
  const PREC_AND: nat := 3
  const PREC_BOR: nat := 4
  const PREC_BAND: nat := 5
  const PREC_SHIFT: nat := 6
  const PREC_EQUALITY: nat := 7
  const PREC_COMPARISON: nat := 8
  const PREC_COMPOUND: nat := 9
  const PREC_TERM: nat := 10
  const PREC_FACTOR: nat := 11
  const PREC_IS: nat := 12
  const PREC_RANGE: nat := 13
  const PREC_UNARY: nat := 14
  const PREC_NULL: nat := 15
  const PREC_CALL: nat := 16
  const PREC_PRIMARY: nat := 17

  /** The bits of the number 1.0, the right operand of `++` and `--`. */
  const ONE: Lit.Value := 0x3FF0_0000_0000_0000

  // ---------------------------------------------------------------------
  // The rule table
  // ---------------------------------------------------------------------

  datatype PrefixRule =
    | NoPrefix | GroupingOrLambda | UnaryRule | NumberRule | LiteralRule | StringRule
    | InterpolationRule | VarRule | NewRule | ArrayRule | ObjectRule | ThisRule | SuperRule
    | ReferenceRule | FunctionRule | NothingRule

  datatype InfixRule =
    | NoInfix | CallRule | BinaryRule | AndRule | OrRule | NullFilterRule | CompoundRule
    | DotRule | RangeRule | TernaryRule | SubscriptRule

  /** A LitParseRule. */
  datatype Rule = Rule(prefix: PrefixRule, infix: InfixRule, precedence: nat)

  /** The compound assignment operators. */
  predicate IsCompound(k: TokenType)
  {
    k.PlusEqual? || k.MinusEqual? || k.StarEqual? || k.SlashEqual? || k.SharpEqual? || k.PercentEqual?
    || k.CaretEqual? || k.BarEqual? || k.AmpersandEqual? || k.PlusPlus? || k.MinusMinus?
  }

  /**
   * The table lit_parser_setuprules fills in; every other token has no
   * rule and precedence NONE.
   */
  function SetupRules(k: TokenType): (r: Rule)
    ensures r.infix == CompoundRule <==> IsCompound(k)
    ensures k.Eof? ==> r.prefix == NoPrefix && r.infix == NoInfix && r.precedence == PREC_NONE
  {
    match k
    case LeftParen => Rule(GroupingOrLambda, CallRule, PREC_CALL)
    case Plus => Rule(NoPrefix, BinaryRule, PREC_TERM)
    case Minus => Rule(UnaryRule, BinaryRule, PREC_TERM)
    case Bang => Rule(UnaryRule, BinaryRule, PREC_TERM)
    case Star => Rule(NoPrefix, BinaryRule, PREC_FACTOR)
    case StarStar => Rule(NoPrefix, BinaryRule, PREC_FACTOR)
    case Slash => Rule(NoPrefix, BinaryRule, PREC_FACTOR)
    case Sharp => Rule(NoPrefix, BinaryRule, PREC_FACTOR)
    case Bar => Rule(NoPrefix, BinaryRule, PREC_BOR)
    case Ampersand => Rule(NoPrefix, BinaryRule, PREC_BAND)
    case Tilde => Rule(UnaryRule, NoInfix, PREC_UNARY)
    case Caret => Rule(NoPrefix, BinaryRule, PREC_BOR)
    case LessLess => Rule(NoPrefix, BinaryRule, PREC_SHIFT)
    case GreaterGreater => Rule(NoPrefix, BinaryRule, PREC_SHIFT)
    case Percent => Rule(NoPrefix, BinaryRule, PREC_FACTOR)
    case Is => Rule(NoPrefix, BinaryRule, PREC_IS)
    case Number => Rule(NumberRule, NoInfix, PREC_NONE)
    case True => Rule(LiteralRule, NoInfix, PREC_NONE)
    case False => Rule(LiteralRule, NoInfix, PREC_NONE)
    case Null => Rule(LiteralRule, NoInfix, PREC_NONE)
    case BangEqual => Rule(NoPrefix, BinaryRule, PREC_EQUALITY)
    case EqualEqual => Rule(NoPrefix, BinaryRule, PREC_EQUALITY)
    case Greater => Rule(NoPrefix, BinaryRule, PREC_COMPARISON)
    case GreaterEqual => Rule(NoPrefix, BinaryRule, PREC_COMPARISON)
    case Less => Rule(NoPrefix, BinaryRule, PREC_COMPARISON)
    case LessEqual => Rule(NoPrefix, BinaryRule, PREC_COMPARISON)
    case String => Rule(StringRule, NoInfix, PREC_NONE)
    case Interpolation => Rule(InterpolationRule, NoInfix, PREC_NONE)
    case Identifier => Rule(VarRule, NoInfix, PREC_NONE)
    case New => Rule(NewRule, NoInfix, PREC_NONE)
    case PlusEqual => Rule(NoPrefix, CompoundRule, PREC_COMPOUND)
    case MinusEqual => Rule(NoPrefix, CompoundRule, PREC_COMPOUND)
    case StarEqual => Rule(NoPrefix, CompoundRule, PREC_COMPOUND)
    case SlashEqual => Rule(NoPrefix, CompoundRule, PREC_COMPOUND)
    case SharpEqual => Rule(NoPrefix, CompoundRule, PREC_COMPOUND)
    case PercentEqual => Rule(NoPrefix, CompoundRule, PREC_COMPOUND)
    case CaretEqual => Rule(NoPrefix, CompoundRule, PREC_COMPOUND)
    case BarEqual => Rule(NoPrefix, CompoundRule, PREC_COMPOUND)
    case AmpersandEqual => Rule(NoPrefix, CompoundRule, PREC_COMPOUND)
    case PlusPlus => Rule(NoPrefix, CompoundRule, PREC_COMPOUND)
    case MinusMinus => Rule(NoPrefix, CompoundRule, PREC_COMPOUND)
    case AmpersandAmpersand => Rule(NoPrefix, AndRule, PREC_AND)
    case BarBar => Rule(NoPrefix, OrRule, PREC_AND)
    case QuestionQuestion => Rule(NoPrefix, NullFilterRule, PREC_NULL)
    case Dot => Rule(NoPrefix, DotRule, PREC_CALL)
    case SmallArrow => Rule(NoPrefix, DotRule, PREC_CALL)
    case DotDot => Rule(NoPrefix, RangeRule, PREC_RANGE)
    case DotDotDot => Rule(VarRule, NoInfix, PREC_ASSIGNMENT)
    case LeftBracket => Rule(ArrayRule, SubscriptRule, PREC_NONE)
    case LeftBrace => Rule(ObjectRule, NoInfix, PREC_NONE)
    case This => Rule(ThisRule, NoInfix, PREC_NONE)
    case Super => Rule(SuperRule, NoInfix, PREC_NONE)
    case Question => Rule(NoPrefix, TernaryRule, PREC_EQUALITY)
    case Ref => Rule(ReferenceRule, NoInfix, PREC_NONE)
    case Function => Rule(FunctionRule, NoInfix, PREC_NONE)
    case Semicolon => Rule(NothingRule, NoInfix, PREC_NONE)
    case _ => Rule(NoPrefix, NoInfix, PREC_NONE)
  }

  /**
   * The table with its findings corrected: `...` and `~` get precedence
   * NONE (they have no infix rule to run) and `||` precedence OR.
   */
  function CorrectedRules(k: TokenType): (r: Rule)
    ensures r.infix == CompoundRule <==> IsCompound(k)
    ensures k != DotDotDot && k != Tilde && k != BarBar ==> r == SetupRules(k)
  {
    if k == DotDotDot then Rule(VarRule, NoInfix, PREC_NONE)
    else if k == Tilde then Rule(UnaryRule, NoInfix, PREC_NONE)
    else if k == BarBar then Rule(NoPrefix, OrRule, PREC_OR)
    else SetupRules(k)
  }

  /**
   * lit_parser_getrule: the rule of token kind k in a table, either
   * SetupRules or CorrectedRules.
   */
  function RuleOf(rules: TokenType -> Rule, k: TokenType): Rule
  {
    rules(k)
  }

  /** The precedence one above prec, at which a left-associative operator parses its right operand. */
  function Above(prec: nat): nat
  {
    prec + 1
  }

  /** What the parsing functions rely on in a rule table: the EOF has no rule. */
  ghost predicate Sane(rules: TokenType -> Rule)
  {
    RuleOf(rules, Eof) == Rule(NoPrefix, NoInfix, PREC_NONE)
  }

  /** lit_parser_convertcompoundop: the operator a compound assignment applies. */
  function ConvertCompoundOp(op: TokenType): (r: TokenType)
    requires IsCompound(op)
  {
    match op
    case PlusEqual => Plus
    case MinusEqual => Minus
    case StarEqual => Star
    case SlashEqual => Slash
    case SharpEqual => Sharp
    case PercentEqual => Percent
    case CaretEqual => Caret
    case BarEqual => Bar
    case AmpersandEqual => Ampersand
    case PlusPlus => Plus
    case MinusMinus => Minus
  }

  /** The tokens lit_parser_sync stops before. */
  predicate SyncPoint(k: TokenType)
  {
    k.Class? || k.Function? || k.Export? || k.Var? || k.Const? || k.For? || k.Static? || k.If?
    || k.While? || k.Return?
  }

  // ---------------------------------------------------------------------
  // The token stream
  // ---------------------------------------------------------------------

  /** What the scanner produces: tokens up to and including the first EOF. */
  ghost predicate Stream(ts: seq<Tok>)
  {
    |ts| > 0 && ts[|ts| - 1].kind == Eof && forall i :: 0 <= i < |ts| - 1 ==> ts[i].kind != Eof
  }

  /** A parser state over the stream: the previous token never lies after the current one. */
  ghost predicate Ok(ts: seq<Tok>, st: PState)
  {
    Stream(ts) && st.prev <= st.pos < |ts|
  }

  /** After an advance: the previous token lies before the current one, or it is the EOF. */
  ghost predicate Stepped(ts: seq<Tok>, st: PState)
    requires st.prev < |ts|
  {
    st.prev < st.pos || ts[st.prev].kind == Eof
  }

  /** The index of the token the scanner returns after the one at p. */
  function Next(ts: seq<Tok>, p: nat): nat
  {
    if p + 1 < |ts| then p + 1 else p
  }

  // ---------------------------------------------------------------------
  // Advance, raise, sync, match, consume
  // ---------------------------------------------------------------------

  /**
   * The loop of lit_parser_advance from the token at st.pos on: an error
   * token is reported and the next one scanned.
   */
  function ScanFrom(ts: seq<Tok>, st: PState): (r: (Flow, PState))
    requires Ok(ts, st)
    ensures Ok(ts, r.1) && r.1.pos >= st.pos && r.1.prev >= st.prev && st.errors <= r.1.errors
    ensures (st.hadError ==> r.1.hadError) && (!st.panicMode ==> !r.1.panicMode)
    ensures r.0 == Go ==> ts[r.1.pos].kind != Error
    ensures r.0 == Go && Stepped(ts, st) ==> Stepped(ts, r.1)
    ensures r.0.Go? || r.0.Unwind?
    decreases |ts| - st.pos, if ts[st.pos].kind == Error then 5 else 0
  {
    if ts[st.pos].kind != Error then (Go, st)
    else
      var (f, s) := Raise(ts, st, LexicalError(ts[st.pos].text));
      if f != Go then (f, s)
      else ScanFrom(ts, s.(pos := Next(ts, s.pos)))
  }

  /** lit_parser_advance: the current token becomes the previous one, and the next is scanned. */
  function Advance(ts: seq<Tok>, st: PState): (r: (Flow, PState))
    requires Ok(ts, st)
    ensures Ok(ts, r.1) && r.1.pos >= Next(ts, st.pos) && r.1.prev >= st.pos && st.errors <= r.1.errors
    ensures (st.hadError ==> r.1.hadError) && (!st.panicMode ==> !r.1.panicMode)
    ensures r.0 == Go ==> ts[r.1.pos].kind != Error && Stepped(ts, r.1)
    ensures r.0.Go? || r.0.Unwind?
    decreases |ts| - st.pos, 1
  {
    ScanFrom(ts, st.(prev := st.pos, pos := Next(ts, st.pos)))
  }

  /**
   * lit_parser_raisestring: nothing while panic_mode is set; otherwise
   * the error is reported, had_error set, and the parser synchronised.
   */
  function Raise(ts: seq<Tok>, st: PState, e: ParseError): (r: (Flow, PState))
    requires Ok(ts, st)
    ensures Ok(ts, r.1) && r.1.pos >= st.pos && r.1.prev >= st.prev && st.errors <= r.1.errors
    ensures (st.hadError ==> r.1.hadError) && (!st.panicMode ==> !r.1.panicMode)
    ensures st.panicMode ==> r == (Go, st)
    ensures !st.panicMode ==> r.1.hadError && st.errors + [e] <= r.1.errors && !r.1.panicMode
    ensures r.0 == Go && Stepped(ts, st) ==> Stepped(ts, r.1)
    ensures r.0.Go? || r.0.Unwind?
    decreases |ts| - st.pos, 4
  {
    if st.panicMode then (Go, st)
    else Sync(ts, st.(errors := st.errors + [e], hadError := true))
  }

  /** lit_parser_sync: panic_mode is cleared and tokens skipped up to a statement boundary. */
  function Sync(ts: seq<Tok>, st: PState): (r: (Flow, PState))
    requires Ok(ts, st)
    ensures Ok(ts, r.1) && r.1.pos >= st.pos && r.1.prev >= st.prev && st.errors <= r.1.errors
    ensures (st.hadError ==> r.1.hadError) && !r.1.panicMode
    ensures r.0 == Go ==> r.1.pos == |ts| - 1
    ensures r.0.Go? || r.0.Unwind?
    decreases |ts| - st.pos, 3
  {
    SyncLoop(ts, st.(panicMode := false))
  }

  /** The loop of lit_parser_sync: stop at the EOF, unwind at a statement boundary. */
  function SyncLoop(ts: seq<Tok>, st: PState): (r: (Flow, PState))
    requires Ok(ts, st)
    ensures Ok(ts, r.1) && r.1.pos >= st.pos && r.1.prev >= st.prev && st.errors <= r.1.errors
    ensures (st.hadError ==> r.1.hadError) && (!st.panicMode ==> !r.1.panicMode)
    ensures r.0 == Go ==> r.1.pos == |ts| - 1
    ensures r.0.Go? || r.0.Unwind?
    decreases |ts| - st.pos, 2
  {
    if ts[st.pos].kind == Eof then (Go, st)
    else if ts[st.prev].kind == NewLine || SyncPoint(ts[st.pos].kind) then (Unwind, st)
    else
      var (f, s) := Advance(ts, st);
      if f != Go then (f, s) else SyncLoop(ts, s)
  }

  /** lit_parser_match: the current token is consumed when it has the given type. */
  function Match(ts: seq<Tok>, st: PState, k: TokenType): (r: (Flow, bool, PState))
    requires Ok(ts, st)
    ensures Ok(ts, r.2) && r.2.pos >= st.pos && r.2.prev >= st.prev && st.errors <= r.2.errors
    ensures r.1 <==> ts[st.pos].kind == k
    ensures r.1 ==> r.2.pos >= Next(ts, st.pos) && r.2.prev >= st.pos
    ensures r.1 && k != Eof ==> r.2.pos > st.pos
    ensures r.1 && r.0 == Go ==> Stepped(ts, r.2)
    ensures !r.1 ==> r.0 == Go && r.2 == st
    ensures r.0.Go? || r.0.Unwind?
    decreases |ts| - st.pos, 2
  {
    if ts[st.pos].kind == k then
      var (f, s) := Advance(ts, st);
      (f, true, s)
    else (Go, false, st)
  }

  /**
   * lit_parser_matchnewline (and lit_parser_ignorenewlines, which only
   * calls it): every NEW_LINE token is consumed.
   */
  function MatchNewlines(ts: seq<Tok>, st: PState): (r: (Flow, PState))
    requires Ok(ts, st)
    ensures Ok(ts, r.1) && r.1.pos >= st.pos && r.1.prev >= st.prev && st.errors <= r.1.errors
    ensures r.0 == Go ==> ts[r.1.pos].kind != NewLine
    ensures r.0 == Go && Stepped(ts, st) ==> Stepped(ts, r.1)
    ensures r.0.Go? || r.0.Unwind?
    decreases |ts| - st.pos, 3
  {
    var (f, m, s) := Match(ts, st, NewLine);
    if f != Go || !m then (f, s) else MatchNewlines(ts, s)
  }

  /** lit_parser_consume: the current token must have the given type. */
  function Consume(ts: seq<Tok>, st: PState, k: TokenType, what: Expected): (r: (Flow, PState))
    requires Ok(ts, st)
    ensures Ok(ts, r.1) && r.1.pos >= st.pos && r.1.prev >= st.prev && st.errors <= r.1.errors
    ensures ts[st.pos].kind == k ==> r == Advance(ts, st)
    ensures ts[st.pos].kind != k ==> r == Raise(ts, st, ExpectationUnmet(what))
    ensures r.0.Go? || r.0.Unwind?
    decreases |ts| - st.pos, 5
  {
    if ts[st.pos].kind == k then Advance(ts, st)
    else Raise(ts, st, ExpectationUnmet(what))
  }

  // ---------------------------------------------------------------------
  // Expressions
  // ---------------------------------------------------------------------

  /** lit_parser_parseexpression: newlines are skipped, then an expression at ASSIGNMENT. */
  function ParseExpression(rules: TokenType -> Rule, ts: seq<Tok>, st: PState): (r: (Flow, Expr, PState))
    requires Sane(rules) && Ok(ts, st)
    ensures Ok(ts, r.2) && (r.0 == Go ==> r.2.pos >= st.pos)
    decreases |ts| - st.pos, 30
  {
    var (f, s) := MatchNewlines(ts, st);
    if f != Go then (f, Missing, s) else ParsePrecedence(rules, ts, s, PREC_ASSIGNMENT, true)
  }

  /**
   * lit_parser_parseprecedence: the prefix rule of the token just
   * advanced over, then the infix rules of every following token whose
   * precedence is at least prec. An `=` after an expression parsed where
   * assignment was allowed is an invalid assignment target.
   */
  function ParsePrecedence(rules: TokenType -> Rule, ts: seq<Tok>, st: PState, prec: nat, err: bool): (r: (Flow, Expr, PState))
    requires Sane(rules) && Ok(ts, st) && prec >= PREC_ASSIGNMENT
    ensures Ok(ts, r.2) && (r.0 == Go ==> r.2.pos >= st.pos)
    decreases |ts| - st.pos, 29
  {
    var (f, s) := Advance(ts, st);
    if f != Go then (f, Missing, s)
    else
      var rule := RuleOf(rules, ts[s.prev].kind);
      if rule.prefix == NoPrefix then
        var (f1, s1) := Raise(ts, s, ExpectedExpression);
        (f1, Missing, s1)
      else
        var canAssign := prec <= PREC_ASSIGNMENT;
        var (f2, e, s2) := Prefix(rules, ts, s, rule.prefix, canAssign);
        if f2 != Go then (f2, Missing, s2)
        else
          var (f3, s3) := MatchNewlines(ts, s2);
          if f3 != Go then (f3, Missing, s3)
          else
            var (f4, e4, s4) := InfixLoop(rules, ts, s3, prec, canAssign, e);
            if f4 != Go || !(err && canAssign) then (f4, e4, s4)
            else
              var (f5, m, s5) := Match(ts, s4, Equal);
              if f5 != Go || !m then (f5, e4, s5)
              else
                var (f6, s6) := Raise(ts, s5, InvalidAssignmentTarget);
                (f6, e4, s6)
  }

  /** The while loop of lit_parser_parseprecedence, with `left` the expression so far. */
  function InfixLoop(rules: TokenType -> Rule, ts: seq<Tok>, st: PState, prec: nat, canAssign: bool, left: Expr): (r: (Flow, Expr, PState))
    requires Sane(rules) && Ok(ts, st) && prec >= PREC_ASSIGNMENT
    ensures Ok(ts, r.2) && (r.0 == Go ==> r.2.pos >= st.pos)
    ensures r.0 == Go ==> RuleOf(rules, ts[r.2.pos].kind).precedence < prec
    decreases |ts| - st.pos, 20
  {
    if RuleOf(rules, ts[st.pos].kind).precedence < prec then (Go, left, st)
    else
      var (f, s) := Advance(ts, st);
      if f != Go then (f, Missing, s)
      else
        var rule := RuleOf(rules, ts[s.prev].kind).infix;
        if rule == NoInfix then (NullRule(ts[s.prev].kind), Missing, s)
        else
          var (f1, e, s1) := Infix(rules, ts, s, rule, left, canAssign);
          if f1 != Go then (f1, Missing, s1)
          else InfixLoop(rules, ts, s1, prec, canAssign, e)
  }

  /** The prefix rule called on the token just advanced over. */
  function Prefix(rules: TokenType -> Rule, ts: seq<Tok>, st: PState, rule: PrefixRule, canAssign: bool): (r: (Flow, Expr, PState))
    requires Sane(rules) && Ok(ts, st) && st.prev < st.pos
    ensures Ok(ts, r.2) && (r.0 == Go ==> r.2.pos > st.prev)
    decreases |ts| - st.prev, 28
  {
    match rule
    case NumberRule => (Go, Literal(TokenValue(ts[st.prev])), st)
    case LiteralRule => (Go, Literal(Fixed(LiteralValue(ts[st.prev].kind))), st)
    case StringRule => RuleString(ts, st)
    case VarRule => RuleVar(rules, ts, st, canAssign)
    case UnaryRule => RuleUnary(rules, ts, st)
    case GroupingOrLambda => RuleGrouping(rules, ts, st)
    case _ => (Outside(ts[st.prev].kind), Missing, st)
  }

  /** lit_parser_ruleliteral: the constant of `true`, `false` and `null`. */
  function LiteralValue(k: TokenType): (r: Lit.Value)
  {
    match k
    case True => Lit.TRUE_VALUE
    case False => Lit.FALSE_VALUE
    case _ => Lit.NULL_VALUE
  }

  /** lit_parser_rulestring: the token's value; a `[` after it starts a subscript. */
  function RuleString(ts: seq<Tok>, st: PState): (r: (Flow, Expr, PState))
    requires Ok(ts, st) && st.prev < st.pos
    ensures Ok(ts, r.2) && (r.0 == Go ==> r.2.pos > st.prev)
    decreases |ts| - st.prev, 25
  {
    var e := Literal(TokenValue(ts[st.prev]));
    var (f, m, s) := Match(ts, st, LeftBracket);
    if f != Go then (f, Missing, s)
    else if m then (Outside(LeftBracket), Missing, s)
    else (Go, e, s)
  }

  /**
   * lit_parser_rulevarexpr: a variable; `[` starts a subscript, and `=`
   * where assignment is allowed an assignment to it.
   */
  function RuleVar(rules: TokenType -> Rule, ts: seq<Tok>, st: PState, canAssign: bool): (r: (Flow, Expr, PState))
    requires Sane(rules) && Ok(ts, st) && st.prev < st.pos
    ensures Ok(ts, r.2) && (r.0 == Go ==> r.2.pos > st.prev)
    decreases |ts| - st.prev, 27
  {
    var v := Variable(ts[st.prev].text);
    var (f, m, s) := Match(ts, st, LeftBracket);
    if f != Go then (f, Missing, s)
    else if m then (Outside(LeftBracket), Missing, s)
    else if !canAssign then (Go, v, s)
    else
      var (f1, m1, s1) := Match(ts, s, Equal);
      if f1 != Go then (f1, Missing, s1)
      else if !m1 then (Go, v, s1)
      else
        var (f2, e, s2) := ParseExpression(rules, ts, s1);
        if f2 != Go then (f2, Missing, s2) else (Go, Assign(v, e), s2)
  }

  /** lit_parser_ruleunary: the operand is parsed at UNARY. */
  function RuleUnary(rules: TokenType -> Rule, ts: seq<Tok>, st: PState): (r: (Flow, Expr, PState))
    requires Sane(rules) && Ok(ts, st) && st.prev < st.pos
    ensures Ok(ts, r.2) && (r.0 == Go ==> r.2.pos > st.prev)
    decreases |ts| - st.prev, 25
  {
    var op := ts[st.prev].kind;
    var (f, e, s) := ParsePrecedence(rules, ts, st, PREC_UNARY, true);
    if f != Go then (f, Missing, s) else (Go, UnaryOp(e, op), s)
  }

  /**
   * lit_parser_rulegroupingorlambda. `()`, `(a, ...`, `(...` followed by
   * `,` or `)` `=>`, and `(a) =>` start lambdas, which this model does not
   * cover; otherwise a grouping. When the lookahead consumed an identifier,
   * the scanner is rewound to the `(` and the parser advances again.
   */
  function RuleGrouping(rules: TokenType -> Rule, ts: seq<Tok>, st: PState): (r: (Flow, Expr, PState))
    requires Sane(rules) && Ok(ts, st) && st.prev < st.pos
    ensures Ok(ts, r.2) && (r.0 == Go ==> r.2.pos > st.prev)
    decreases |ts| - st.prev, 26
  {
    var (f, m, s) := Match(ts, st, RightParen);
    if f != Go then (f, Missing, s)
    else if m then (Outside(LeftParen), Missing, s)
    else
      var (f1, m1, s1) := Match(ts, s, Identifier);
      var (f2, m2, s2) := if f1 == Go && !m1 then Match(ts, s1, DotDotDot) else (f1, m1, s1);
      if f2 != Go then (f2, Missing, s2)
      else if !m2 then GroupingBody(rules, ts, s2)
      else
        var (f3, m3, s3) := Match(ts, s2, Comma);
        if f3 != Go then (f3, Missing, s3)
        else if m3 then (Outside(LeftParen), Missing, s3)
        else
          var (f4, m4, s4) := Match(ts, s3, RightParen);
          var (f5, m5, s5) := if f4 == Go && m4 then Match(ts, s4, Arrow) else (f4, false, s4);
          if f5 != Go then (f5, Missing, s5)
          else if m5 then (Outside(LeftParen), Missing, s5)
          else
            var (f6, s6) := Advance(ts, s5.(pos := st.prev, prev := st.prev));
            if f6 != Go then (f6, Missing, s6) else GroupingBody(rules, ts, s6)
  }

  /** The grouping itself: an expression and its `)`. */
  function GroupingBody(rules: TokenType -> Rule, ts: seq<Tok>, st: PState): (r: (Flow, Expr, PState))
    requires Sane(rules) && Ok(ts, st)
    ensures Ok(ts, r.2) && (r.0 == Go ==> r.2.pos >= st.pos)
    decreases |ts| - st.pos, 31
  {
    var (f, e, s) := ParseExpression(rules, ts, st);
    if f != Go then (f, Missing, s)
    else
      var (f1, s1) := Consume(ts, s, RightParen, CloseGrouping);
      if f1 != Go then (f1, Missing, s1) else (Go, e, s1)
  }

  /** The infix rule called on the token just advanced over, with `left` the expression before it. */
  function Infix(rules: TokenType -> Rule, ts: seq<Tok>, st: PState, rule: InfixRule, left: Expr, canAssign: bool): (r: (Flow, Expr, PState))
    requires Sane(rules) && Ok(ts, st) && st.prev < st.pos
    requires rule == RuleOf(rules, ts[st.prev].kind).infix
    ensures Ok(ts, r.2) && (r.0 == Go ==> r.2.pos > st.prev)
    decreases |ts| - st.prev, 19
  {
    match rule
    case BinaryRule => RuleBinary(rules, ts, st, left)
    case AndRule => RuleLogical(rules, ts, st, left, PREC_AND)
    case OrRule => RuleLogical(rules, ts, st, left, PREC_OR)
    case NullFilterRule => RuleLogical(rules, ts, st, left, PREC_NULL)
    case CompoundRule =>
      // lit_parser_convertcompoundop has no case for other tokens; both tables give this rule to compound tokens only.
      if IsCompound(ts[st.prev].kind) then RuleCompound(rules, ts, st, left) else (Outside(ts[st.prev].kind), Missing, st)
    case CallRule => RuleCall(rules, ts, st, left)
    case _ => (Outside(ts[st.prev].kind), Missing, st)
  }

  /**
   * lit_parser_rulebinary: the right operand is parsed one level above
   * the operator's precedence; `! is` is parsed as `is` and negated.
   */
  function RuleBinary(rules: TokenType -> Rule, ts: seq<Tok>, st: PState, left: Expr): (r: (Flow, Expr, PState))
    requires Sane(rules) && Ok(ts, st) && st.prev < st.pos
    ensures Ok(ts, r.2) && (r.0 == Go ==> r.2.pos > st.prev)
    decreases |ts| - st.prev, 18
  {
    if ts[st.prev].kind == Bang then
      var (f, s) := Consume(ts, st, Is, IsAfterBang);
      if f != Go then (f, Missing, s) else BinaryRight(rules, ts, s, left, true)
    else BinaryRight(rules, ts, st, left, false)
  }

  /** The right operand of lit_parser_rulebinary, once the operator is the token just advanced over. */
  function BinaryRight(rules: TokenType -> Rule, ts: seq<Tok>, st: PState, left: Expr, invert: bool): (r: (Flow, Expr, PState))
    requires Sane(rules) && Ok(ts, st)
    ensures Ok(ts, r.2) && (r.0 == Go ==> r.2.pos >= st.pos)
    decreases |ts| - st.pos, 30
  {
    var op := ts[st.prev].kind;
    var (f, right, s) := ParsePrecedence(rules, ts, st, Above(RuleOf(rules, op).precedence), true);
    if f != Go then (f, Missing, s)
    else
      var e := BinaryOp(left, right, op, false);
      (Go, if invert then UnaryOp(e, Bang) else e, s)
  }

  /** lit_parser_ruleand, lit_parser_ruleor and lit_parser_rulenull_filter: the right operand at `level`. */
  function RuleLogical(rules: TokenType -> Rule, ts: seq<Tok>, st: PState, left: Expr, level: nat): (r: (Flow, Expr, PState))
    requires Sane(rules) && Ok(ts, st) && st.prev < st.pos && level >= PREC_ASSIGNMENT
    ensures Ok(ts, r.2) && (r.0 == Go ==> r.2.pos > st.prev)
    decreases |ts| - st.prev, 18
  {
    var op := ts[st.prev].kind;
    var (f, right, s) := ParsePrecedence(rules, ts, st, level, true);
    if f != Go then (f, Missing, s) else (Go, BinaryOp(left, right, op, false), s)
  }

  /**
   * lit_parser_rulecompound: `x op= e` becomes an assignment of
   * `x op e` to x, with the left operand shared; `++` and `--` use 1.
   */
  function RuleCompound(rules: TokenType -> Rule, ts: seq<Tok>, st: PState, left: Expr): (r: (Flow, Expr, PState))
    requires Sane(rules) && Ok(ts, st) && st.prev < st.pos && IsCompound(ts[st.prev].kind)
    ensures Ok(ts, r.2) && (r.0 == Go ==> r.2.pos > st.prev)
    decreases |ts| - st.prev, 18
  {
    var op := ts[st.prev].kind;
    var (f, right, s) :=
      if op == PlusPlus || op == MinusMinus then (Go, Literal(Fixed(ONE)), st)
      else ParsePrecedence(rules, ts, st, Above(RuleOf(rules, op).precedence), true);
    if f != Go then (f, Missing, s)
    else (Go, Assign(left, BinaryOp(left, right, ConvertCompoundOp(op), true)), s)
  }

  /**
   * lit_parser_rulecall: the arguments, at most 255 of them, and the
   * closing `)`.
   */
  function RuleCall(rules: TokenType -> Rule, ts: seq<Tok>, st: PState, callee: Expr): (r: (Flow, Expr, PState))
    requires Sane(rules) && Ok(ts, st) && st.prev < st.pos
    ensures Ok(ts, r.2) && (r.0 == Go ==> r.2.pos > st.prev)
    decreases |ts| - st.prev, 18
  {
    var (f, args, s) := CallArgs(rules, ts, st, []);
    if f != Go then (f, Missing, s) else CallEnd(ts, s, callee, args)
  }

  /** The end of lit_parser_rulecall: more than 255 arguments are reported, then the `)` is consumed. */
  function CallEnd(ts: seq<Tok>, st: PState, callee: Expr, args: seq<Expr>): (r: (Flow, Expr, PState))
    requires Ok(ts, st)
    ensures Ok(ts, r.2) && (r.0 == Go ==> r.2.pos >= st.pos)
  {
    var (f1, s1) := if |args| > 255 then Raise(ts, st, TooManyFunctionArgs(|args|)) else (Go, st);
    if f1 != Go then (f1, Missing, s1)
    else
      var (f2, s2) := Consume(ts, s1, RightParen, CloseArguments);
      if f2 != Go then (f2, Missing, s2) else (Go, Call(callee, args), s2)
  }

  /**
   * The argument loop of lit_parser_rulecall: expressions separated by
   * commas, up to the `)`; a `...` argument followed by a comma ends it.
   */
  function CallArgs(rules: TokenType -> Rule, ts: seq<Tok>, st: PState, args: seq<Expr>): (r: (Flow, seq<Expr>, PState))
    requires Sane(rules) && Ok(ts, st)
    ensures Ok(ts, r.2) && (r.0 == Go ==> r.2.pos >= st.pos)
    decreases |ts| - st.pos, 31
  {
    if ts[st.pos].kind == RightParen then (Go, args, st)
    else
      var (f, e, s) := ParseExpression(rules, ts, st);
      if f != Go then (f, args, s)
      else
        var (f1, m, s1) := Match(ts, s, Comma);
        if f1 != Go || !m then (f1, args + [e], s1)
        else if e == Variable("...") then (Go, args + [e], s1)
        else CallArgs(rules, ts, s1, args + [e])
  }

  // ---------------------------------------------------------------------
  // Parameters
  // ---------------------------------------------------------------------

  /**
   * lit_parser_parseparameters from the parameter at st.pos, with ps the
   * parameters so far and hadDefault whether one of them had a default.
   */
  function ParseParameters(rules: TokenType -> Rule, ts: seq<Tok>, st: PState, ps: seq<Param>, hadDefault: bool): (r: (Flow, seq<Param>, PState))
    requires Sane(rules) && Ok(ts, st)
    ensures Ok(ts, r.2) && (r.0 == Go ==> r.2.pos >= st.pos)
    decreases |ts| - st.pos, 35
  {
    if ts[st.pos].kind == RightParen then (Go, ps, st)
    else
      var (f, m, s) := Match(ts, st, DotDotDot);
      if f != Go then (f, ps, s)
      else if m then (Go, ps + [Param("...", Missing)], s)
      else
        var (f1, s1) := Consume(ts, s, Identifier, ArgumentName);
        if f1 != Go then (f1, ps, s1)
        else
          ParameterTail(rules, ts, s1, ps, hadDefault)
  }

  /** The rest of a parameter list after a parameter's name: its default value, then the parameters after it. */
  function ParameterTail(rules: TokenType -> Rule, ts: seq<Tok>, st: PState, ps: seq<Param>, hadDefault: bool): (r: (Flow, seq<Param>, PState))
    requires Sane(rules) && Ok(ts, st)
    ensures Ok(ts, r.2) && (r.0 == Go ==> r.2.pos >= st.pos)
    decreases |ts| - st.pos, 34
  {
    var (f, p, m, s) := Parameter(rules, ts, st, hadDefault);
    if f != Go then (f, ps, s) else AfterParameter(rules, ts, s, ps + [p], hadDefault || m)
  }

  /** After a parameter: a `,` and the parameters after it, or the end of the list. */
  function AfterParameter(rules: TokenType -> Rule, ts: seq<Tok>, st: PState, ps: seq<Param>, hadDefault: bool): (r: (Flow, seq<Param>, PState))
    requires Sane(rules) && Ok(ts, st)
    ensures Ok(ts, r.2) && (r.0 == Go ==> r.2.pos >= st.pos)
    decreases |ts| - st.pos, 33
  {
    var (f, m, s) := Match(ts, st, Comma);
    if f != Go || !m then (f, ps, s) else ParseParameters(rules, ts, s, ps, hadDefault)
  }

  /**
   * A parameter whose name is the token just consumed: its default value,
   * after an `=` (the bool result says whether there was one).
   */
  function Parameter(rules: TokenType -> Rule, ts: seq<Tok>, st: PState, hadDefault: bool): (r: (Flow, Param, bool, PState))
    requires Sane(rules) && Ok(ts, st)
    ensures Ok(ts, r.3) && (r.0 == Go ==> r.3.pos >= st.pos)
    decreases |ts| - st.pos, 32
  {
    var (f, m, s) := Match(ts, st, Equal);
    if f != Go then (f, Param(ts[st.prev].text, Missing), m, s)
    else
      var (f1, d, s1) := DefaultValue(rules, ts, s, m, hadDefault);
      (f1, Param(ts[st.prev].text, d), m, s1)
  }

  /**
   * The default value of a parameter, after its name and, when `equal`,
   * an `=`; none after a parameter that had one is DEFAULT_ARG_CENTRED.
   */
  function DefaultValue(rules: TokenType -> Rule, ts: seq<Tok>, st: PState, equal: bool, hadDefault: bool): (r: (Flow, Expr, PState))
    requires Sane(rules) && Ok(ts, st)
    ensures Ok(ts, r.2) && (r.0 == Go ==> r.2.pos >= st.pos)
    decreases |ts| - st.pos, 31
  {
    if equal then ParseExpression(rules, ts, st)
    else if hadDefault then
      var (f, s) := Raise(ts, st, DefaultArgCentred);
      (f, Missing, s)
    else (Go, Missing, st)
  }

  /**
   * A function's or method's parameter list: more than 255 parameters
   * are reported.
   */
  function ParameterList(rules: TokenType -> Rule, ts: seq<Tok>, st: PState): (r: (Flow, seq<Param>, PState))
    requires Sane(rules) && Ok(ts, st)
    ensures Ok(ts, r.2)
    decreases |ts| - st.pos, 36
  {
    var (f, ps, s) := ParseParameters(rules, ts, st, [], false);
    if f != Go || |ps| <= 255 then (f, ps, s)
    else
      var (f1, s1) := Raise(ts, s, TooManyFunctionArgs(|ps|));
      (f1, ps, s1)
  }
}

module ParserProps {
  import opened Scan
  import opened Parser

  // ---------------------------------------------------------------------
  // The rule table
  // ---------------------------------------------------------------------

  /**
   * With the corrected table, every token whose precedence lets the
   * infix loop of lit_parser_parseprecedence advance over it has an
   * infix rule to call.
   */
  lemma EnteredHasInfix(k: TokenType)
    ensures CorrectedRules(k).precedence >= PREC_ASSIGNMENT ==> CorrectedRules(k).infix != NoInfix
  {
  }

  /** As written, `...` and `~` are entered by the infix loop although they have no infix rule. */
  lemma EnteredWithoutInfix()
    ensures SetupRules(DotDotDot).precedence >= PREC_ASSIGNMENT && SetupRules(DotDotDot).infix == NoInfix
    ensures SetupRules(Tilde).precedence >= PREC_ASSIGNMENT && SetupRules(Tilde).infix == NoInfix
  {
  }

  /** The facts about a rule table the lemmas below rely on. */
  ghost predicate Standard(rules: TokenType -> Rule)
  {
    Sane(rules) && RuleOf(rules, Number).prefix == NumberRule && RuleOf(rules, Identifier).prefix == VarRule
  }

  /** Both tables have them. */
  lemma TablesStandard()
    ensures Standard(SetupRules) && Standard(CorrectedRules)
  {
  }

  // ---------------------------------------------------------------------
  // Chains of binary operators
  // ---------------------------------------------------------------------

  /** An operand the chain lemmas use: a number or a variable. */
  predicate Simple(t: Tok) { t.kind == Number || t.kind == Identifier }

  /** The node lit_parser_rulenumber or lit_parser_rulevarexpr builds for a simple operand. */
  function Operand(t: Tok): Expr
  {
    if t.kind == Number then Literal(TokenValue(t)) else Variable(t.text)
  }

  /** A token that ends an operand parsed at prec without being consumed by it. */
  predicate Ends(rules: TokenType -> Rule, k: TokenType, prec: nat)
  {
    Quiet(k) && RuleOf(rules, k).precedence < prec
  }

  /** A token after an operand that the operand's rules do not look at. */
  predicate Quiet(k: TokenType)
  {
    k !in {Error, NewLine, LeftBracket, Equal}
  }

  /**
   * At p, a binary operator of precedence `level` other than `!`, which
   * ends an operand parsed one level above it, and a simple operand.
   */
  predicate Pair(rules: TokenType -> Rule, ts: seq<Tok>, p: nat, level: nat)
  {
    p + 1 < |ts| && ts[p].kind != Bang && Ends(rules, ts[p].kind, Above(level))
    && RuleOf(rules, ts[p].kind).infix == BinaryRule && RuleOf(rules, ts[p].kind).precedence == level
    && Simple(ts[p + 1])
  }

  /**
   * From p on: m pairs of a binary operator of precedence `level` and a
   * simple operand, then a token that ends an expression parsed at prec.
   */
  ghost predicate Rest(rules: TokenType -> Rule, ts: seq<Tok>, p: nat, m: nat, level: nat, prec: nat)
    decreases m
  {
    if m == 0 then p < |ts| && Ends(rules, ts[p].kind, prec)
    else Pair(rules, ts, p, level) && Rest(rules, ts, p + 2, m - 1, level, prec)
  }

  /** The m operators from p applied to acc one after the other, each taking the tree so far as its left operand. */
  function Fold(ts: seq<Tok>, acc: Expr, p: nat, m: nat): Expr
    decreases m
  {
    if m == 0 || p + 1 >= |ts| then acc
    else Fold(ts, BinaryOp(acc, Operand(ts[p + 1]), ts[p].kind, false), p + 2, m - 1)
  }

  /** In a fold, the last operator is the root, with everything before it as its left operand. */
  lemma {:induction false} FoldLast(ts: seq<Tok>, acc: Expr, p: nat, m: nat)
    requires p + 2 * m + 2 <= |ts|
    ensures Fold(ts, acc, p, m + 1) == BinaryOp(Fold(ts, acc, p, m), Operand(ts[p + 2 * m + 1]), ts[p + 2 * m].kind, false)
    decreases m
  {
    if m > 0 {
      FoldLast(ts, BinaryOp(acc, Operand(ts[p + 1]), ts[p].kind, false), p + 2, m - 1);
    }
  }

  /** The token at the head of a rest ends an operand parsed one level above its operators. */
  lemma RestHead(rules: TokenType -> Rule, ts: seq<Tok>, p: nat, m: nat, level: nat, prec: nat)
    requires Rest(rules, ts, p, m, level, prec) && prec <= level
    ensures Ends(rules, ts[p].kind, Above(level))
  {
  }

  /** The token after the last pair of a rest ends the whole expression. */
  lemma {:induction false} RestEnd(rules: TokenType -> Rule, ts: seq<Tok>, p: nat, m: nat, level: nat, prec: nat)
    requires Rest(rules, ts, p, m, level, prec)
    ensures p + 2 * m < |ts| && Ends(rules, ts[p + 2 * m].kind, prec)
    decreases m
  {
    if m > 0 {
      RestEnd(rules, ts, p + 2, m - 1, level, prec);
      assert (p + 2) + 2 * (m - 1) == p + 2 * m;
    }
  }

  /** An advance onto a token that is not an error. */
  lemma AdvanceClean(ts: seq<Tok>, st: PState)
    requires Ok(ts, st) && st.pos + 1 < |ts| && ts[st.pos + 1].kind != Error
    ensures Advance(ts, st).0 == Go && Advance(ts, st).1 == st.(prev := st.pos, pos := st.pos + 1)
  {
    assert Next(ts, st.pos) == st.pos + 1;
  }

  /** The prefix rule of a simple operand followed by a token that ends it. */
  lemma OperandPrefix(rules: TokenType -> Rule, ts: seq<Tok>, s: PState, ca: bool)
    requires Standard(rules) && Ok(ts, s) && s.prev < s.pos && Simple(ts[s.prev]) && ts[s.pos].kind != LeftBracket && ts[s.pos].kind != Equal
    ensures var r := Prefix(rules, ts, s, RuleOf(rules, ts[s.prev].kind).prefix, ca);
      r.0 == Go && r.1 == Operand(ts[s.prev]) && r.2 == s
  {
    if ts[s.prev].kind == Identifier {
      VariablePrefix(rules, ts, s, ca);
    }
  }

  /** lit_parser_rulevarexpr on a variable that is neither subscripted nor assigned. */
  lemma VariablePrefix(rules: TokenType -> Rule, ts: seq<Tok>, s: PState, ca: bool)
    requires Sane(rules) && Ok(ts, s) && s.prev < s.pos && ts[s.pos].kind != LeftBracket && ts[s.pos].kind != Equal
    ensures var r := Prefix(rules, ts, s, VarRule, ca);
      r.0 == Go && r.1 == Variable(ts[s.prev].text) && r.2 == s
  {
    var r1 := Match(ts, s, LeftBracket);
    assert r1.0 == Go && !r1.1 && r1.2 == s;
    var r2 := Match(ts, s, Equal);
    assert r2.0 == Go && !r2.1 && r2.2 == s;
  }

  /** Nothing to skip before a token that is not a newline. */
  lemma NoNewlines(ts: seq<Tok>, s: PState)
    requires Ok(ts, s) && ts[s.pos].kind != NewLine
    ensures MatchNewlines(ts, s).0 == Go && MatchNewlines(ts, s).1 == s
  {
    var r := Match(ts, s, NewLine);
    assert r.0 == Go && !r.1 && r.2 == s;
  }

  /** lit_parser_parseprecedence when its prefix rule returns normally, then its infix loop returns f4. */
  lemma PrecedenceAfter(rules: TokenType -> Rule, ts: seq<Tok>, st: PState, prec: nat, err: bool, s: PState, e: Expr, s2: PState, s3: PState, f4: Flow, e4: Expr, s4: PState)
    requires Standard(rules) && Ok(ts, st) && prec >= PREC_ASSIGNMENT
    requires Advance(ts, st).0 == Go && Advance(ts, st).1 == s
    requires RuleOf(rules, ts[s.prev].kind).prefix != NoPrefix && s.prev < s.pos
    requires var r := Prefix(rules, ts, s, RuleOf(rules, ts[s.prev].kind).prefix, prec <= PREC_ASSIGNMENT);
      r.0 == Go && r.1 == e && r.2 == s2
    requires MatchNewlines(ts, s2).0 == Go && MatchNewlines(ts, s2).1 == s3
    requires InfixLoop(rules, ts, s3, prec, prec <= PREC_ASSIGNMENT, e) == (f4, e4, s4)
    requires f4 == Go && err && prec <= PREC_ASSIGNMENT ==> ts[s4.pos].kind != Equal
    ensures ParsePrecedence(rules, ts, st, prec, err) == (f4, e4, s4)
  {
  }

  /** One turn of the infix loop whose infix rule returns normally. */
  lemma InfixTurn(rules: TokenType -> Rule, ts: seq<Tok>, st: PState, prec: nat, canAssign: bool, left: Expr, s1: PState, e: Expr, s2: PState)
    requires Standard(rules) && Ok(ts, st) && prec >= PREC_ASSIGNMENT && RuleOf(rules, ts[st.pos].kind).precedence >= prec
    requires Advance(ts, st).0 == Go && Advance(ts, st).1 == s1
    requires s1.prev < s1.pos && RuleOf(rules, ts[s1.prev].kind).infix != NoInfix
    requires var r := Infix(rules, ts, s1, RuleOf(rules, ts[s1.prev].kind).infix, left, canAssign);
      r.0 == Go && r.1 == e && r.2 == s2
    ensures InfixLoop(rules, ts, st, prec, canAssign, left) == InfixLoop(rules, ts, s2, prec, canAssign, e)
  {
  }

  /** lit_parser_rulebinary for an operator other than `!`, when its right operand parses normally. */
  lemma BinaryGo(rules: TokenType -> Rule, ts: seq<Tok>, st: PState, left: Expr, right: Expr, s: PState)
    requires Standard(rules) && Ok(ts, st) && st.prev < st.pos && ts[st.prev].kind != Bang && RuleOf(rules, ts[st.prev].kind).infix == BinaryRule
    requires var r := ParsePrecedence(rules, ts, st, Above(RuleOf(rules, ts[st.prev].kind).precedence), true);
      r.0 == Go && r.1 == right && r.2 == s
    ensures var r := Infix(rules, ts, st, BinaryRule, left, true);
      r.0 == Go && r.1 == BinaryOp(left, right, ts[st.prev].kind, false) && r.2 == s
    ensures var r := Infix(rules, ts, st, BinaryRule, left, false);
      r.0 == Go && r.1 == BinaryOp(left, right, ts[st.prev].kind, false) && r.2 == s
  {
    var r := BinaryRight(rules, ts, st, left, false);
    assert r.0 == Go && r.1 == BinaryOp(left, right, ts[st.prev].kind, false) && r.2 == s;
    assert RuleBinary(rules, ts, st, left) == r;
    assert Infix(rules, ts, st, BinaryRule, left, true) == r;
    assert Infix(rules, ts, st, BinaryRule, left, false) == r;
  }

  /** The infix loop stops at once before a token whose precedence is below prec. */
  lemma LoopStops(rules: TokenType -> Rule, ts: seq<Tok>, st: PState, prec: nat, canAssign: bool, left: Expr)
    requires Standard(rules) && Ok(ts, st) && prec >= PREC_ASSIGNMENT && RuleOf(rules, ts[st.pos].kind).precedence < prec
    ensures InfixLoop(rules, ts, st, prec, canAssign, left) == (Go, left, st)
  {
  }

  /**
   * lit_parser_parseprecedence over a simple operand, when the infix loop
   * after it returns normally.
   */
  lemma OperandThen(rules: TokenType -> Rule, ts: seq<Tok>, st: PState, prec: nat, canAssign: bool, f4: Flow, e4: Expr, s4: PState)
    requires Standard(rules) && Ok(ts, st) && prec >= PREC_ASSIGNMENT && st.pos + 1 < |ts| && Simple(ts[st.pos])
    requires canAssign == (prec <= PREC_ASSIGNMENT) && Quiet(ts[st.pos + 1].kind)
    requires InfixLoop(rules, ts, st.(prev := st.pos, pos := st.pos + 1), prec, canAssign, Operand(ts[st.pos])) == (f4, e4, s4)
    requires f4 == Go && canAssign ==> ts[s4.pos].kind != Equal
    ensures ParsePrecedence(rules, ts, st, prec, true) == (f4, e4, s4)
  {
    var s := st.(prev := st.pos, pos := st.pos + 1);
    AdvanceClean(ts, st);
    var e := Operand(ts[st.pos]);
    OperandPrefix(rules, ts, s, canAssign);
    NoNewlines(ts, s);
    PrecedenceAfter(rules, ts, st, prec, true, s, e, s, s, f4, e4, s4);
  }

  /** A simple operand followed by a token that ends it. */
  lemma OperandAlone(rules: TokenType -> Rule, ts: seq<Tok>, st: PState, prec: nat)
    requires Standard(rules) && Ok(ts, st) && prec >= PREC_ASSIGNMENT && st.pos + 1 < |ts|
    requires Simple(ts[st.pos]) && Ends(rules, ts[st.pos + 1].kind, prec)
    ensures ParsePrecedence(rules, ts, st, prec, true) == (Go, Operand(ts[st.pos]), st.(prev := st.pos, pos := st.pos + 1))
  {
    var s := st.(prev := st.pos, pos := st.pos + 1);
    LoopStops(rules, ts, s, prec, prec <= PREC_ASSIGNMENT, Operand(ts[st.pos]));
    OperandThen(rules, ts, st, prec, prec <= PREC_ASSIGNMENT, Go, Operand(ts[st.pos]), s);
  }

  /** One operator of a chain and its operand: a turn of the infix loop. */
  lemma ChainStep(rules: TokenType -> Rule, ts: seq<Tok>, st: PState, prec: nat, canAssign: bool, acc: Expr, m: nat, level: nat)
    requires Standard(rules) && Ok(ts, st) && PREC_ASSIGNMENT <= prec <= level && m > 0 && Rest(rules, ts, st.pos, m, level, prec)
    ensures st.pos + 2 < |ts| && Rest(rules, ts, st.pos + 2, m - 1, level, prec)
    ensures InfixLoop(rules, ts, st, prec, canAssign, acc)
      == InfixLoop(rules, ts, st.(prev := st.pos + 1, pos := st.pos + 2), prec, canAssign, BinaryOp(acc, Operand(ts[st.pos + 1]), ts[st.pos].kind, false))
  {
    var p := st.pos;
    AdvanceClean(ts, st);
    var s1 := st.(prev := p, pos := p + 1);
    RestHead(rules, ts, p + 2, m - 1, level, prec);
    assert RuleOf(rules, ts[p].kind).precedence == level;
    OperandAlone(rules, ts, s1, Above(level));
    var s2 := s1.(prev := p + 1, pos := p + 2);
    BinaryGo(rules, ts, s1, acc, Operand(ts[p + 1]), s2);
    InfixTurn(rules, ts, st, prec, canAssign, acc, s1, BinaryOp(acc, Operand(ts[p + 1]), ts[p].kind, false), s2);
  }

  /** The state after m operators of a chain and their operands from st.pos. */
  function After(st: PState, m: nat): PState
  {
    if m == 0 then st else st.(prev := st.pos + 2 * m - 1, pos := st.pos + 2 * m)
  }

  /** The state after the first pair, then the m - 1 others. */
  lemma AfterStep(st: PState, m: nat)
    requires m > 0
    ensures After(st.(prev := st.pos + 1, pos := st.pos + 2), m - 1) == After(st, m)
  {
  }

  /** The first pair of a chain, then the rest of the chain. */
  lemma ChainMore(rules: TokenType -> Rule, ts: seq<Tok>, st: PState, prec: nat, canAssign: bool, acc: Expr, m: nat, e: Expr, s2: PState)
    requires Standard(rules) && Ok(ts, st) && prec >= PREC_ASSIGNMENT && m > 0 && st.pos + 1 < |ts|
    requires e == BinaryOp(acc, Operand(ts[st.pos + 1]), ts[st.pos].kind, false) && s2 == st.(prev := st.pos + 1, pos := st.pos + 2)
    requires Ok(ts, s2) && InfixLoop(rules, ts, st, prec, canAssign, acc) == InfixLoop(rules, ts, s2, prec, canAssign, e)
    requires var r := InfixLoop(rules, ts, s2, prec, canAssign, e);
      r.0 == Go && r.1 == Fold(ts, e, s2.pos, m - 1) && r.2 == After(s2, m - 1)
    ensures var r := InfixLoop(rules, ts, st, prec, canAssign, acc);
      r.0 == Go && r.1 == Fold(ts, acc, st.pos, m) && r.2 == After(st, m)
  {
    assert Fold(ts, acc, st.pos, m) == Fold(ts, e, s2.pos, m - 1);
    AfterStep(st, m);
  }

  /** The state after an operand and m pairs. */
  lemma AfterOperand(st: PState, m: nat)
    ensures After(st.(prev := st.pos, pos := st.pos + 1), m) == st.(prev := st.pos + 2 * m, pos := st.pos + 1 + 2 * m)
  {
  }

  /** The infix loop over a chain of operators of one precedence builds their left fold. */
  lemma {:induction false} ChainLoop(rules: TokenType -> Rule, ts: seq<Tok>, st: PState, prec: nat, canAssign: bool, acc: Expr, m: nat, level: nat)
    requires Standard(rules) && Ok(ts, st) && PREC_ASSIGNMENT <= prec <= level && Rest(rules, ts, st.pos, m, level, prec)
    ensures var r := InfixLoop(rules, ts, st, prec, canAssign, acc);
      r.0 == Go && r.1 == Fold(ts, acc, st.pos, m) && r.2 == After(st, m)
    decreases m
  {
    if m == 0 {
      LoopStops(rules, ts, st, prec, canAssign, acc);
    } else {
      var p := st.pos;
      ChainStep(rules, ts, st, prec, canAssign, acc, m, level);
      var e := BinaryOp(acc, Operand(ts[p + 1]), ts[p].kind, false);
      var s2 := st.(prev := p + 1, pos := p + 2);
      ChainLoop(rules, ts, s2, prec, canAssign, e, m - 1, level);
      ChainMore(rules, ts, st, prec, canAssign, acc, m, e, s2);
    }
  }

  /** lit_parser_parseexpression before a token that is not a newline. */
  lemma ExpressionStart(rules: TokenType -> Rule, ts: seq<Tok>, st: PState)
    requires Sane(rules) && Ok(ts, st) && ts[st.pos].kind != NewLine
    ensures ParseExpression(rules, ts, st) == ParsePrecedence(rules, ts, st, PREC_ASSIGNMENT, true)
  {
    NoNewlines(ts, st);
  }

  /**
   * A simple operand at st.pos, then m pairs of a binary operator of
   * precedence `level` and a simple operand, then a token that ends an
   * expression.
   */
  ghost predicate ChainAt(rules: TokenType -> Rule, ts: seq<Tok>, st: PState, m: nat, level: nat)
  {
    Standard(rules) && Ok(ts, st) && st.pos + 1 < |ts| && Simple(ts[st.pos]) && level >= PREC_ASSIGNMENT
    && Rest(rules, ts, st.pos + 1, m, level, PREC_ASSIGNMENT)
  }

  /** The tokens after the first operand of a chain and after its last that the parse of the chain looks at. */
  predicate Framed(ts: seq<Tok>, st: PState, m: nat)
  {
    st.pos + 1 + 2 * m < |ts| && Quiet(ts[st.pos + 1].kind) && ts[st.pos + 1 + 2 * m].kind != Equal
  }

  /** The tokens around a chain that the parse of its first operand looks at. */
  lemma ChainEnds(rules: TokenType -> Rule, ts: seq<Tok>, st: PState, m: nat, level: nat)
    requires Rest(rules, ts, st.pos + 1, m, level, PREC_ASSIGNMENT) && level >= PREC_ASSIGNMENT
    ensures Framed(ts, st, m)
  {
    RestHead(rules, ts, st.pos + 1, m, level, PREC_ASSIGNMENT);
    RestEnd(rules, ts, st.pos + 1, m, level, PREC_ASSIGNMENT);
  }

  /** The infix loop after a simple operand over a chain at the assignment level. */
  lemma ChainTail(rules: TokenType -> Rule, ts: seq<Tok>, st: PState, m: nat, level: nat)
    requires Standard(rules) && Ok(ts, st) && st.pos + 1 < |ts| && level >= PREC_ASSIGNMENT
    requires Rest(rules, ts, st.pos + 1, m, level, PREC_ASSIGNMENT)
    ensures InfixLoop(rules, ts, st.(prev := st.pos, pos := st.pos + 1), PREC_ASSIGNMENT, true, Operand(ts[st.pos]))
      == (Go, Fold(ts, Operand(ts[st.pos]), st.pos + 1, m), st.(prev := st.pos + 2 * m, pos := st.pos + 1 + 2 * m))
  {
    ChainLoop(rules, ts, st.(prev := st.pos, pos := st.pos + 1), PREC_ASSIGNMENT, true, Operand(ts[st.pos]), m, level);
    AfterOperand(st, m);
  }

  /** lit_parser_parseprecedence at the assignment level over a simple operand and a chain. */
  lemma ChainPrecedence(rules: TokenType -> Rule, ts: seq<Tok>, st: PState, m: nat, level: nat)
    requires ChainAt(rules, ts, st, m, level) && Framed(ts, st, m)
    ensures ParsePrecedence(rules, ts, st, PREC_ASSIGNMENT, true)
      == (Go, Fold(ts, Operand(ts[st.pos]), st.pos + 1, m), st.(prev := st.pos + 2 * m, pos := st.pos + 1 + 2 * m))
  {
    ChainTail(rules, ts, st, m, level);
    var s4 := st.(prev := st.pos + 2 * m, pos := st.pos + 1 + 2 * m);
    assert Standard(rules) && Ok(ts, st) && st.pos + 1 < |ts| && Simple(ts[st.pos]);
    assert Quiet(ts[st.pos + 1].kind) && ts[s4.pos].kind != Equal;
    OperandThen(rules, ts, st, PREC_ASSIGNMENT, true, Go, Fold(ts, Operand(ts[st.pos]), st.pos + 1, m), s4);
  }

  /** lit_parser_parseexpression over a simple operand and a chain. */
  lemma ChainExpression(rules: TokenType -> Rule, ts: seq<Tok>, st: PState, m: nat, level: nat)
    requires ChainAt(rules, ts, st, m, level) && Framed(ts, st, m)
    ensures ParseExpression(rules, ts, st)
      == (Go, Fold(ts, Operand(ts[st.pos]), st.pos + 1, m), st.(prev := st.pos + 2 * m, pos := st.pos + 1 + 2 * m))
  {
    ExpressionStart(rules, ts, st);
    ChainPrecedence(rules, ts, st, m, level);
  }

  /**
   * Binary operators of one precedence associate to the left: an
   * expression `x0 op1 x1 ... opm xm` parses as the left fold of its
   * operators, so `a - b - c` is `(a - b) - c` (see FoldLast).
   */
  lemma LeftAssociative(rules: TokenType -> Rule, ts: seq<Tok>, st: PState, m: nat, level: nat)
    requires ChainAt(rules, ts, st, m, level)
    ensures ParseExpression(rules, ts, st)
      == (Go, Fold(ts, Operand(ts[st.pos]), st.pos + 1, m), st.(prev := st.pos + 2 * m, pos := st.pos + 1 + 2 * m))
  {
    ChainEnds(rules, ts, st, m, level);
    ChainExpression(rules, ts, st, m, level);
  }

  // ---------------------------------------------------------------------
  // Tokens with a precedence but no infix rule: `...` and `~`
  // ---------------------------------------------------------------------

  /**
   * The infix loop before a token whose precedence lets it in but which
   * has no infix rule: lit_parser_parseprecedence calls the rule's null
   * infix function.
   */
  lemma LoopNullRule(rules: TokenType -> Rule, ts: seq<Tok>, st: PState, prec: nat, canAssign: bool, left: Expr)
    requires Standard(rules) && Ok(ts, st) && prec >= PREC_ASSIGNMENT && st.pos + 1 < |ts| && ts[st.pos + 1].kind != Error
    requires RuleOf(rules, ts[st.pos].kind).precedence >= prec && RuleOf(rules, ts[st.pos].kind).infix == NoInfix
    ensures InfixLoop(rules, ts, st, prec, canAssign, left) == (NullRule(ts[st.pos].kind), Missing, st.(prev := st.pos, pos := st.pos + 1))
  {
    AdvanceClean(ts, st);
  }

  /**
   * A simple operand, then a token whose precedence lets the infix loop
   * in but which has no infix rule: the parse reaches the missing rule.
   * SetupRules has two such tokens, `...` and `~` (EnteredWithoutInfix);
   * CorrectedRules has none (EnteredHasInfix).
   */
  lemma OperandNullRule(rules: TokenType -> Rule, ts: seq<Tok>, st: PState)
    requires Standard(rules) && Ok(ts, st) && st.pos + 2 < |ts| && Simple(ts[st.pos]) && ts[st.pos + 2].kind != Error
    requires Quiet(ts[st.pos + 1].kind) && RuleOf(rules, ts[st.pos + 1].kind).precedence >= PREC_ASSIGNMENT
    requires RuleOf(rules, ts[st.pos + 1].kind).infix == NoInfix
    ensures ParsePrecedence(rules, ts, st, PREC_ASSIGNMENT, true)
      == (NullRule(ts[st.pos + 1].kind), Missing, st.(prev := st.pos + 1, pos := st.pos + 2))
  {
    LoopNullRule(rules, ts, st.(prev := st.pos, pos := st.pos + 1), PREC_ASSIGNMENT, true, Operand(ts[st.pos]));
    OperandThen(rules, ts, st, PREC_ASSIGNMENT, true, NullRule(ts[st.pos + 1].kind), Missing, st.(prev := st.pos + 1, pos := st.pos + 2));
  }

  // ---------------------------------------------------------------------
  // `&&` and `||`
  // ---------------------------------------------------------------------

  /** The level lit_parser_ruleand and lit_parser_ruleor parse their right operand at. */
  function LogicalLevel(rule: InfixRule): nat
  {
    if rule == AndRule then PREC_AND else PREC_OR
  }

  /** lit_parser_ruleand or lit_parser_ruleor, when the right operand parses normally. */
  lemma LogicalGo(rules: TokenType -> Rule, ts: seq<Tok>, st: PState, left: Expr, right: Expr, s: PState, canAssign: bool)
    requires Standard(rules) && Ok(ts, st) && st.prev < st.pos
    requires RuleOf(rules, ts[st.prev].kind).infix == AndRule || RuleOf(rules, ts[st.prev].kind).infix == OrRule
    requires ParsePrecedence(rules, ts, st, LogicalLevel(RuleOf(rules, ts[st.prev].kind).infix), true) == (Go, right, s)
    ensures Infix(rules, ts, st, RuleOf(rules, ts[st.prev].kind).infix, left, canAssign) == (Go, BinaryOp(left, right, ts[st.prev].kind, false), s)
  {
  }

  /** A logical operator and a simple operand that ends its right operand: one turn of the infix loop. */
  lemma LogicalTurn(rules: TokenType -> Rule, ts: seq<Tok>, st: PState, prec: nat, canAssign: bool, left: Expr)
    requires Standard(rules) && Ok(ts, st) && prec >= PREC_ASSIGNMENT && st.pos + 2 < |ts|
    requires RuleOf(rules, ts[st.pos].kind).infix == AndRule || RuleOf(rules, ts[st.pos].kind).infix == OrRule
    requires RuleOf(rules, ts[st.pos].kind).precedence >= prec && Simple(ts[st.pos + 1])
    requires Ends(rules, ts[st.pos + 2].kind, LogicalLevel(RuleOf(rules, ts[st.pos].kind).infix))
    ensures InfixLoop(rules, ts, st, prec, canAssign, left)
      == InfixLoop(rules, ts, st.(prev := st.pos + 1, pos := st.pos + 2), prec, canAssign, BinaryOp(left, Operand(ts[st.pos + 1]), ts[st.pos].kind, false))
  {
    var s1 := st.(prev := st.pos, pos := st.pos + 1);
    var s2 := st.(prev := st.pos + 1, pos := st.pos + 2);
    AdvanceClean(ts, st);
    OperandAlone(rules, ts, s1, LogicalLevel(RuleOf(rules, ts[st.pos].kind).infix));
    LogicalGo(rules, ts, s1, left, Operand(ts[st.pos + 1]), s2, canAssign);
    InfixTurn(rules, ts, st, prec, canAssign, left, s1, BinaryOp(left, Operand(ts[st.pos + 1]), ts[st.pos].kind, false), s2);
  }

  /** A table in which `&&` is lit_parser_ruleand at precedence AND and `||` is lit_parser_ruleor. */
  ghost predicate Logical(rules: TokenType -> Rule)
  {
    Standard(rules) && RuleOf(rules, AmpersandAmpersand) == Rule(NoPrefix, AndRule, PREC_AND)
    && RuleOf(rules, BarBar).infix == OrRule && RuleOf(rules, BarBar).precedence >= PREC_ASSIGNMENT
  }

  /** The tokens of `a && b || c` from p, followed by one that ends an expression. */
  ghost predicate AndThenOr(rules: TokenType -> Rule, ts: seq<Tok>, p: nat)
  {
    p + 5 < |ts| && Simple(ts[p]) && ts[p + 1].kind == AmpersandAmpersand && Simple(ts[p + 2])
    && ts[p + 3].kind == BarBar && Simple(ts[p + 4]) && Ends(rules, ts[p + 5].kind, PREC_ASSIGNMENT)
  }

  /** The facts about `a && b || c` the steps of its parse need, as written. */
  lemma InsideFacts(rules: TokenType -> Rule, ts: seq<Tok>, st: PState, s2: PState, s3: PState, s5: PState)
    requires Logical(rules) && RuleOf(rules, BarBar).precedence == PREC_AND && Ok(ts, st) && AndThenOr(rules, ts, st.pos)
    requires s2 == st.(prev := st.pos + 1, pos := st.pos + 2) && s3 == st.(prev := st.pos + 2, pos := st.pos + 3)
    requires s5 == st.(prev := st.pos + 4, pos := st.pos + 5)
    ensures Standard(rules) && Ok(ts, s3) && s3.pos + 2 < |ts| && RuleOf(rules, ts[s3.pos].kind).infix == OrRule
    ensures RuleOf(rules, ts[s3.pos].kind).precedence >= PREC_AND && Simple(ts[s3.pos + 1])
    ensures Ends(rules, ts[s3.pos + 2].kind, LogicalLevel(RuleOf(rules, ts[s3.pos].kind).infix))
    ensures Ok(ts, s5) && RuleOf(rules, ts[s5.pos].kind).precedence < PREC_AND
    ensures Ok(ts, s2) && s2.pos + 1 < |ts| && Simple(ts[s2.pos]) && Quiet(ts[s2.pos + 1].kind)
    ensures s2.(prev := s2.pos, pos := s2.pos + 1) == s3 && s3.(prev := s3.pos + 1, pos := s3.pos + 2) == s5
    ensures ts[s2.pos] == ts[st.pos + 2] && ts[s3.pos].kind == BarBar && ts[s3.pos + 1] == ts[st.pos + 4]
  {
  }

  /** As written, `b || c` is the right operand of `&&`, because `||` has the precedence of `&&`. */
  lemma OrInsideAnd(rules: TokenType -> Rule, ts: seq<Tok>, st: PState)
    requires Logical(rules) && RuleOf(rules, BarBar).precedence == PREC_AND && Ok(ts, st) && AndThenOr(rules, ts, st.pos)
    ensures ParsePrecedence(rules, ts, st.(prev := st.pos + 1, pos := st.pos + 2), PREC_AND, true)
      == (Go, BinaryOp(Operand(ts[st.pos + 2]), Operand(ts[st.pos + 4]), BarBar, false), st.(prev := st.pos + 4, pos := st.pos + 5))
  {
    var s2 := st.(prev := st.pos + 1, pos := st.pos + 2);
    var s3 := st.(prev := st.pos + 2, pos := st.pos + 3);
    var s5 := st.(prev := st.pos + 4, pos := st.pos + 5);
    var e := BinaryOp(Operand(ts[st.pos + 2]), Operand(ts[st.pos + 4]), BarBar, false);
    InsideFacts(rules, ts, st, s2, s3, s5);
    LogicalTurn(rules, ts, s3, PREC_AND, false, Operand(ts[st.pos + 2]));
    LoopStops(rules, ts, s5, PREC_AND, false, e);
    OperandThen(rules, ts, s2, PREC_AND, false, Go, e, s5);
  }

  /** The facts about the first and last turns of the infix loop over `a && b || c`. */
  lemma OuterFacts(rules: TokenType -> Rule, ts: seq<Tok>, st: PState, s1: PState, s2: PState, s5: PState)
    requires Logical(rules) && Ok(ts, st) && AndThenOr(rules, ts, st.pos)
    requires s1 == st.(prev := st.pos, pos := st.pos + 1) && s2 == st.(prev := st.pos + 1, pos := st.pos + 2)
    requires s5 == st.(prev := st.pos + 4, pos := st.pos + 5)
    ensures Standard(rules) && Ok(ts, s1) && s1.pos + 1 < |ts| && ts[s1.pos + 1].kind != Error
    ensures s1.(prev := s1.pos, pos := s1.pos + 1) == s2 && Ok(ts, s2) && s2.prev < s2.pos
    ensures RuleOf(rules, ts[s2.prev].kind).infix == AndRule && ts[s2.prev].kind == AmpersandAmpersand
    ensures LogicalLevel(RuleOf(rules, ts[s2.prev].kind).infix) == PREC_AND
    ensures RuleOf(rules, ts[s1.pos].kind).precedence >= PREC_ASSIGNMENT
    ensures Ok(ts, s5) && RuleOf(rules, ts[s5.pos].kind).precedence < PREC_ASSIGNMENT
  {
  }

  /** The infix loop of the whole expression, as written. */
  lemma AndOverOr(rules: TokenType -> Rule, ts: seq<Tok>, st: PState)
    requires Logical(rules) && RuleOf(rules, BarBar).precedence == PREC_AND && Ok(ts, st) && AndThenOr(rules, ts, st.pos)
    ensures InfixLoop(rules, ts, st.(prev := st.pos, pos := st.pos + 1), PREC_ASSIGNMENT, true, Operand(ts[st.pos]))
      == (Go, BinaryOp(Operand(ts[st.pos]), BinaryOp(Operand(ts[st.pos + 2]), Operand(ts[st.pos + 4]), BarBar, false), AmpersandAmpersand, false),
          st.(prev := st.pos + 4, pos := st.pos + 5))
  {
    var s1 := st.(prev := st.pos, pos := st.pos + 1);
    var s2 := st.(prev := st.pos + 1, pos := st.pos + 2);
    var s5 := st.(prev := st.pos + 4, pos := st.pos + 5);
    var right := BinaryOp(Operand(ts[st.pos + 2]), Operand(ts[st.pos + 4]), BarBar, false);
    var e := BinaryOp(Operand(ts[st.pos]), right, AmpersandAmpersand, false);
    OuterFacts(rules, ts, st, s1, s2, s5);
    AdvanceClean(ts, s1);
    OrInsideAnd(rules, ts, st);
    LogicalGo(rules, ts, s2, Operand(ts[st.pos]), right, s5, true);
    InfixTurn(rules, ts, s1, PREC_ASSIGNMENT, true, Operand(ts[st.pos]), s2, e, s5);
    LoopStops(rules, ts, s5, PREC_ASSIGNMENT, true, e);
  }

  /** The facts about `a` and the token after it that lit_parser_parseexpression needs. */
  lemma TopFacts(rules: TokenType -> Rule, ts: seq<Tok>, st: PState)
    requires Logical(rules) && Ok(ts, st) && AndThenOr(rules, ts, st.pos)
    ensures Standard(rules) && Sane(rules) && ts[st.pos].kind != NewLine && st.pos + 1 < |ts| && Simple(ts[st.pos])
    ensures Quiet(ts[st.pos + 1].kind)
  {
  }

  /** The token after `c` is not `=`. */
  lemma LastFacts(rules: TokenType -> Rule, ts: seq<Tok>, st: PState, s5: PState)
    requires Logical(rules) && Ok(ts, st) && AndThenOr(rules, ts, st.pos) && s5 == st.(prev := st.pos + 4, pos := st.pos + 5)
    ensures ts[s5.pos].kind != Equal
  {
  }

  /**
   * As written, `a && b || c` parses as `a && (b || c)`: lit_parser_setuprules
   * gives `||` the precedence of `&&` (LITPREC_AND instead of LITPREC_OR).
   */
  lemma OrBindsTighterAsWritten(rules: TokenType -> Rule, ts: seq<Tok>, st: PState)
    requires Logical(rules) && RuleOf(rules, BarBar).precedence == PREC_AND && Ok(ts, st) && AndThenOr(rules, ts, st.pos)
    ensures ParseExpression(rules, ts, st)
      == (Go, BinaryOp(Operand(ts[st.pos]), BinaryOp(Operand(ts[st.pos + 2]), Operand(ts[st.pos + 4]), BarBar, false), AmpersandAmpersand, false),
          st.(prev := st.pos + 4, pos := st.pos + 5))
  {
    var s5 := st.(prev := st.pos + 4, pos := st.pos + 5);
    var e := BinaryOp(Operand(ts[st.pos]), BinaryOp(Operand(ts[st.pos + 2]), Operand(ts[st.pos + 4]), BarBar, false), AmpersandAmpersand, false);
    TopFacts(rules, ts, st);
    LastFacts(rules, ts, st, s5);
    ExpressionStart(rules, ts, st);
    AndOverOr(rules, ts, st);
    OperandThen(rules, ts, st, PREC_ASSIGNMENT, true, Go, e, s5);
  }

  /** The facts about the two turns of the infix loop over `a && b || c` with `||` below `&&`. */
  lemma LooserFacts(rules: TokenType -> Rule, ts: seq<Tok>, st: PState, s1: PState, s3: PState, s5: PState)
    requires Logical(rules) && RuleOf(rules, BarBar).precedence == PREC_OR && Ok(ts, st) && AndThenOr(rules, ts, st.pos)
    requires s1 == st.(prev := st.pos, pos := st.pos + 1) && s3 == st.(prev := st.pos + 2, pos := st.pos + 3)
    requires s5 == st.(prev := st.pos + 4, pos := st.pos + 5)
    ensures Standard(rules) && Ok(ts, s1) && s1.pos + 2 < |ts| && RuleOf(rules, ts[s1.pos].kind).infix == AndRule
    ensures RuleOf(rules, ts[s1.pos].kind).precedence >= PREC_ASSIGNMENT && Simple(ts[s1.pos + 1])
    ensures Ends(rules, ts[s1.pos + 2].kind, LogicalLevel(RuleOf(rules, ts[s1.pos].kind).infix))
    ensures s1.(prev := s1.pos + 1, pos := s1.pos + 2) == s3 && ts[s1.pos + 1] == ts[st.pos + 2] && ts[s1.pos].kind == AmpersandAmpersand
    ensures Ok(ts, s3) && s3.pos + 2 < |ts| && RuleOf(rules, ts[s3.pos].kind).infix == OrRule
    ensures RuleOf(rules, ts[s3.pos].kind).precedence >= PREC_ASSIGNMENT && Simple(ts[s3.pos + 1])
    ensures Ends(rules, ts[s3.pos + 2].kind, LogicalLevel(RuleOf(rules, ts[s3.pos].kind).infix))
    ensures s3.(prev := s3.pos + 1, pos := s3.pos + 2) == s5 && ts[s3.pos + 1] == ts[st.pos + 4] && ts[s3.pos].kind == BarBar
    ensures Ok(ts, s5) && RuleOf(rules, ts[s5.pos].kind).precedence < PREC_ASSIGNMENT
  {
  }

  /** The infix loop of the whole expression, with `||` below `&&`. */
  lemma OrOverAnd(rules: TokenType -> Rule, ts: seq<Tok>, st: PState)
    requires Logical(rules) && RuleOf(rules, BarBar).precedence == PREC_OR && Ok(ts, st) && AndThenOr(rules, ts, st.pos)
    ensures InfixLoop(rules, ts, st.(prev := st.pos, pos := st.pos + 1), PREC_ASSIGNMENT, true, Operand(ts[st.pos]))
      == (Go, BinaryOp(BinaryOp(Operand(ts[st.pos]), Operand(ts[st.pos + 2]), AmpersandAmpersand, false), Operand(ts[st.pos + 4]), BarBar, false),
          st.(prev := st.pos + 4, pos := st.pos + 5))
  {
    var s1 := st.(prev := st.pos, pos := st.pos + 1);
    var s3 := st.(prev := st.pos + 2, pos := st.pos + 3);
    var s5 := st.(prev := st.pos + 4, pos := st.pos + 5);
    var e := BinaryOp(Operand(ts[st.pos]), Operand(ts[st.pos + 2]), AmpersandAmpersand, false);
    LooserFacts(rules, ts, st, s1, s3, s5);
    LogicalTurn(rules, ts, s1, PREC_ASSIGNMENT, true, Operand(ts[st.pos]));
    LogicalTurn(rules, ts, s3, PREC_ASSIGNMENT, true, e);
    LoopStops(rules, ts, s5, PREC_ASSIGNMENT, true, BinaryOp(e, Operand(ts[st.pos + 4]), BarBar, false));
  }

  /** With `||` at precedence OR, `a && b || c` parses as `(a && b) || c`. */
  lemma OrBindsLooser(rules: TokenType -> Rule, ts: seq<Tok>, st: PState)
    requires Logical(rules) && RuleOf(rules, BarBar).precedence == PREC_OR && Ok(ts, st) && AndThenOr(rules, ts, st.pos)
    ensures ParseExpression(rules, ts, st)
      == (Go, BinaryOp(BinaryOp(Operand(ts[st.pos]), Operand(ts[st.pos + 2]), AmpersandAmpersand, false), Operand(ts[st.pos + 4]), BarBar, false),
          st.(prev := st.pos + 4, pos := st.pos + 5))
  {
    var s5 := st.(prev := st.pos + 4, pos := st.pos + 5);
    var e := BinaryOp(BinaryOp(Operand(ts[st.pos]), Operand(ts[st.pos + 2]), AmpersandAmpersand, false), Operand(ts[st.pos + 4]), BarBar, false);
    TopFacts(rules, ts, st);
    LastFacts(rules, ts, st, s5);
    ExpressionStart(rules, ts, st);
    OrOverAnd(rules, ts, st);
    OperandThen(rules, ts, st, PREC_ASSIGNMENT, true, Go, e, s5);
  }

  /** The rules of `&&` and `||` in lit_parser_setuprules: both at precedence AND. */
  lemma SetupAndOr()
    ensures SetupRules(AmpersandAmpersand) == Rule(NoPrefix, AndRule, PREC_AND)
    ensures SetupRules(BarBar) == Rule(NoPrefix, OrRule, PREC_AND)
  {
  }

  /** The rules of `&&` and `||` in the corrected table: `||` at precedence OR. */
  lemma CorrectedAndOr()
    ensures CorrectedRules(AmpersandAmpersand) == Rule(NoPrefix, AndRule, PREC_AND)
    ensures CorrectedRules(BarBar) == Rule(NoPrefix, OrRule, PREC_OR)
  {
    SetupAndOr();
  }

  /** lit_parser_setuprules gives `||` the precedence of `&&`. */
  lemma SetupLogical()
    ensures Logical(SetupRules) && RuleOf(SetupRules, BarBar).precedence == PREC_AND
  {
    TablesStandard();
    SetupAndOr();
  }

  /** The corrected table puts `||` at OR, below `&&`. */
  lemma CorrectedLogical()
    ensures Logical(CorrectedRules) && RuleOf(CorrectedRules, BarBar).precedence == PREC_OR
  {
    TablesStandard();
    CorrectedAndOr();
  }

  // ---------------------------------------------------------------------
  // Prefix and infix rules on their own
  // ---------------------------------------------------------------------

  /**
   * A token without a prefix rule where an expression starts: EXPECTED_EXPRESSION
   * is reported (outside panic mode) and there is no expression.
   */
  lemma MissingPrefix(rules: TokenType -> Rule, ts: seq<Tok>, st: PState, prec: nat, err: bool)
    requires Sane(rules) && Ok(ts, st) && prec >= PREC_ASSIGNMENT && st.pos + 1 < |ts|
    requires ts[st.pos + 1].kind != Error && RuleOf(rules, ts[st.pos].kind).prefix == NoPrefix && !st.panicMode
    ensures ParsePrecedence(rules, ts, st, prec, err).1 == Missing
    ensures ParsePrecedence(rules, ts, st, prec, err).2.hadError
    ensures st.errors + [ExpectedExpression] <= ParsePrecedence(rules, ts, st, prec, err).2.errors
  {
    AdvanceClean(ts, st);
  }

  /** The operator lit_parser_convertcompoundop gives is a binary operator, never a compound one. */
  lemma CompoundApplies(op: TokenType)
    requires IsCompound(op)
    ensures SetupRules(ConvertCompoundOp(op)).infix == BinaryRule && !IsCompound(ConvertCompoundOp(op))
  {
  }

  /** Every compound operator has precedence COMPOUND in both tables. */
  lemma CompoundPrecedence(op: TokenType)
    requires IsCompound(op)
    ensures SetupRules(op).precedence == PREC_COMPOUND && CorrectedRules(op).precedence == PREC_COMPOUND
  {
  }

  /** `x++` and `x--` become `x = x + 1` and `x = x - 1`, consuming nothing more. */
  lemma IncrementAddsOne(rules: TokenType -> Rule, ts: seq<Tok>, st: PState, left: Expr)
    requires Sane(rules) && Ok(ts, st) && st.prev < st.pos && (ts[st.prev].kind == PlusPlus || ts[st.prev].kind == MinusMinus)
    ensures RuleCompound(rules, ts, st, left)
      == (Go, Assign(left, BinaryOp(left, Literal(Fixed(ONE)), if ts[st.prev].kind == PlusPlus then Plus else Minus, true)), st)
  {
  }

  /**
   * `x op= e` becomes `x = x op e`, the right operand parsed one level above
   * the operator's precedence; the left operand appears twice, shared.
   */
  lemma CompoundAssigns(rules: TokenType -> Rule, ts: seq<Tok>, st: PState, left: Expr, right: Expr, s: PState)
    requires Sane(rules) && Ok(ts, st) && st.prev < st.pos && IsCompound(ts[st.prev].kind)
    requires ts[st.prev].kind != PlusPlus && ts[st.prev].kind != MinusMinus
    requires ParsePrecedence(rules, ts, st, Above(RuleOf(rules, ts[st.prev].kind).precedence), true) == (Go, right, s)
    ensures RuleCompound(rules, ts, st, left) == (Go, Assign(left, BinaryOp(left, right, ConvertCompoundOp(ts[st.prev].kind), true)), s)
  {
  }

  /** `a ! is B`: the `is` test, negated. */
  lemma NotIs(rules: TokenType -> Rule, ts: seq<Tok>, st: PState, left: Expr, right: Expr, s: PState)
    requires Sane(rules) && Ok(ts, st) && st.prev < st.pos && st.pos + 1 < |ts| && ts[st.prev].kind == Bang
    requires ts[st.pos].kind == Is && ts[st.pos + 1].kind != Error
    requires ParsePrecedence(rules, ts, st.(prev := st.pos, pos := st.pos + 1), Above(RuleOf(rules, Is).precedence), true) == (Go, right, s)
    ensures RuleBinary(rules, ts, st, left) == (Go, UnaryOp(BinaryOp(left, right, Is, false), Bang), s)
  {
    AdvanceClean(ts, st);
  }

  /**
   * A `!` in infix position must be followed by `is`: before a statement
   * keyword, the error is reported and the parser unwinds to that statement.
   */
  lemma BangWithoutIs(rules: TokenType -> Rule, ts: seq<Tok>, st: PState, left: Expr)
    requires Sane(rules) && Ok(ts, st) && st.prev < st.pos && ts[st.prev].kind == Bang && SyncPoint(ts[st.pos].kind) && !st.panicMode
    ensures RuleBinary(rules, ts, st, left) == (Unwind, Missing, st.(errors := st.errors + [ExpectationUnmet(IsAfterBang)], hadError := true))
  {
    SyncStops(ts, st.(errors := st.errors + [ExpectationUnmet(IsAfterBang)], hadError := true));
  }

  /** lit_parser_sync stops before a statement keyword without advancing. */
  lemma SyncStops(ts: seq<Tok>, st: PState)
    requires Ok(ts, st) && SyncPoint(ts[st.pos].kind)
    ensures Sync(ts, st) == (Unwind, st.(panicMode := false))
  {
  }

  // ---------------------------------------------------------------------
  // Arguments and parameters
  // ---------------------------------------------------------------------

  /** More than 255 arguments are reported as TOO_MANY_FUNCTION_ARGS, with their count. */
  lemma TooManyArguments(rules: TokenType -> Rule, ts: seq<Tok>, st: PState, callee: Expr, args: seq<Expr>, s: PState)
    requires Sane(rules) && Ok(ts, st) && st.prev < st.pos
    requires CallArgs(rules, ts, st, []) == (Go, args, s) && |args| > 255 && !s.panicMode
    ensures RuleCall(rules, ts, st, callee).2.hadError
    ensures s.errors + [TooManyFunctionArgs(|args|)] <= RuleCall(rules, ts, st, callee).2.errors
  {
  }

  /** Up to 255 arguments, the call is built once its `)` is consumed. */
  lemma CallBuilt(rules: TokenType -> Rule, ts: seq<Tok>, st: PState, callee: Expr, args: seq<Expr>, s: PState)
    requires Sane(rules) && Ok(ts, st) && st.prev < st.pos
    requires CallArgs(rules, ts, st, []) == (Go, args, s) && |args| <= 255 && ts[s.pos].kind == RightParen
    requires s.pos + 1 < |ts| && ts[s.pos + 1].kind != Error
    ensures RuleCall(rules, ts, st, callee) == (Go, Call(callee, args), s.(prev := s.pos, pos := s.pos + 1))
  {
    AdvanceClean(ts, s);
  }

  /** A `...` argument followed by a comma ends the argument list. */
  lemma SpreadEndsArguments(rules: TokenType -> Rule, ts: seq<Tok>, st: PState, args: seq<Expr>, s: PState)
    requires Sane(rules) && Ok(ts, st) && ts[st.pos].kind != RightParen
    requires ParseExpression(rules, ts, st) == (Go, Variable("..."), s)
    requires s.pos + 1 < |ts| && ts[s.pos].kind == Comma && ts[s.pos + 1].kind != Error
    ensures CallArgs(rules, ts, st, args) == (Go, args + [Variable("...")], s.(prev := s.pos, pos := s.pos + 1))
  {
    AdvanceClean(ts, s);
  }

  /** `...` is the last parameter: the list ends after it, whatever follows. */
  lemma VarargEndsParameters(rules: TokenType -> Rule, ts: seq<Tok>, st: PState, ps: seq<Param>, hadDefault: bool)
    requires Sane(rules) && Ok(ts, st) && st.pos + 1 < |ts| && ts[st.pos].kind == DotDotDot && ts[st.pos + 1].kind != Error
    ensures ParseParameters(rules, ts, st, ps, hadDefault) == (Go, ps + [Param("...", Missing)], st.(prev := st.pos, pos := st.pos + 1))
  {
    AdvanceClean(ts, st);
  }

  /** A parameter without a default after one with a default is DEFAULT_ARG_CENTRED. */
  lemma DefaultCentred(rules: TokenType -> Rule, ts: seq<Tok>, st: PState)
    requires Sane(rules) && Ok(ts, st) && !st.panicMode
    ensures DefaultValue(rules, ts, st, false, true).1 == Missing
    ensures st.errors + [DefaultArgCentred] <= DefaultValue(rules, ts, st, false, true).2.errors
  {
  }

  /** Parameters without defaults, or all with defaults, raise nothing at their defaults. */
  lemma DefaultAllowed(rules: TokenType -> Rule, ts: seq<Tok>, st: PState)
    requires Sane(rules) && Ok(ts, st)
    ensures DefaultValue(rules, ts, st, false, false) == (Go, Missing, st)
    ensures DefaultValue(rules, ts, st, true, true) == ParseExpression(rules, ts, st)
  {
  }

  /** More than 255 parameters are reported as TOO_MANY_FUNCTION_ARGS, with their count; the list is kept. */
  lemma TooManyParameters(rules: TokenType -> Rule, ts: seq<Tok>, st: PState, ps: seq<Param>, s: PState)
    requires Sane(rules) && Ok(ts, st)
    requires ParseParameters(rules, ts, st, [], false) == (Go, ps, s) && |ps| > 255 && !s.panicMode
    ensures ParameterList(rules, ts, st).1 == ps
    ensures s.errors + [TooManyFunctionArgs(|ps|)] <= ParameterList(rules, ts, st).2.errors
  {
    var (f1, s1) := Raise(ts, s, TooManyFunctionArgs(|ps|));
    assert ParameterList(rules, ts, st) == (f1, ps, s1);
  }
}
