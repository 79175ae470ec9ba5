/**
 * The lexer of ccscan.c. The scanner walks a NUL-terminated source buffer
 * with two cursors (start of the current token, current character), counts
 * lines, and keeps a small stack of brace counters for nested string
 * interpolation ("$\"a {b} c\""). Positions are indices into the buffer.
 *
 * The value-level functions below (SkipFrom, ScanStr, IdentEnd, NumberEnd,
 * Punct, Step) state what one call of each scanner routine computes; the
 * Scanner class performs the same work step by step and its methods are
 * proved against them.
 *
 * Three of them are the corrected behaviour, each beside a member or lemma
 * for the source as written: keywords are typed by the corrected trie
 * IdentType (IdentTypeAsWritten gives "rxf" the REF token), a block comment
 * left open stops at the NUL (BlockResume), and a binary number is the
 * value of its own digits (NumberLiteral, against LiteralAsWritten).
 */
module Scan {
  import opened Lit
  import opened Wrappers

  /** LitTokType */
  datatype TokenType =
    | NewLine | LeftParen | RightParen | LeftBrace | RightBrace | LeftBracket | RightBracket
    | Comma | Semicolon | Colon
    | BarEqual | Bar | BarBar | AmpersandEqual | Ampersand | AmpersandAmpersand
    | Bang | BangEqual | Equal | EqualEqual | Greater | GreaterEqual | GreaterGreater
    | Less | LessEqual | LessLess | Plus | PlusEqual | PlusPlus | Minus | MinusEqual | MinusMinus
    | Star | StarEqual | StarStar | Slash | SlashEqual | Question | QuestionQuestion
    | Percent | PercentEqual | Arrow | SmallArrow | Tilde | Caret | CaretEqual
    | Dot | DotDot | DotDotDot | Sharp | SharpEqual
    | Identifier | String | Interpolation | Number
    | Class | Else | False | For | Function | If | Null | Return | Super | This | True | Var | While
    | Continue | Break | New | Export | Is | Static | Operator | Get | Set | In | Const | Ref
    | Error | Eof

  /** The lexical errors a scanner reports (LITERROR_*), with the character the message quotes. */
  datatype LexError =
    | UnexpectedChar(c: char)
    | UnterminatedString
    | InvalidEscapeChar(c: char)
    | InterpolationNestingTooDeep
    | CharExpectationUnmet(found: char)
    | NumberIsTooBig

  /**
   * The payload of a token: the decoded bytes of a string segment, the
   * integer a hex or binary number denotes, or nothing.
   */
  datatype TokenValue = NoValue | Text(bytes: seq<char>) | IntegerValue(n: int)

  /**
   * A token of the source (start, length and line as lit_lex_maketoken
   * records them), or an error token, whose text is a formatted message
   * about the error.
   */
  datatype Token =
    | Lexeme(kind: TokenType, start: nat, length: nat, line: int, value: TokenValue)
    | ErrorToken(error: LexError, line: int)

  /** A C string: the buffer ends with its NUL. */
  predicate Terminated(src: seq<char>)
  {
    |src| > 0 && src[|src| - 1] == '\0'
  }

  /** Any character other than NUL has a successor in a terminated buffer. */
  lemma Successor(src: seq<char>, i: nat)
    requires Terminated(src) && i < |src| && src[i] != '\0'
    ensures i + 1 < |src|
  {
  }

  // ---------------------------------------------------------------------
  // Whitespace and comments (lit_lex_skipspace)
  // ---------------------------------------------------------------------

  predicate IsBlank(c: char) { c == ' ' || c == '\r' || c == '\t' }

  /** The index of the first '\n' or NUL at or after j: where a line comment stops. */
  function LineEnd(src: seq<char>, j: nat): (k: nat)
    requires Terminated(src) && j < |src|
    ensures j <= k < |src| && (src[k] == '\n' || src[k] == '\0')
    ensures forall m :: j <= m < k ==> src[m] != '\n' && src[m] != '\0'
    decreases |src| - j
  {
    if src[j] == '\n' || src[j] == '\0' then j else LineEnd(src, j + 1)
  }

  /** Where the scan of a block comment's body stops, and the newlines it passed. */
  datatype Stop = Stop(at: nat, newlines: nat)

  /** A block comment's body ends at "*" followed by "/", or at the NUL. */
  predicate BlockStop(src: seq<char>, k: nat)
    requires Terminated(src) && k < |src|
  {
    src[k] == '\0' || (src[k] == '*' && src[k + 1] == '/')
  }

  /** The number of '\n' characters in src[j..k]. */
  function Newlines(src: seq<char>, j: nat, k: nat): nat
    requires j <= k <= |src|
    decreases k - j
  {
    if j == k then 0 else (if src[j] == '\n' then 1 else 0) + Newlines(src, j + 1, k)
  }

  /** The first stop at or after j, and the newlines of the comment body before it. */
  function BlockEnd(src: seq<char>, j: nat): (r: Stop)
    requires Terminated(src) && j < |src|
    ensures j <= r.at < |src| && BlockStop(src, r.at)
    ensures forall m :: j <= m < r.at ==> !BlockStop(src, m)
    ensures r.newlines == Newlines(src, j, r.at)
    decreases |src| - j
  {
    if BlockStop(src, j) then Stop(j, 0)
    else
      var r := BlockEnd(src, j + 1);
      Stop(r.at, r.newlines + if src[j] == '\n' then 1 else 0)
  }

  /**
   * Where lit_lex_skipspace resumes after a block comment whose body stopped
   * at k, AS WRITTEN: it always steps over two characters, the closing
   * star and slash or, for an unterminated comment, the NUL and whatever
   * follows it.
   */
  function BlockResumeAsWritten(k: nat): nat
  {
    k + 2
  }

  /** The corrected resume point: past the closing star and slash, or at the NUL. */
  function BlockResume(src: seq<char>, k: nat): (r: nat)
    requires Terminated(src) && k < |src| && BlockStop(src, k)
    ensures k <= r < |src|
    ensures src[r] == '\0' || (r > 0 && src[r - 1] == '/')
  {
    if src[k] == '\0' then k else k + 2
  }

  /** A comment opener with nothing after it: the as-written resume point lies past the buffer. */
  lemma UnterminatedCommentOverruns()
    ensures Terminated("/*\0") && BlockEnd("/*\0", 2).at == 2
    ensures BlockResumeAsWritten(BlockEnd("/*\0", 2).at) == |"/*\0"| + 1
    ensures BlockResume("/*\0", BlockEnd("/*\0", 2).at) == |"/*\0"| - 1
  {
    var src := "/*\0";
    assert BlockStop(src, 2);
  }

  /** A comment-free run of blanks: what lit_lex_skipspace stops at. */
  datatype Skip = Skip(end: nat, newlines: nat, newline: bool)

  /** Whether a comment starts at i. */
  predicate CommentStart(src: seq<char>, i: nat)
    requires Terminated(src) && i < |src|
  {
    src[i] == '/' && (src[i + 1] == '/' || src[i + 1] == '*')
  }

  /**
   * What lit_lex_skipspace does from i: it skips blanks, line comments
   * (up to their newline) and block comments (counting the newlines inside
   * them), and stops either just after a newline, whose index is then the
   * new token start, or at the first character that is none of these.
   */
  function SkipFrom(src: seq<char>, i: nat): (r: Skip)
    requires Terminated(src) && i < |src|
    ensures i <= r.end < |src|
    ensures r.newline ==> i < r.end && src[r.end - 1] == '\n'
    decreases |src| - i
  {
    var c := src[i];
    if IsBlank(c) then SkipFrom(src, i + 1)
    else if c == '\n' then Skip(i + 1, 0, true)
    else if c == '/' && src[i + 1] == '/' then
      SkipFrom(src, LineEnd(src, i))
    else if c == '/' && src[i + 1] == '*' then
      var b := BlockEnd(src, i + 2);
      var r := SkipFrom(src, BlockResume(src, b.at));
      Skip(r.end, b.newlines + r.newlines, r.newline)
    else Skip(i, 0, false)
  }

  /** Without a newline, the skip stops at a character that is no blank, no newline and no comment opener. */
  lemma {:induction false} SkipFromStops(src: seq<char>, i: nat)
    requires Terminated(src) && i < |src|
    ensures var r := SkipFrom(src, i);
      !r.newline ==> !IsBlank(src[r.end]) && src[r.end] != '\n' && !CommentStart(src, r.end)
    decreases |src| - i
  {
    var c := src[i];
    if IsBlank(c) {
      SkipFromStops(src, i + 1);
    } else if c == '/' && src[i + 1] == '/' {
      SkipFromStops(src, LineEnd(src, i));
    } else if c == '/' && src[i + 1] == '*' {
      SkipFromStops(src, BlockResume(src, BlockEnd(src, i + 2).at));
    }
  }

  /** Block comments count their newlines; the newline after a line comment ends the skip. */
  lemma SkipExamples()
    ensures SkipFrom("/*\n\n*/x\0", 0) == Skip(6, 2, false)
    ensures SkipFrom("  // c\nx\0", 0) == Skip(7, 0, true)
    ensures SkipFrom(" \t/\0", 0) == Skip(2, 0, false)
  {
    var a := "/*\n\n*/x\0";
    assert BlockEnd(a, 4) == Stop(4, 0);
    assert BlockEnd(a, 2) == Stop(4, 2);
    var b := "  // c\nx\0";
    assert LineEnd(b, 2) == 6 by {
      assert LineEnd(b, 6) == 6;
    }
    assert SkipFrom(b, 6) == Skip(7, 0, true);
  }

  // ---------------------------------------------------------------------
  // String literals (lit_lex_scanstring)
  // ---------------------------------------------------------------------

  /** The byte an escape "\e" stands for, or None for an invalid escape. */
  function Escape(e: char): (r: Option<char>)
  {
    match e
    case '"' => Some('"')
    case '\\' => Some('\\')
    case '0' => Some('\0')
    case '{' => Some('{')
    case 'a' => Some('\U{7}')
    case 'b' => Some('\U{8}')
    case 'f' => Some('\U{c}')
    case 'n' => Some('\n')
    case 'r' => Some('\r')
    case 't' => Some('\t')
    case 'v' => Some('\U{b}')
    case _ => None
  }

  /** Characters a string literal can only hold through an escape. */
  predicate NeedsEscape(d: char)
  {
    d in {'"', '\\', '\0', '{', '\U{7}', '\U{8}', '\U{c}', '\n', '\r', '\t', '\U{b}'}
  }

  /** The escape letter for a character that needs one. */
  function EscapeLetter(d: char): (e: char)
    requires NeedsEscape(d)
  {
    match d
    case '"' => '"'
    case '\\' => '\\'
    case '\0' => '0'
    case '{' => '{'
    case '\U{7}' => 'a'
    case '\U{8}' => 'b'
    case '\U{c}' => 'f'
    case '\n' => 'n'
    case '\r' => 'r'
    case '\t' => 't'
    case '\U{b}' => 'v'
  }

  /** The table of escapes is one-to-one: decoding and EscapeLetter are inverse. */
  lemma EscapeInverse(e: char, d: char)
    ensures Escape(e) == Some(d) <==> NeedsEscape(d) && EscapeLetter(d) == e
  {
  }

  /** Escape letters are never NUL, so an escape always leaves a character to read. */
  lemma EscapeNotNul(e: char)
    requires Escape(e).Some?
    ensures e != '\0'
  {
  }

  /** The outcome of scanning a string body: the closing delimiter or an error. */
  datatype StrOutcome =
    | Closed(bytes: seq<char>, end: nat, newlines: nat, interpolated: bool)
    | Failed(error: LexError, end: nat, newlines: nat)

  /** Prefixes a decoded byte (and the newline it may be) to the rest of the scan. */
  function Prepend(d: char, nl: nat, r: StrOutcome): StrOutcome
  {
    match r
    case Closed(bytes, end, n, interp) => Closed([d] + bytes, end, n + nl, interp)
    case Failed(err, end, n) => Failed(err, end, n + nl)
  }

  /**
   * The scan of a string body from i: '"' closes it; in an interpolated
   * string '{' closes the segment, unless the brace stack is full, which is
   * an error; the NUL is an unterminated string; a backslash starts an
   * escape; a raw newline is kept and counted; any other character is kept.
   * end is the position after the last character read.
   */
  function ScanStr(src: seq<char>, i: nat, interpolation: bool, full: bool): (r: StrOutcome)
    requires Terminated(src) && i < |src|
    ensures i < r.end <= |src|
    ensures r.end == |src| ==> r.Failed?
    ensures r.Closed? && r.interpolated ==> interpolation && !full
    decreases |src| - i
  {
    var c := src[i];
    if c == '"' then Closed([], i + 1, 0, false)
    else if interpolation && c == '{' then
      if full then Failed(InterpolationNestingTooDeep, i + 1, 0) else Closed([], i + 1, 0, true)
    else if c == '\0' then Failed(UnterminatedString, i + 1, 0)
    else if c == '\\' then
      var e := src[i + 1];
      match Escape(e)
      case None => Failed(InvalidEscapeChar(e), i + 2, 0)
      case Some(d) =>
        EscapeNotNul(e);
        Prepend(d, 0, ScanStr(src, i + 2, interpolation, full))
    else Prepend(c, if c == '\n' then 1 else 0, ScanStr(src, i + 1, interpolation, full))
  }

  /** The text of a literal that spells the bytes s: each byte that needs it is escaped. */
  function Quote(s: seq<char>): (q: seq<char>)
    ensures |q| >= |s|
  {
    if s == [] then []
    else (if NeedsEscape(s[0]) then ['\\', EscapeLetter(s[0])] else [s[0]]) + Quote(s[1..])
  }

  /** One escape step of the scan. */
  lemma ScanStrEscape(src: seq<char>, i: nat, interpolation: bool, full: bool, d: char)
    requires Terminated(src) && i + 1 < |src| && src[i] == '\\' && Escape(src[i + 1]) == Some(d)
    ensures i + 2 < |src|
    ensures ScanStr(src, i, interpolation, full) == Prepend(d, 0, ScanStr(src, i + 2, interpolation, full))
  {
    EscapeNotNul(src[i + 1]);
  }

  /** One plain step of the scan: a character that needs no escape is kept. */
  lemma ScanStrPlain(src: seq<char>, i: nat, interpolation: bool, full: bool)
    requires Terminated(src) && i < |src| && !NeedsEscape(src[i])
    ensures i + 1 < |src|
    ensures ScanStr(src, i, interpolation, full) == Prepend(src[i], 0, ScanStr(src, i + 1, interpolation, full))
  {
  }

  /** One raw step of the scan: an ordinary character or newline is kept, and a newline counted. */
  lemma ScanStrRaw(src: seq<char>, i: nat, interpolation: bool, full: bool)
    requires Terminated(src) && i < |src|
    requires var c := src[i]; c != '"' && c != '\\' && c != '\0' && !(interpolation && c == '{')
    ensures i + 1 < |src|
    ensures ScanStr(src, i, interpolation, full) ==
      Prepend(src[i], if src[i] == '\n' then 1 else 0, ScanStr(src, i + 1, interpolation, full))
  {
  }

  /**
   * Round trip: a literal written with Quote scans back to exactly the
   * bytes it spells, in either mode, with no newline counted, ending just
   * after the closing quote.
   */
  lemma {:induction false} QuoteRoundTrip(src: seq<char>, i: nat, s: seq<char>, interpolation: bool, full: bool)
    requires Terminated(src) && i + |Quote(s)| < |src|
    requires src[i..i + |Quote(s)| + 1] == Quote(s) + ['"']
    ensures ScanStr(src, i, interpolation, full) == Closed(s, i + |Quote(s)| + 1, 0, false)
    decreases |s|
  {
    if s == [] {
      assert src[i] == (Quote(s) + ['"'])[0];
    } else {
      QuoteStep(src, i, s, interpolation, full);
      var w := if NeedsEscape(s[0]) then 2 else 1;
      QuoteRoundTrip(src, i + w, s[1..], interpolation, full);
      assert [s[0]] + s[1..] == s;
    }
  }

  /** The first byte of a quoted literal scans back to itself, and the rest of the literal follows it. */
  lemma QuoteStep(src: seq<char>, i: nat, s: seq<char>, interpolation: bool, full: bool)
    requires Terminated(src) && s != [] && i + |Quote(s)| < |src|
    requires src[i..i + |Quote(s)| + 1] == Quote(s) + ['"']
    ensures var w := if NeedsEscape(s[0]) then 2 else 1;
      i + w + |Quote(s[1..])| < |src| && src[i + w..i + w + |Quote(s[1..])| + 1] == Quote(s[1..]) + ['"'] &&
      ScanStr(src, i, interpolation, full) == Prepend(s[0], 0, ScanStr(src, i + w, interpolation, full))
  {
    var q := Quote(s);
    var t := src[i..i + |q| + 1];
    var head := if NeedsEscape(s[0]) then ['\\', EscapeLetter(s[0])] else [s[0]];
    assert q == head + Quote(s[1..]);
    var w := |head|;
    assert src[i + w..i + |q| + 1] == Quote(s[1..]) + ['"'] by {
      assert src[i + w..i + |q| + 1] == t[w..];
    }
    assert src[i] == t[0];
    if NeedsEscape(s[0]) {
      assert src[i + 1] == t[1];
      EscapeInverse(src[i + 1], s[0]);
      ScanStrEscape(src, i, interpolation, full, s[0]);
    } else {
      ScanStrPlain(src, i, interpolation, full);
    }
  }

  /** With no quote, no backslash and (when interpolating) no brace left, the scan runs into the NUL. */
  lemma {:induction false} Unterminated(src: seq<char>, i: nat, interpolation: bool, full: bool)
    requires Terminated(src) && i < |src|
    requires forall k :: i <= k < |src| - 1 ==>
      src[k] != '"' && src[k] != '\\' && src[k] != '\0' && (interpolation ==> src[k] != '{')
    ensures var r := ScanStr(src, i, interpolation, full);
      r.Failed? && r.error == UnterminatedString && r.end == |src|
    decreases |src| - i
  {
    if src[i] != '\0' {
      Unterminated(src, i + 1, interpolation, full);
    }
  }

  // ---------------------------------------------------------------------
  // Identifiers and keywords (lit_lex_scanidentifier, lit_lex_scanidenttype)
  // ---------------------------------------------------------------------

  predicate IsIdentChar(c: char) { IsAlpha(c) || IsDigit(c) }

  /** The end of the run of letters, digits and '_' starting at j. */
  function IdentEnd(src: seq<char>, j: nat): (k: nat)
    requires Terminated(src) && j < |src|
    ensures j <= k < |src| && !IsIdentChar(src[k])
    ensures forall m :: j <= m < k ==> IsIdentChar(src[m])
    decreases |src| - j
  {
    if IsIdentChar(src[j]) then IdentEnd(src, j + 1) else j
  }

  /** The reserved words of the language and their tokens. */
  const KEYWORDS: map<seq<char>, TokenType> := map[
    "break" := Break, "class" := Class, "const" := Const, "continue" := Continue,
    "else" := Else, "export" := Export, "false" := False, "for" := For,
    "function" := Function, "is" := Is, "if" := If, "in" := In, "null" := Null,
    "new" := New, "ref" := Ref, "return" := Return, "operator" := Operator,
    "super" := Super, "static" := Static, "set" := Set, "this" := This,
    "true" := True, "var" := Var, "while" := While, "get" := Get]

  /** The token an identifier's text gets: its keyword's token, or IDENTIFIER. */
  function KeywordKind(text: seq<char>): TokenType
  {
    if text in KEYWORDS then KEYWORDS[text] else Identifier
  }

  /**
   * lit_lex_checkkeyword: the text is the keyword when it is exactly
   * start + |rest| long and its tail from start is rest (the C length
   * argument is always |rest|).
   */
  function CheckKeyword(text: seq<char>, start: nat, rest: seq<char>, kind: TokenType): (r: TokenType)
    ensures r != Identifier ==> r == kind && |text| == start + |rest| && text[start..] == rest
  {
    if |text| == start + |rest| && text[start..] == rest then kind else Identifier
  }

  /**
   * lit_lex_scanidenttype AS WRITTEN: a trie on the first characters. The
   * 'r' branch tests the third character without testing the second, so
   * "rxf" passes for "ref" and "rxturn" for "return".
   */
  function IdentTypeAsWritten(text: seq<char>): TokenType
    requires |text| >= 1
  {
    var n := |text|;
    match text[0]
    case 'b' => CheckKeyword(text, 1, "reak", Break)
    case 'c' =>
      if n > 1 then
        (match text[1]
        case 'l' => CheckKeyword(text, 2, "ass", Class)
        case 'o' =>
          if n > 3 then
            (match text[3]
            case 's' => CheckKeyword(text, 2, "nst", Const)
            case 't' => CheckKeyword(text, 2, "ntinue", Continue)
            case _ => Identifier)
          else Identifier
        case _ => Identifier)
      else Identifier
    case 'e' =>
      if n > 1 then
        (match text[1]
        case 'l' => CheckKeyword(text, 2, "se", Else)
        case 'x' => CheckKeyword(text, 2, "port", Export)
        case _ => Identifier)
      else Identifier
    case 'f' =>
      if n > 1 then
        (match text[1]
        case 'a' => CheckKeyword(text, 2, "lse", False)
        case 'o' => CheckKeyword(text, 2, "r", For)
        case 'u' => CheckKeyword(text, 2, "nction", Function)
        case _ => Identifier)
      else Identifier
    case 'i' =>
      if n > 1 then
        (match text[1]
        case 's' => CheckKeyword(text, 2, "", Is)
        case 'f' => CheckKeyword(text, 2, "", If)
        case 'n' => CheckKeyword(text, 2, "", In)
        case _ => Identifier)
      else Identifier
    case 'n' =>
      if n > 1 then
        (match text[1]
        case 'u' => CheckKeyword(text, 2, "ll", Null)
        case 'e' => CheckKeyword(text, 2, "w", New)
        case _ => Identifier)
      else Identifier
    case 'r' =>
      if n > 2 then
        (match text[2]
        case 'f' => CheckKeyword(text, 3, "", Ref)
        case 't' => CheckKeyword(text, 3, "urn", Return)
        case _ => Identifier)
      else Identifier
    case 'o' => CheckKeyword(text, 1, "perator", Operator)
    case 's' =>
      if n > 1 then
        (match text[1]
        case 'u' => CheckKeyword(text, 2, "per", Super)
        case 't' => CheckKeyword(text, 2, "atic", Static)
        case 'e' => CheckKeyword(text, 2, "t", Set)
        case _ => Identifier)
      else Identifier
    case 't' =>
      if n > 1 then
        (match text[1]
        case 'h' => CheckKeyword(text, 2, "is", This)
        case 'r' => CheckKeyword(text, 2, "ue", True)
        case _ => Identifier)
      else Identifier
    case 'v' => CheckKeyword(text, 1, "ar", Var)
    case 'w' => CheckKeyword(text, 1, "hile", While)
    case 'g' => CheckKeyword(text, 1, "et", Get)
    case _ => Identifier
  }

  /** "rxf" and "rxturn" are no keywords, yet the trie as written gives them REF and RETURN. */
  lemma SecondLetterOfRefUnchecked()
    ensures "rxf" !in KEYWORDS && IdentTypeAsWritten("rxf") == Ref
    ensures "rxturn" !in KEYWORDS && IdentTypeAsWritten("rxturn") == Return
    ensures IdentType("rxf") == Identifier && IdentType("rxturn") == Identifier
  {
    assert "rxf"[3..] == "";
    assert "rxturn"[3..] == "urn";
  }

  /** The corrected trie: the 'r' branch also requires 'e' as the second character. */
  function IdentType(text: seq<char>): (r: TokenType)
    requires |text| >= 1
  {
    if text[0] == 'r' && |text| > 1 && text[1] != 'e' then Identifier else IdentTypeAsWritten(text)
  }

  /**
   * The corrected trie recognises exactly the keyword table: a text equal to
   * a keyword gets its token, every other text (a prefix of a keyword, a
   * keyword with more after it) is IDENTIFIER.
   */
  lemma IdentTypeIsKeywordLookup(text: seq<char>)
    requires |text| >= 1
    ensures IdentType(text) == KeywordKind(text)
  {
    var r := IdentType(text);
    if r != Identifier {
      KeywordOfTrie(text);
    } else if text in KEYWORDS {
      KeywordInTrie(text);
    }
  }

  /** A text that agrees with w on its first s characters and on everything after them is w. */
  lemma SpellOut(text: seq<char>, s: nat, w: seq<char>)
    requires s <= |w| && |text| == |w| && text[s..] == w[s..]
    requires forall k :: 0 <= k < s ==> text[k] == w[k]
    ensures text == w
  {
    forall k | s <= k < |w|
      ensures text[k] == w[k]
    {
      assert text[k] == text[s..][k - s];
    }
  }

  /** The keywords starting with 'b' are in the table and the corrected trie recognises them. */
  lemma KnownKeywordsB()
    ensures "break" in KEYWORDS && KEYWORDS["break"] == Break && IdentType("break") == Break
  {
    assert "break"[1..] == "reak";
  }

  /** The keywords starting with 'c' are in the table and the corrected trie recognises them. */
  lemma KnownKeywordsC()
    ensures "class" in KEYWORDS && KEYWORDS["class"] == Class && IdentType("class") == Class
  {
    assert "class"[2..] == "ass";
  }

  /** More keywords starting with 'c'. */
  lemma KnownKeywordsC2()
    ensures "const" in KEYWORDS && KEYWORDS["const"] == Const && IdentType("const") == Const
    ensures "continue" in KEYWORDS && KEYWORDS["continue"] == Continue && IdentType("continue") == Continue
  {
    assert "const"[2..] == "nst";
    assert "continue"[2..] == "ntinue";
  }

  /** The keywords starting with 'e' are in the table and the corrected trie recognises them. */
  lemma KnownKeywordsE()
    ensures "else" in KEYWORDS && KEYWORDS["else"] == Else && IdentType("else") == Else
  {
    assert "else"[2..] == "se";
  }

  /** More keywords starting with 'e'. */
  lemma KnownKeywordsE2()
    ensures "export" in KEYWORDS && KEYWORDS["export"] == Export && IdentType("export") == Export
  {
    assert "export"[2..] == "port";
  }

  /** The keywords starting with 'f' are in the table and the corrected trie recognises them. */
  lemma KnownKeywordsF()
    ensures "false" in KEYWORDS && KEYWORDS["false"] == False && IdentType("false") == False
  {
    assert "false"[2..] == "lse";
  }

  /** More keywords starting with 'f'. */
  lemma KnownKeywordsF2()
    ensures "for" in KEYWORDS && KEYWORDS["for"] == For && IdentType("for") == For
    ensures "function" in KEYWORDS && KEYWORDS["function"] == Function && IdentType("function") == Function
  {
    assert "for"[2..] == "r";
    assert "function"[2..] == "nction";
  }

  /** The keywords starting with 'i' are in the table and the corrected trie recognises them. */
  lemma KnownKeywordsI()
    ensures "is" in KEYWORDS && KEYWORDS["is"] == Is && IdentType("is") == Is
  {
    assert "is"[2..] == "";
  }

  /** More keywords starting with 'i'. */
  lemma KnownKeywordsI2()
    ensures "if" in KEYWORDS && KEYWORDS["if"] == If && IdentType("if") == If
    ensures "in" in KEYWORDS && KEYWORDS["in"] == In && IdentType("in") == In
  {
    assert "if"[2..] == "";
    assert "in"[2..] == "";
  }

  /** The keywords starting with 'n' are in the table and the corrected trie recognises them. */
  lemma KnownKeywordsN()
    ensures "null" in KEYWORDS && KEYWORDS["null"] == Null && IdentType("null") == Null
    ensures "new" in KEYWORDS && KEYWORDS["new"] == New && IdentType("new") == New
  {
    assert "null"[2..] == "ll";
    assert "new"[2..] == "w";
  }

  /** The keywords starting with 'r' are in the table and the corrected trie recognises them. */
  lemma KnownKeywordsR()
    ensures "ref" in KEYWORDS && KEYWORDS["ref"] == Ref && IdentType("ref") == Ref
    ensures "return" in KEYWORDS && KEYWORDS["return"] == Return && IdentType("return") == Return
  {
    assert "ref"[3..] == "";
    assert "return"[3..] == "urn";
  }

  /** The keywords starting with 'o' are in the table and the corrected trie recognises them. */
  lemma KnownKeywordsO()
    ensures "operator" in KEYWORDS && KEYWORDS["operator"] == Operator && IdentType("operator") == Operator
  {
    assert "operator"[1..] == "perator";
  }

  /** The keywords starting with 's' are in the table and the corrected trie recognises them. */
  lemma KnownKeywordsS()
    ensures "super" in KEYWORDS && KEYWORDS["super"] == Super && IdentType("super") == Super
    ensures "static" in KEYWORDS && KEYWORDS["static"] == Static && IdentType("static") == Static
    ensures "set" in KEYWORDS && KEYWORDS["set"] == Set && IdentType("set") == Set
  {
    assert "super"[2..] == "per";
    assert "static"[2..] == "atic";
    assert "set"[2..] == "t";
  }

  /** The keywords starting with 't' are in the table and the corrected trie recognises them. */
  lemma KnownKeywordsT()
    ensures "this" in KEYWORDS && KEYWORDS["this"] == This && IdentType("this") == This
    ensures "true" in KEYWORDS && KEYWORDS["true"] == True && IdentType("true") == True
  {
    assert "this"[2..] == "is";
    assert "true"[2..] == "ue";
  }

  /** The keywords starting with 'v' are in the table and the corrected trie recognises them. */
  lemma KnownKeywordsV()
    ensures "var" in KEYWORDS && KEYWORDS["var"] == Var && IdentType("var") == Var
  {
    assert "var"[1..] == "ar";
  }

  /** The keywords starting with 'w' are in the table and the corrected trie recognises them. */
  lemma KnownKeywordsW()
    ensures "while" in KEYWORDS && KEYWORDS["while"] == While && IdentType("while") == While
  {
    assert "while"[1..] == "hile";
  }

  /** The keywords starting with 'g' are in the table and the corrected trie recognises them. */
  lemma KnownKeywordsG()
    ensures "get" in KEYWORDS && KEYWORDS["get"] == Get && IdentType("get") == Get
  {
    assert "get"[1..] == "et";
  }
  /** Every non-IDENTIFIER answer of the corrected trie is the token of the keyword the text spells. */
  lemma KeywordOfTrie(text: seq<char>)
    requires |text| >= 1 && IdentType(text) != Identifier
    ensures text in KEYWORDS && KEYWORDS[text] == IdentType(text)
  {
    match text[0] {
      case 'b' => KeywordOfTrieB(text);
      case 'c' => KeywordOfTrieC(text);
      case 'e' => KeywordOfTrieE(text);
      case 'f' => KeywordOfTrieF(text);
      case 'i' => KeywordOfTrieI(text);
      case 'n' => KeywordOfTrieN(text);
      case 'r' => KeywordOfTrieR(text);
      case 'o' => KeywordOfTrieO(text);
      case 's' => KeywordOfTrieS(text);
      case 't' => KeywordOfTrieT(text);
      case 'v' => KeywordOfTrieV(text);
      case 'w' => KeywordOfTrieW(text);
      case 'g' => KeywordOfTrieG(text);
      case _ => assert false;
    }
  }

  /** The answers of the trie for texts starting with 'b'. */
  lemma KeywordOfTrieB(text: seq<char>)
    requires |text| >= 1 && text[0] == 'b' && IdentType(text) != Identifier
    ensures text in KEYWORDS && KEYWORDS[text] == IdentType(text)
  {
    var r := IdentType(text);
    KnownKeywordsB(); SpellOut(text, 1, "break");
  }

  /** The answers of the trie for texts starting with 'c'. */
  lemma KeywordOfTrieC(text: seq<char>)
    requires |text| >= 1 && text[0] == 'c' && IdentType(text) != Identifier
    ensures text in KEYWORDS && KEYWORDS[text] == IdentType(text)
  {
    var r := IdentType(text);
    KnownKeywordsC(); KnownKeywordsC2();
    if r == Class { SpellOut(text, 2, "class"); }
    else if r == Const { SpellOut(text, 2, "const"); }
    else { SpellOut(text, 2, "continue"); }
  }

  /** The answers of the trie for texts starting with 'e'. */
  lemma KeywordOfTrieE(text: seq<char>)
    requires |text| >= 1 && text[0] == 'e' && IdentType(text) != Identifier
    ensures text in KEYWORDS && KEYWORDS[text] == IdentType(text)
  {
    var r := IdentType(text);
    KnownKeywordsE(); KnownKeywordsE2();
    if r == Else { SpellOut(text, 2, "else"); } else { SpellOut(text, 2, "export"); }
  }

  /** The answers of the trie for texts starting with 'f'. */
  lemma KeywordOfTrieF(text: seq<char>)
    requires |text| >= 1 && text[0] == 'f' && IdentType(text) != Identifier
    ensures text in KEYWORDS && KEYWORDS[text] == IdentType(text)
  {
    var r := IdentType(text);
    KnownKeywordsF(); KnownKeywordsF2();
    if r == False { SpellOut(text, 2, "false"); }
    else if r == For { SpellOut(text, 2, "for"); }
    else { SpellOut(text, 2, "function"); }
  }

  /** The answers of the trie for texts starting with 'i'. */
  lemma KeywordOfTrieI(text: seq<char>)
    requires |text| >= 1 && text[0] == 'i' && IdentType(text) != Identifier
    ensures text in KEYWORDS && KEYWORDS[text] == IdentType(text)
  {
    var r := IdentType(text);
    KnownKeywordsI(); KnownKeywordsI2();
    if r == Is { SpellOut(text, 2, "is"); }
    else if r == If { SpellOut(text, 2, "if"); }
    else { SpellOut(text, 2, "in"); }
  }

  /** The answers of the trie for texts starting with 'n'. */
  lemma KeywordOfTrieN(text: seq<char>)
    requires |text| >= 1 && text[0] == 'n' && IdentType(text) != Identifier
    ensures text in KEYWORDS && KEYWORDS[text] == IdentType(text)
  {
    var r := IdentType(text);
    KnownKeywordsN();
    if r == Null { SpellOut(text, 2, "null"); } else { SpellOut(text, 2, "new"); }
  }

  /** The answers of the trie for texts starting with 'r'. */
  lemma KeywordOfTrieR(text: seq<char>)
    requires |text| >= 1 && text[0] == 'r' && IdentType(text) != Identifier
    ensures text in KEYWORDS && KEYWORDS[text] == IdentType(text)
  {
    var r := IdentType(text);
    KnownKeywordsR();
    if r == Ref { SpellOut(text, 3, "ref"); } else { SpellOut(text, 3, "return"); }
  }

  /** The answers of the trie for texts starting with 'o'. */
  lemma KeywordOfTrieO(text: seq<char>)
    requires |text| >= 1 && text[0] == 'o' && IdentType(text) != Identifier
    ensures text in KEYWORDS && KEYWORDS[text] == IdentType(text)
  {
    var r := IdentType(text);
    KnownKeywordsO(); SpellOut(text, 1, "operator");
  }

  /** The answers of the trie for texts starting with 's'. */
  lemma KeywordOfTrieS(text: seq<char>)
    requires |text| >= 1 && text[0] == 's' && IdentType(text) != Identifier
    ensures text in KEYWORDS && KEYWORDS[text] == IdentType(text)
  {
    var r := IdentType(text);
    KnownKeywordsS();
    if r == Super { SpellOut(text, 2, "super"); }
    else if r == Static { SpellOut(text, 2, "static"); }
    else { SpellOut(text, 2, "set"); }
  }

  /** The answers of the trie for texts starting with 't'. */
  lemma KeywordOfTrieT(text: seq<char>)
    requires |text| >= 1 && text[0] == 't' && IdentType(text) != Identifier
    ensures text in KEYWORDS && KEYWORDS[text] == IdentType(text)
  {
    var r := IdentType(text);
    KnownKeywordsT();
    if r == This { SpellOut(text, 2, "this"); } else { SpellOut(text, 2, "true"); }
  }

  /** The answers of the trie for texts starting with 'v'. */
  lemma KeywordOfTrieV(text: seq<char>)
    requires |text| >= 1 && text[0] == 'v' && IdentType(text) != Identifier
    ensures text in KEYWORDS && KEYWORDS[text] == IdentType(text)
  {
    var r := IdentType(text);
    KnownKeywordsV(); SpellOut(text, 1, "var");
  }

  /** The answers of the trie for texts starting with 'w'. */
  lemma KeywordOfTrieW(text: seq<char>)
    requires |text| >= 1 && text[0] == 'w' && IdentType(text) != Identifier
    ensures text in KEYWORDS && KEYWORDS[text] == IdentType(text)
  {
    var r := IdentType(text);
    KnownKeywordsW(); SpellOut(text, 1, "while");
  }

  /** The answers of the trie for texts starting with 'g'. */
  lemma KeywordOfTrieG(text: seq<char>)
    requires |text| >= 1 && text[0] == 'g' && IdentType(text) != Identifier
    ensures text in KEYWORDS && KEYWORDS[text] == IdentType(text)
  {
    var r := IdentType(text);
    KnownKeywordsG(); SpellOut(text, 1, "get");
  }

  /** A text in the keyword table is one of its keys. */
  lemma KeywordListed(text: seq<char>)
    requires text in KEYWORDS
    ensures text == "break" || text == "class" || text == "const" || text == "continue" || text == "else" || text == "export" || text == "false" || text == "for" || text == "function" || text == "is" || text == "if" || text == "in" || text == "null" || text == "new" || text == "ref" || text == "return" || text == "operator" || text == "super" || text == "static" || text == "set" || text == "this" || text == "true" || text == "var" || text == "while" || text == "get"
  {
  }

  /** Every keyword is recognised by the corrected trie. */
  lemma KeywordInTrie(text: seq<char>)
    requires text in KEYWORDS
    ensures |text| >= 1 && IdentType(text) == KEYWORDS[text]
  {
    KeywordListed(text);
    KnownKeywordsB();
    KnownKeywordsC();
    KnownKeywordsC2();
    KnownKeywordsE();
    KnownKeywordsE2();
    KnownKeywordsF();
    KnownKeywordsF2();
    KnownKeywordsI();
    KnownKeywordsI2();
    KnownKeywordsN();
    KnownKeywordsR();
    KnownKeywordsO();
    KnownKeywordsS();
    KnownKeywordsT();
    KnownKeywordsV();
    KnownKeywordsW();
    KnownKeywordsG();
  }

  // ---------------------------------------------------------------------
  // Operators and punctuation
  // ---------------------------------------------------------------------

  /**
   * The spelling of every operator and punctuation token the scanner
   * produces outside strings (the braces, which also drive interpolation,
   * are handled on their own); the empty text for every other token.
   */
  function Spelling(k: TokenType): seq<char>
  {
    match k
    case LeftParen => "("
    case RightParen => ")"
    case LeftBracket => "["
    case RightBracket => "]"
    case Semicolon => ";"
    case Comma => ","
    case Colon => ":"
    case Tilde => "~"
    case PlusEqual => "+="
    case PlusPlus => "++"
    case Plus => "+"
    case SmallArrow => "->"
    case MinusEqual => "-="
    case MinusMinus => "--"
    case Minus => "-"
    case SlashEqual => "/="
    case Slash => "/"
    case SharpEqual => "#="
    case Sharp => "#"
    case BangEqual => "!="
    case Bang => "!"
    case QuestionQuestion => "??"
    case Question => "?"
    case PercentEqual => "%="
    case Percent => "%"
    case CaretEqual => "^="
    case Caret => "^"
    case GreaterEqual => ">="
    case GreaterGreater => ">>"
    case Greater => ">"
    case LessEqual => "<="
    case LessLess => "<<"
    case Less => "<"
    case StarEqual => "*="
    case StarStar => "**"
    case Star => "*"
    case EqualEqual => "=="
    case Arrow => "=>"
    case Equal => "="
    case BarEqual => "|="
    case BarBar => "||"
    case Bar => "|"
    case AmpersandEqual => "&="
    case AmpersandAmpersand => "&&"
    case Ampersand => "&"
    case Dot => "."
    case DotDot => ".."
    case DotDotDot => "..."
    case _ => ""
  }

  predicate IsOperator(k: TokenType) { Spelling(k) != "" }

  /** The one-character operators. */
  function SingleOperator(a: char): Option<TokenType>
  {
    match a
    case '(' => Some(LeftParen)
    case ')' => Some(RightParen)
    case '[' => Some(LeftBracket)
    case ']' => Some(RightBracket)
    case ';' => Some(Semicolon)
    case ',' => Some(Comma)
    case ':' => Some(Colon)
    case '~' => Some(Tilde)
    case '+' => Some(Plus)
    case '-' => Some(Minus)
    case '/' => Some(Slash)
    case '#' => Some(Sharp)
    case '!' => Some(Bang)
    case '?' => Some(Question)
    case '%' => Some(Percent)
    case '^' => Some(Caret)
    case '>' => Some(Greater)
    case '<' => Some(Less)
    case '*' => Some(Star)
    case '=' => Some(Equal)
    case '|' => Some(Bar)
    case '&' => Some(Ampersand)
    case '.' => Some(Dot)
    case _ => None
  }

  /** The two-character operators. */
  function DoubleOperator(a: char, b: char): Option<TokenType>
  {
    match a
    case '+' => if b == '=' then Some(PlusEqual) else if b == '+' then Some(PlusPlus) else None
    case '-' => if b == '>' then Some(SmallArrow) else if b == '=' then Some(MinusEqual) else if b == '-' then Some(MinusMinus) else None
    case '/' => if b == '=' then Some(SlashEqual) else None
    case '#' => if b == '=' then Some(SharpEqual) else None
    case '!' => if b == '=' then Some(BangEqual) else None
    case '?' => if b == '?' then Some(QuestionQuestion) else None
    case '%' => if b == '=' then Some(PercentEqual) else None
    case '^' => if b == '=' then Some(CaretEqual) else None
    case '>' => if b == '=' then Some(GreaterEqual) else if b == '>' then Some(GreaterGreater) else None
    case '<' => if b == '=' then Some(LessEqual) else if b == '<' then Some(LessLess) else None
    case '*' => if b == '=' then Some(StarEqual) else if b == '*' then Some(StarStar) else None
    case '=' => if b == '=' then Some(EqualEqual) else if b == '>' then Some(Arrow) else None
    case '|' => if b == '=' then Some(BarEqual) else if b == '|' then Some(BarBar) else None
    case '&' => if b == '=' then Some(AmpersandEqual) else if b == '&' then Some(AmpersandAmpersand) else None
    case '.' => if b == '.' then Some(DotDot) else None
    case _ => None
  }

  /** The operator a text spells, if any. */
  function OperatorOf(t: seq<char>): Option<TokenType>
  {
    if |t| == 1 then SingleOperator(t[0])
    else if |t| == 2 then DoubleOperator(t[0], t[1])
    else if |t| == 3 && t[0] == '.' && t[1] == '.' && t[2] == '.' then Some(DotDotDot)
    else None
  }

  /** Each one-character operator is spelled by its character. */
  lemma SingleSpelled(a: char)
    requires SingleOperator(a).Some?
    ensures var t := Spelling(SingleOperator(a).value); |t| == 1 && t[0] == a
  {
  }

  /** Each two-character operator is spelled by its two characters. */
  lemma DoubleSpelled(a: char, b: char)
    requires DoubleOperator(a, b).Some?
    ensures var t := Spelling(DoubleOperator(a, b).value); |t| == 2 && t[0] == a && t[1] == b
  {
    if a == '+' || a == '-' || a == '/' || a == '#' || a == '!' || a == '?' || a == '%' || a == '^' {
      DoubleSpelledArithmetic(a, b);
    } else {
      DoubleSpelledComparison(a, b);
    }
  }

  /** The two-character operators built on + - / # ! ? % ^. */
  lemma DoubleSpelledArithmetic(a: char, b: char)
    requires DoubleOperator(a, b).Some?
    requires a == '+' || a == '-' || a == '/' || a == '#' || a == '!' || a == '?' || a == '%' || a == '^'
    ensures var t := Spelling(DoubleOperator(a, b).value); |t| == 2 && t[0] == a && t[1] == b
  {
  }

  /** The two-character operators built on > < * = | & and the dot. */
  lemma DoubleSpelledComparison(a: char, b: char)
    requires DoubleOperator(a, b).Some?
    requires !(a == '+' || a == '-' || a == '/' || a == '#' || a == '!' || a == '?' || a == '%' || a == '^')
    ensures var t := Spelling(DoubleOperator(a, b).value); |t| == 2 && t[0] == a && t[1] == b
  {
  }

  /** The lookup finds every operator from its spelling. */
  lemma SpellingFound(k: TokenType)
    requires IsOperator(k)
    ensures OperatorOf(Spelling(k)) == Some(k)
  {
    match k
      case LeftParen | RightParen | LeftBracket | RightBracket => SpellingFoundFromLeftParen(k);
      case Semicolon | Comma | Colon | Tilde => SpellingFoundFromSemicolon(k);
      case PlusEqual | PlusPlus | Plus | SmallArrow => SpellingFoundFromPlusEqual(k);
      case MinusEqual | MinusMinus | Minus | SlashEqual => SpellingFoundFromMinusEqual(k);
      case Slash | SharpEqual | Sharp | BangEqual => SpellingFoundFromSlash(k);
      case Bang | QuestionQuestion | Question | PercentEqual => SpellingFoundFromBang(k);
      case Percent | CaretEqual | Caret | GreaterEqual => SpellingFoundFromPercent(k);
      case GreaterGreater | Greater | LessEqual | LessLess => SpellingFoundFromGreaterGreater(k);
      case Less | StarEqual | StarStar | Star => SpellingFoundFromLess(k);
      case EqualEqual | Arrow | Equal | BarEqual => SpellingFoundFromEqualEqual(k);
      case BarBar | Bar | AmpersandEqual | AmpersandAmpersand => SpellingFoundFromBarBar(k);
      case Ampersand | Dot | DotDot | DotDotDot => SpellingFoundFromAmpersand(k);
      case _ => assert false;
  }

  /** SpellingFound for LeftParen, RightParen, LeftBracket, RightBracket. */
  lemma SpellingFoundFromLeftParen(k: TokenType)
    requires k.LeftParen? || k.RightParen? || k.LeftBracket? || k.RightBracket?
    ensures OperatorOf(Spelling(k)) == Some(k)
  {
  }

  /** SpellingFound for Semicolon, Comma, Colon, Tilde. */
  lemma SpellingFoundFromSemicolon(k: TokenType)
    requires k.Semicolon? || k.Comma? || k.Colon? || k.Tilde?
    ensures OperatorOf(Spelling(k)) == Some(k)
  {
  }

  /** SpellingFound for PlusEqual, PlusPlus, Plus, SmallArrow. */
  lemma SpellingFoundFromPlusEqual(k: TokenType)
    requires k.PlusEqual? || k.PlusPlus? || k.Plus? || k.SmallArrow?
    ensures OperatorOf(Spelling(k)) == Some(k)
  {
  }

  /** SpellingFound for MinusEqual, MinusMinus, Minus, SlashEqual. */
  lemma SpellingFoundFromMinusEqual(k: TokenType)
    requires k.MinusEqual? || k.MinusMinus? || k.Minus? || k.SlashEqual?
    ensures OperatorOf(Spelling(k)) == Some(k)
  {
  }

  /** SpellingFound for Slash, SharpEqual, Sharp, BangEqual. */
  lemma SpellingFoundFromSlash(k: TokenType)
    requires k.Slash? || k.SharpEqual? || k.Sharp? || k.BangEqual?
    ensures OperatorOf(Spelling(k)) == Some(k)
  {
  }

  /** SpellingFound for Bang, QuestionQuestion, Question, PercentEqual. */
  lemma SpellingFoundFromBang(k: TokenType)
    requires k.Bang? || k.QuestionQuestion? || k.Question? || k.PercentEqual?
    ensures OperatorOf(Spelling(k)) == Some(k)
  {
  }

  /** SpellingFound for Percent, CaretEqual, Caret, GreaterEqual. */
  lemma SpellingFoundFromPercent(k: TokenType)
    requires k.Percent? || k.CaretEqual? || k.Caret? || k.GreaterEqual?
    ensures OperatorOf(Spelling(k)) == Some(k)
  {
  }

  /** SpellingFound for GreaterGreater, Greater, LessEqual, LessLess. */
  lemma SpellingFoundFromGreaterGreater(k: TokenType)
    requires k.GreaterGreater? || k.Greater? || k.LessEqual? || k.LessLess?
    ensures OperatorOf(Spelling(k)) == Some(k)
  {
  }

  /** SpellingFound for Less, StarEqual, StarStar, Star. */
  lemma SpellingFoundFromLess(k: TokenType)
    requires k.Less? || k.StarEqual? || k.StarStar? || k.Star?
    ensures OperatorOf(Spelling(k)) == Some(k)
  {
  }

  /** SpellingFound for EqualEqual, Arrow, Equal, BarEqual. */
  lemma SpellingFoundFromEqualEqual(k: TokenType)
    requires k.EqualEqual? || k.Arrow? || k.Equal? || k.BarEqual?
    ensures OperatorOf(Spelling(k)) == Some(k)
  {
  }

  /** SpellingFound for BarBar, Bar, AmpersandEqual, AmpersandAmpersand. */
  lemma SpellingFoundFromBarBar(k: TokenType)
    requires k.BarBar? || k.Bar? || k.AmpersandEqual? || k.AmpersandAmpersand?
    ensures OperatorOf(Spelling(k)) == Some(k)
  {
  }

  /** SpellingFound for Ampersand, Dot, DotDot, DotDotDot. */
  lemma SpellingFoundFromAmpersand(k: TokenType)
    requires k.Ampersand? || k.Dot? || k.DotDot? || k.DotDotDot?
    ensures OperatorOf(Spelling(k)) == Some(k)
  {
  }

  /** The lookup and the spelling table agree, in both directions. */
  lemma OperatorOfSpelling(t: seq<char>, k: TokenType)
    ensures OperatorOf(t) == Some(k) <==> IsOperator(k) && Spelling(k) == t
  {
    if OperatorOf(t) == Some(k) {
      OperatorOfSpelled(t);
      assert Spelling(k) == t;
    }
    if IsOperator(k) && Spelling(k) == t {
      SpellingFound(k);
    }
  }

  /** The operator a text is looked up as is spelled by that text. */
  lemma OperatorOfSpelled(t: seq<char>)
    requires OperatorOf(t).Some?
    ensures Spelling(OperatorOf(t).value) == t && t != []
  {
    var sp := Spelling(OperatorOf(t).value);
    if |t| == 1 {
      assert OperatorOf(t) == SingleOperator(t[0]);
      SingleSpelled(t[0]);
      assert |sp| == 1 && sp[0] == t[0];
      assert t == [t[0]];
    } else if |t| == 2 {
      assert OperatorOf(t) == DoubleOperator(t[0], t[1]);
      DoubleSpelled(t[0], t[1]);
      assert |sp| == 2 && sp[0] == t[0] && sp[1] == t[1];
      assert t == [t[0], t[1]];
    } else {
      assert OperatorOf(t) == Some(DotDotDot);
      assert t == [t[0], t[1], t[2]];
    }
  }


  /** No operator is longer than three characters. */
  lemma SpellingShort(k: TokenType)
    ensures |Spelling(k)| <= 3
  {
    if IsOperator(k) {
      SpellingFound(k);
    }
  }


  /**
   * The operator at i by longest match: the longest text of one to three
   * characters starting at i that spells an operator, and its length.
   */
  function Punct(src: seq<char>, i: nat): Option<(TokenType, nat)>
    requires i < |src|
  {
    if i + 3 <= |src| && OperatorOf(src[i..i + 3]).Some? then Some((OperatorOf(src[i..i + 3]).value, 3))
    else if i + 2 <= |src| && OperatorOf(src[i..i + 2]).Some? then Some((OperatorOf(src[i..i + 2]).value, 2))
    else if OperatorOf(src[i..i + 1]).Some? then Some((OperatorOf(src[i..i + 1]).value, 1))
    else None
  }

  /** Punct in the order lit_lex_scantoken tests the characters: three dots, then two characters, then one. */
  lemma PunctAt(src: seq<char>, i: nat)
    requires Terminated(src) && i < |src| && src[i] != '\0'
    ensures i + 1 < |src|
    ensures Punct(src, i) ==
      if src[i] == '.' && src[i + 1] == '.' && src[i + 2] == '.' then Some((DotDotDot, 3))
      else if DoubleOperator(src[i], src[i + 1]).Some? then Some((DoubleOperator(src[i], src[i + 1]).value, 2))
      else if SingleOperator(src[i]).Some? then Some((SingleOperator(src[i]).value, 1))
      else None
  {
    assert src[i..i + 1] == [src[i]];
    assert src[i..i + 2] == [src[i], src[i + 1]];
    if i + 3 <= |src| {
      assert src[i..i + 3] == [src[i], src[i + 1], src[i + 2]];
    }
  }

  /**
   * Operators are matched longest first: the text of the match spells its
   * token, and no operator with a longer spelling starts at i.
   */
  lemma PunctLongest(src: seq<char>, i: nat)
    requires i < |src|
    ensures match Punct(src, i)
      case Some((k, n)) =>
        i + n <= |src| && IsOperator(k) && Spelling(k) == src[i..i + n]
        && forall k' :: IsOperator(k') && |Spelling(k')| > n && i + |Spelling(k')| <= |src| ==>
             src[i..i + |Spelling(k')|] != Spelling(k')
      case None =>
        forall k' :: IsOperator(k') && i + |Spelling(k')| <= |src| ==> src[i..i + |Spelling(k')|] != Spelling(k')
  {
    match Punct(src, i)
    case Some((k, n)) =>
      OperatorOfSpelling(src[i..i + n], k);
      forall k' | IsOperator(k') && |Spelling(k')| > n && i + |Spelling(k')| <= |src|
        ensures src[i..i + |Spelling(k')|] != Spelling(k')
      {
        SpellingShort(k');
        OperatorOfSpelling(src[i..i + |Spelling(k')|], k');
      }
    case None =>
      forall k' | IsOperator(k') && i + |Spelling(k')| <= |src|
        ensures src[i..i + |Spelling(k')|] != Spelling(k')
      {
        SpellingShort(k');
        OperatorOfSpelling(src[i..i + |Spelling(k')|], k');
      }
  }

  /** Three dots are one token; "-" followed by ">" is the small arrow, not a minus. */
  lemma PunctExamples()
    ensures Punct("...x\0", 0) == Some((DotDotDot, 3))
    ensures Punct("..x\0", 0) == Some((DotDot, 2))
    ensures Punct("->\0", 0) == Some((SmallArrow, 2))
    ensures Punct("**=\0", 0) == Some((StarStar, 2))
    ensures Punct("@\0", 0) == None
  {
    assert "...x\0"[0..3] == "...";
    assert "..x\0"[0..2] == "..";
    assert "->\0"[0..2] == "->";
    assert "**=\0"[0..2] == "**";
    assert "@\0"[0..1] == "@";
  }

  // ---------------------------------------------------------------------
  // Numbers (lit_lex_scannumber and the digit scanners)
  // ---------------------------------------------------------------------

  predicate IsHexDigit(c: char) { ('0' <= c <= '9') || ('a' <= c <= 'f') || ('A' <= c <= 'F') }

  predicate IsBinaryDigit(c: char) { c == '0' || c == '1' }

  /** lit_lex_scanhexdigit's result: the digit's value, or -1 when c is not a hex digit. */
  function HexDigitValue(c: char): (v: int)
    ensures IsHexDigit(c) <==> 0 <= v < 16
    ensures !IsHexDigit(c) ==> v == -1
  {
    if '0' <= c <= '9' then c as int - '0' as int
    else if 'a' <= c <= 'f' then c as int - 'a' as int + 10
    else if 'A' <= c <= 'F' then c as int - 'A' as int + 10
    else -1
  }

  /** lit_lex_scanbinarydigit's result. */
  function BinaryDigitValue(c: char): (v: int)
    ensures IsBinaryDigit(c) <==> 0 <= v < 2
    ensures !IsBinaryDigit(c) ==> v == -1
  {
    if '0' <= c <= '1' then c as int - '0' as int else -1
  }

  /** The lower-case hex digit for a value below 16. */
  function HexDigitChar(v: nat): char
    requires v < 16
  {
    if v < 10 then ('0' as int + v) as char else ('a' as int + v - 10) as char
  }

  /** The digit scanners invert the digit writers, in either case of letter. */
  lemma HexDigitRoundTrip(v: nat)
    requires v < 16
    ensures HexDigitValue(HexDigitChar(v)) == v
    ensures v >= 10 ==> HexDigitValue(('A' as int + v - 10) as char) == v
    ensures v < 2 ==> BinaryDigitValue(HexDigitChar(v)) == v
  {
  }

  /** The three digit classes a number is made of. */
  datatype Radix = Decimal | Hexadecimal | Binary

  predicate InRadix(c: char, r: Radix)
  {
    match r
    case Decimal => IsDigit(c)
    case Hexadecimal => IsHexDigit(c)
    case Binary => IsBinaryDigit(c)
  }

  /** The end of the run of digits of radix r starting at j. */
  function DigitsEnd(src: seq<char>, j: nat, r: Radix): (k: nat)
    requires Terminated(src) && j < |src|
    ensures j <= k < |src| && !InRadix(src[k], r)
    ensures forall m :: j <= m < k ==> InRadix(src[m], r)
    decreases |src| - j
  {
    if InRadix(src[j], r) then DigitsEnd(src, j + 1, r) else j
  }

  /**
   * The end of a number whose first digit was just consumed (i is the
   * position after it): an 'x' ends in a run of hex digits, a 'b' in a run
   * of binary digits; otherwise the decimal digits, then a '.' followed by
   * a digit and the fraction's digits.
   */
  function NumberEnd(src: seq<char>, i: nat): (k: nat)
    requires Terminated(src) && i < |src|
    ensures i <= k < |src|
  {
    if src[i] == 'x' then DigitsEnd(src, i + 1, Hexadecimal)
    else if src[i] == 'b' then DigitsEnd(src, i + 1, Binary)
    else
      var k := DigitsEnd(src, i, Decimal);
      if src[k] == '.' && IsDigit(src[k + 1]) then DigitsEnd(src, k + 1, Decimal) else k
  }

  /** A fraction needs a digit after the dot: "1.5" is one number, "1.x" stops before the dot. */
  lemma NumberExamples()
    ensures NumberEnd("1.5;\0", 1) == 3
    ensures NumberEnd("1.x\0", 1) == 1
    ensures NumberEnd("0x1fg\0", 1) == 4
    ensures NumberEnd("0b102\0", 1) == 4
  {
    assert DigitsEnd("1.5;\0", 1, Decimal) == 1;
    assert DigitsEnd("1.5;\0", 2, Decimal) == 3;
    assert DigitsEnd("0x1fg\0", 2, Hexadecimal) == 4;
    assert DigitsEnd("0b102\0", 2, Binary) == 4;
  }

  // ---------------------------------------------------------------------
  // Number values (lit_lex_makenumbertoken)
  // ---------------------------------------------------------------------

  const LLONG_MIN: int := -0x8000_0000_0000_0000
  const LLONG_MAX: int := 0x7fff_ffff_ffff_ffff

  function Base(r: Radix): nat
  {
    match r
    case Decimal => 10
    case Hexadecimal => 16
    case Binary => 2
  }

  function DigitOf(c: char, r: Radix): (d: nat)
    requires InRadix(c, r)
    ensures d < Base(r)
  {
    match r
    case Decimal => c as int - '0' as int
    case Hexadecimal => HexDigitValue(c)
    case Binary => BinaryDigitValue(c)
  }

  /** The number a run of digits of radix r denotes, most significant first. */
  function DigitsValue(ds: seq<char>, r: Radix): nat
    requires forall m :: 0 <= m < |ds| ==> InRadix(ds[m], r)
  {
    if |ds| == 0 then 0 else DigitsValue(ds[..|ds| - 1], r) * Base(r) + DigitOf(ds[|ds| - 1], r)
  }

  /** n in lower-case hex digits, without leading zeros. */
  function HexString(n: nat): (s: seq<char>)
    ensures |s| > 0 && forall m :: 0 <= m < |s| ==> IsHexDigit(s[m])
    decreases n
  {
    HexDigitRoundTrip(n % 16);
    (if n < 16 then [] else HexString(n / 16)) + [HexDigitChar(n % 16)]
  }

  /** Reading back the hex digits of n gives n. */
  lemma {:induction false} HexStringValue(n: nat)
    ensures DigitsValue(HexString(n), Hexadecimal) == n
    decreases n
  {
    var s := HexString(n);
    HexDigitRoundTrip(n % 16);
    if n >= 16 {
      HexStringValue(n / 16);
      assert s[..|s| - 1] == HexString(n / 16);
    } else {
      assert s[..|s| - 1] == [];
    }
  }

  /** A run of digits of radix r from j up to a non-digit at k ends at k. */
  lemma {:induction false} DigitsEndOfRun(src: seq<char>, j: nat, k: nat, r: Radix)
    requires Terminated(src) && j <= k < |src| && !InRadix(src[k], r)
    requires forall m :: j <= m < k ==> InRadix(src[m], r)
    ensures DigitsEnd(src, j, r) == k
    decreases k - j
  {
    if j < k {
      DigitsEndOfRun(src, j + 1, k, r);
    }
  }

  /** isspace in the C locale. */
  predicate IsSpace(c: char)
  {
    c == ' ' || c == '\t' || c == '\n' || c == '\U{0B}' || c == '\U{0C}' || c == '\r'
  }

  /** The first character at or after j that is not a space. */
  function SpaceEnd(src: seq<char>, j: nat): (k: nat)
    requires Terminated(src) && j < |src|
    ensures j <= k < |src| && !IsSpace(src[k])
    ensures forall m :: j <= m < k ==> IsSpace(src[m])
    decreases |src| - j
  {
    if IsSpace(src[j]) then SpaceEnd(src, j + 1) else j
  }

  /** What lit_lex_makenumbertoken makes of a number: ERANGE, an integer, or strtod's double, which is not modelled. */
  datatype Literal = TooBig | Integer(n: int) | Floating

  /** An integer strtoll returns, or ERANGE when it is outside the long long range. */
  function LongLong(v: int): (r: Literal)
    ensures r.Integer? <==> LLONG_MIN <= v <= LLONG_MAX
    ensures r.Integer? ==> r.n == v
    ensures !r.Integer? ==> r == TooBig
  {
    if v < LLONG_MIN || v > LLONG_MAX then TooBig else Integer(v)
  }

  /**
   * strtoll(src + start, NULL, 16) for a number token whose second
   * character is 'x': after a leading "0x" the hex digits that follow;
   * otherwise strtoll stops at the 'x', and the value is the first digit.
   */
  function HexLiteral(src: seq<char>, start: nat): (r: Literal)
    requires Terminated(src) && start + 2 < |src| && IsDigit(src[start]) && src[start + 1] == 'x'
    ensures r.Integer? || r == TooBig
  {
    if src[start] == '0' && IsHexDigit(src[start + 2]) then
      var e := DigitsEnd(src, start + 2, Hexadecimal);
      LongLong(DigitsValue(src[start + 2..e], Hexadecimal))
    else Integer(DigitOf(src[start], Decimal))
  }

  /**
   * strtoll(src + j, NULL, 2): leading spaces are skipped and a sign is
   * taken before the binary digits, all of it whether or not it is part of
   * the token.
   */
  function StrtollBinary(src: seq<char>, j: nat): (r: Literal)
    requires Terminated(src) && j < |src|
    ensures r.Integer? || r == TooBig
  {
    var p := SpaceEnd(src, j);
    var q := if src[p] == '-' || src[p] == '+' then p + 1 else p;
    var e := DigitsEnd(src, q, Binary);
    var magnitude: int := DigitsValue(src[q..e], Binary);
    var signed: int := if src[p] == '-' then -magnitude else magnitude;
    LongLong(signed)
  }

  /** The C int a long long is converted to: its value modulo 2^32, as a signed number. */
  function ToInt32(v: int): (r: int)
    ensures -0x8000_0000 <= r <= 0x7fff_ffff && (r - v) % 0x1_0000_0000 == 0
  {
    var m := v % 0x1_0000_0000;
    if m > 0x7fff_ffff then m - 0x1_0000_0000 else m
  }

  /**
   * lit_lex_makenumbertoken's value as written, for the number token that
   * starts at start: hex through HexLiteral; binary through strtoll from
   * the third character and then a cast to int; decimal through strtod.
   */
  function LiteralAsWritten(src: seq<char>, start: nat): (r: Literal)
    requires Terminated(src) && start + 1 < |src| && IsDigit(src[start])
  {
    if src[start + 1] == 'x' then HexLiteral(src, start)
    else if src[start + 1] == 'b' then
      match StrtollBinary(src, start + 2)
      case Integer(v) => Integer(ToInt32(v))
      case other => other
    else Floating
  }

  /**
   * The value lit_lex_makenumbertoken is meant to give, corrected: a
   * binary number is the value of the binary digits of the token itself,
   * reported too big above LLONG_MAX like a hex one, and not cut to an int.
   * A decimal number is Floating: strtod's double, and the ERANGE it sets
   * for a decimal out of a double's range, are not modelled.
   */
  function NumberLiteral(src: seq<char>, start: nat): (r: Literal)
    requires Terminated(src) && start + 1 < |src| && IsDigit(src[start])
    ensures src[start + 1] == 'b' ==>
      var e := DigitsEnd(src, start + 2, Binary);
      r == LongLong(DigitsValue(src[start + 2..e], Binary))
    ensures src[start + 1] == 'x' ==> r == HexLiteral(src, start)
    ensures src[start + 1] != 'x' && src[start + 1] != 'b' ==> r == Floating
  {
    if src[start + 1] == 'x' then HexLiteral(src, start)
    else if src[start + 1] == 'b' then
      var e := DigitsEnd(src, start + 2, Binary);
      LongLong(DigitsValue(src[start + 2..e], Binary))
    else Floating
  }

  /**
   * "0x" and the hex digits of n, followed by anything but a hex digit, is
   * a number token ending after the digits, whose value is n, or too big
   * past LLONG_MAX.
   */
  lemma HexLiteralRoundTrip(src: seq<char>, start: nat, n: nat)
    requires Terminated(src) && start + 2 + |HexString(n)| < |src|
    requires src[start] == '0' && src[start + 1] == 'x'
    requires src[start + 2..start + 2 + |HexString(n)|] == HexString(n)
    requires !IsHexDigit(src[start + 2 + |HexString(n)|])
    ensures NumberEnd(src, start + 1) == start + 2 + |HexString(n)|
    ensures NumberLiteral(src, start) == if n <= LLONG_MAX then Integer(n) else TooBig
  {
    var h := HexString(n);
    var e := start + 2 + |h|;
    assert forall m :: start + 2 <= m < e ==> IsHexDigit(src[m]) by {
      forall m | start + 2 <= m < e ensures IsHexDigit(src[m]) {
        assert src[m] == h[m - start - 2];
      }
    }
    DigitsEndOfRun(src, start + 2, e, Hexadecimal);
    HexStringValue(n);
    assert src[start + 2] == h[0];
  }

  /**
   * `0b -1`: the token is "0b", but strtoll skips the space and reads the
   * sign and digit after it, so the token's value is -1 where its digits
   * give 0.
   */
  lemma BinaryLiteralReadsPastToken()
    ensures LiteralAsWritten("0b -1\0", 0) == Integer(-1)
    ensures NumberLiteral("0b -1\0", 0) == Integer(0)
    ensures NumberEnd("0b -1\0", 1) == 2
  {
    var src := "0b -1\0";
    assert SpaceEnd(src, 3) == 3;
    assert SpaceEnd(src, 2) == 3;
    assert DigitsEnd(src, 5, Binary) == 5;
    assert DigitsEnd(src, 4, Binary) == 5;
    assert src[4..5] == ['1'];
    assert DigitsValue(src[4..5], Binary) == 1 by {
      assert src[4..5][..0] == [];
    }
    assert DigitsEnd(src, 2, Binary) == 2;
    assert src[2..2] == [];
  }

  /**
   * A binary token whose digits are followed by no sign or space and whose
   * value is over INT_MAX but within a long long (as 0b1 followed by 31
   * zeros, 2^31): the cast to int changes it.
   */
  lemma BinaryLiteralTruncated(src: seq<char>, start: nat)
    requires Terminated(src) && start + 2 < |src| && IsDigit(src[start]) && src[start + 1] == 'b'
    requires IsBinaryDigit(src[start + 2])
    requires var e := DigitsEnd(src, start + 2, Binary);
      0x7fff_ffff < DigitsValue(src[start + 2..e], Binary) <= LLONG_MAX
    ensures LiteralAsWritten(src, start).Integer? && NumberLiteral(src, start).Integer?
    ensures LiteralAsWritten(src, start) != NumberLiteral(src, start)
  {
  }

  // ---------------------------------------------------------------------
  // One call of lit_lex_scantoken
  // ---------------------------------------------------------------------

  /** The scanner fields that scanning changes; braces lists the live brace counters, innermost last. */
  datatype LexState = LexState(start: nat, current: nat, line: int, braces: seq<int>, hadError: bool)

  /** A state from which a token can be scanned: the cursor is inside the buffer. */
  predicate Ready(src: seq<char>, s: LexState)
  {
    Terminated(src) && s.start <= s.current < |src| && |s.braces| <= MAX_INTERPOLATION_NESTING
  }

  /**
   * What every scanning step keeps: the cursors stay ordered and within
   * the buffer, at most MAX_INTERPOLATION_NESTING counters are live, the
   * line never goes back, a token from the source spans [start, current),
   * and only an error leaves the cursor past the NUL.
   */
  predicate Bounded(src: seq<char>, s: LexState, r: (Token, LexState))
  {
    var (t, s1) := r;
    s1.start <= s1.current <= |src| && |s1.braces| <= MAX_INTERPOLATION_NESTING
    && s1.line >= s.line && s1.current >= s.current
    && (t.Lexeme? ==> t.start == s1.start && t.start + t.length == s1.current)
    && (s1.current == |src| ==> t.ErrorToken?)
  }

  /** lit_lex_maketoken */
  function Lexed(s: LexState, kind: TokenType): Token
    requires s.start <= s.current
  {
    Lexeme(kind, s.start, s.current - s.start, s.line, NoValue)
  }

  /** The innermost brace counter, incremented or decremented (no change with an empty stack). */
  function BumpLast(b: seq<int>, delta: int): (r: seq<int>)
    ensures |r| == |b|
  {
    if |b| > 0 then b[..|b| - 1] + [b[|b| - 1] + delta] else b
  }

  /**
   * The end of lit_lex_scanstring, from a state whose cursor is at the
   * first character of the body: a closed string or segment becomes a
   * STRING or INTERPOLATION token over [start, end) holding the decoded
   * bytes, and a segment pushes a brace counter of 1; an error becomes an
   * error token and sets had_error.
   */
  function StringStep(src: seq<char>, s: LexState, interpolation: bool): (r: (Token, LexState))
    requires Ready(src, s)
    ensures Bounded(src, s, r)
  {
    var full := |s.braces| >= MAX_INTERPOLATION_NESTING;
    match ScanStr(src, s.current, interpolation, full)
    case Closed(bytes, end, nl, interp) =>
      (Lexeme(if interp then Interpolation else String, s.start, end - s.start, s.line + nl, Text(bytes)),
       s.(current := end, line := s.line + nl, braces := if interp then s.braces + [1] else s.braces))
    case Failed(err, end, nl) =>
      (ErrorToken(err, s.line + nl), s.(current := end, line := s.line + nl, hadError := true))
  }

  /**
   * An unterminated string: the scan consumes the NUL and leaves the cursor
   * one past it, outside the buffer, where lit_parser_advance calls
   * lit_lex_scantoken again.
   */
  lemma UnterminatedStringOverruns()
    ensures var src := ['"', '\0']; var s := LexState(0, 1, 1, [], false);
      Ready(src, s) && StringStep(src, s, false).0 == ErrorToken(UnterminatedString, 1) &&
      StringStep(src, s, false).1.current == |src| && !Ready(src, StringStep(src, s, false).1)
  {
    var src := ['"', '\0'];
    assert ScanStr(src, 1, false, false) == Failed(UnterminatedString, 2, 0);
  }

  /** The corrected string scan: an unterminated string leaves the cursor on the NUL. */
  function StringStepCorrected(src: seq<char>, s: LexState, interpolation: bool): (r: (Token, LexState))
    requires Ready(src, s)
    ensures Ready(src, r.1) && r.0 == StringStep(src, s, interpolation).0
    ensures r.1.current == |src| - 1 || r.1 == StringStep(src, s, interpolation).1
  {
    var r := StringStep(src, s, interpolation);
    if r.1.current == |src| then (r.0, r.1.(current := |src| - 1)) else r
  }

  /** After the corrected scan runs into the NUL, the next call yields EOF. */
  lemma UnterminatedThenEof(src: seq<char>, s: LexState, interpolation: bool)
    requires Ready(src, s) && StringStep(src, s, interpolation).1.current == |src|
    ensures var s1 := StringStepCorrected(src, s, interpolation).1;
      Step(src, s1).0.Lexeme? && Step(src, s1).0.kind == Eof
  {
    var s1 := StringStepCorrected(src, s, interpolation).1;
    assert SkipFrom(src, s1.current) == Skip(s1.current, 0, false);
    EofSticky(src, s1);
  }

  /** The operator cases of lit_lex_scantoken, with the character c at the token start already consumed. */
  function OperatorStep(src: seq<char>, s: LexState, c: char): (r: (Token, LexState))
    requires Ready(src, s) && s.current == s.start + 1 && src[s.start] == c
    ensures Bounded(src, s, r)
  {
    match Punct(src, s.start)
    case Some((k, n)) =>
      var s1 := s.(current := s.start + n);
      (Lexeme(k, s.start, n, s.line, NoValue), s1)
    case None => (ErrorToken(UnexpectedChar(c), s.line), s.(hadError := true))
  }

  /**
   * The number case of lit_lex_scantoken: the token runs to NumberEnd; a
   * hex or binary value out of range is a NUMBER_IS_TOO_BIG error, and
   * otherwise (corrected, as NumberLiteral says) the token's value. A
   * decimal number is always a NUMBER token here.
   */
  function NumberStep(src: seq<char>, s: LexState): (r: (Token, LexState))
    requires Ready(src, s) && s.current == s.start + 1 && IsDigit(src[s.start])
    ensures Bounded(src, s, r)
    ensures r.1.current == NumberEnd(src, s.current)
    ensures r.0.ErrorToken? <==> NumberLiteral(src, s.start) == TooBig
    ensures r.0.ErrorToken? ==> r.0.error == NumberIsTooBig && r.1.hadError
    ensures NumberLiteral(src, s.start).Integer? ==>
      r.0.Lexeme? && r.0.kind == Number && r.0.value == IntegerValue(NumberLiteral(src, s.start).n)
  {
    NumberToken(src, s.(current := NumberEnd(src, s.current)))
  }

  /** lit_lex_makenumbertoken, from the state whose cursor is at the end of the number. */
  function NumberToken(src: seq<char>, s: LexState): (r: (Token, LexState))
    requires Terminated(src) && s.start < s.current < |src| && IsDigit(src[s.start])
  {
    match NumberLiteral(src, s.start)
    case TooBig => (ErrorToken(NumberIsTooBig, s.line), s.(hadError := true))
    case Integer(n) => (Lexeme(Number, s.start, s.current - s.start, s.line, IntegerValue(n)), s)
    case Floating => (Lexed(s, Number), s)
  }

  /** The identifier case of lit_lex_scantoken: the token runs to IdentEnd and is typed by the trie. */
  function WordStep(src: seq<char>, s: LexState): (r: (Token, LexState))
    requires Ready(src, s) && s.current == s.start + 1
    ensures Bounded(src, s, r)
  {
    var e := IdentEnd(src, s.current);
    var s1 := s.(current := e);
    (Lexed(s1, IdentType(src[s.start..e])), s1)
  }

  /** The '{' case: the innermost brace counter goes up. */
  function OpenBraceStep(s: LexState): (r: (Token, LexState))
    requires s.start <= s.current
  {
    var s1 := s.(braces := BumpLast(s.braces, 1));
    (Lexed(s1, LeftBrace), s1)
  }

  /**
   * The '}' case: the innermost brace counter goes down; when it reaches
   * 0 the counter is dropped and the interpolated string resumes.
   */
  function CloseBraceStep(src: seq<char>, s: LexState): (r: (Token, LexState))
    requires Ready(src, s)
    ensures Bounded(src, s, r)
  {
    if |s.braces| > 0 && s.braces[|s.braces| - 1] - 1 == 0 then
      StringStep(src, s.(braces := s.braces[..|s.braces| - 1]), true)
    else
      var s1 := s.(braces := BumpLast(s.braces, -1));
      (Lexed(s1, RightBrace), s1)
  }

  /** The '$' case: a '"' must follow, and starts an interpolated string. */
  function DollarStep(src: seq<char>, s: LexState): (r: (Token, LexState))
    requires Ready(src, s) && s.current == s.start + 1 && src[s.start] == '$'
    ensures Bounded(src, s, r)
  {
    if src[s.current] == '"' then StringStep(src, s.(current := s.current + 1), true)
    else (ErrorToken(CharExpectationUnmet(src[s.current]), s.line), s.(hadError := true))
  }

  /** lit_lex_scantoken after the first character c of the token has been consumed. */
  function After(src: seq<char>, s: LexState, c: char): (r: (Token, LexState))
    requires Ready(src, s) && s.current == s.start + 1 && src[s.start] == c && c != '\0'
    ensures Bounded(src, s, r)
  {
    if IsDigit(c) then NumberStep(src, s)
    else if IsAlpha(c) then WordStep(src, s)
    else if c == '{' then OpenBraceStep(s)
    else if c == '}' then CloseBraceStep(src, s)
    else if c == '$' then DollarStep(src, s)
    else if c == '"' then StringStep(src, s, false)
    else OperatorStep(src, s, c)
  }

  /**
   * One call of lit_lex_scantoken: skip blanks and comments; a newline is a
   * NEW_LINE token and moves to the next line; the NUL is EOF; otherwise the
   * token starts at the first remaining character.
   */
  function Step(src: seq<char>, s: LexState): (r: (Token, LexState))
    requires Ready(src, s)
    ensures Bounded(src, s, r)
    ensures r.1.current > s.current || r.0 == Lexeme(Eof, r.1.start, 0, r.1.line, NoValue)
  {
    var sk := SkipFrom(src, s.current);
    var line := s.line + sk.newlines;
    if sk.newline then
      (Lexeme(NewLine, sk.end - 1, 1, line, NoValue), s.(start := sk.end - 1, current := sk.end, line := line + 1))
    else
      Start(src, s.(start := sk.end, current := sk.end, line := line))
  }

  /** lit_lex_scantoken once the token start is set: the NUL is EOF, any other character is consumed. */
  function Start(src: seq<char>, s: LexState): (r: (Token, LexState))
    requires Ready(src, s) && s.start == s.current
    ensures Bounded(src, s, r)
    ensures r.1.current > s.current || r.0 == Lexeme(Eof, r.1.start, 0, r.1.line, NoValue)
  {
    var i := s.current;
    if src[i] == '\0' then (Lexed(s, Eof), s)
    else After(src, s.(current := i + 1), src[i])
  }

  /** Once only blanks and comments are left, the call yields EOF, and every further call yields it again. */
  lemma EofSticky(src: seq<char>, s: LexState)
    requires Ready(src, s)
    requires var sk := SkipFrom(src, s.current); !sk.newline && src[sk.end] == '\0'
    ensures var sk := SkipFrom(src, s.current);
      Step(src, s) == (Lexeme(Eof, sk.end, 0, s.line + sk.newlines, NoValue), s.(start := sk.end, current := sk.end, line := s.line + sk.newlines))
    ensures Ready(src, Step(src, s).1) && Step(src, Step(src, s).1) == Step(src, s)
  {
    var sk := SkipFrom(src, s.current);
    assert SkipFrom(src, sk.end) == Skip(sk.end, 0, false);
  }

  /** A step that meets no newline starts the token where the skip stopped. */
  lemma StepToStart(src: seq<char>, s: LexState)
    requires Ready(src, s) && !SkipFrom(src, s.current).newline
    ensures var sk := SkipFrom(src, s.current);
      Step(src, s) == Start(src, s.(start := sk.end, current := sk.end, line := s.line + sk.newlines))
  {
  }

  /**
   * An identifier is a letter or '_' followed by letters, digits and '_',
   * as long as it can be, and its token is its keyword's or IDENTIFIER.
   */
  lemma StartWord(src: seq<char>, s: LexState)
    requires Ready(src, s) && s.start == s.current && IsAlpha(src[s.current])
    ensures var i := s.current; var e := IdentEnd(src, i + 1);
      Start(src, s).0 == Lexeme(KeywordKind(src[i..e]), i, e - i, s.line, NoValue)
      && (forall m :: i < m < e ==> IsIdentChar(src[m])) && !IsIdentChar(src[e])
  {
    var w := s.(current := s.current + 1);
    StartToAfter(src, s);
    AfterWord(src, w, src[s.current]);
    WordToken(src, w);
  }

  /** From the token start, a character other than the NUL is consumed and dispatched on. */
  lemma StartToAfter(src: seq<char>, s: LexState)
    requires Ready(src, s) && s.start == s.current && src[s.current] != '\0'
    ensures s.current + 1 < |src|
    ensures Start(src, s) == After(src, s.(current := s.current + 1), src[s.current])
  {
  }

  /** A letter or '_' is the identifier case. */
  lemma AfterWord(src: seq<char>, s: LexState, c: char)
    requires Ready(src, s) && s.current == s.start + 1 && src[s.start] == c && IsAlpha(c)
    ensures After(src, s, c) == WordStep(src, s)
  {
  }


  /** The identifier case gives the keyword's token, or IDENTIFIER, to the longest word. */
  lemma WordToken(src: seq<char>, s: LexState)
    requires Ready(src, s) && s.current == s.start + 1
    ensures var e := IdentEnd(src, s.current);
      WordStep(src, s).0 == Lexeme(KeywordKind(src[s.start..e]), s.start, e - s.start, s.line, NoValue)
      && (forall m :: s.start < m < e ==> IsIdentChar(src[m])) && !IsIdentChar(src[e])
  {
    IdentTypeIsKeywordLookup(src[s.start..IdentEnd(src, s.current)]);
  }


  /** An operator character starts the longest operator spelled at that point. */
  lemma StartOperator(src: seq<char>, s: LexState)
    requires Ready(src, s) && s.start == s.current
    requires var c := src[s.current];
      c != '\0' && !IsDigit(c) && !IsAlpha(c) && c != '{' && c != '}' && c != '$' && c != '"'
    ensures var i := s.current;
      match Punct(src, i)
      case Some((k, n)) => Start(src, s).0 == Lexeme(k, i, n, s.line, NoValue) && Spelling(k) == src[i..i + n]
      case None => Start(src, s).0 == ErrorToken(UnexpectedChar(src[i]), s.line)
  {
    StartToAfter(src, s);
    PunctLongest(src, s.current);
  }


  // ---------------------------------------------------------------------
  // The scanner (LitScanner)
  // ---------------------------------------------------------------------

  /** Prepends already-decoded bytes and newlines to the rest of a string scan. */
  function Shifted(bytes: seq<char>, nl: nat, r: StrOutcome): StrOutcome
  {
    match r
    case Closed(b, end, n, interp) => Closed(bytes + b, end, n + nl, interp)
    case Failed(err, end, n) => Failed(err, end, n + nl)
  }

  lemma ShiftedPrepend(bytes: seq<char>, nl: nat, d: char, k: nat, r: StrOutcome)
    ensures Shifted(bytes, nl, Prepend(d, k, r)) == Shifted(bytes + [d], nl + k, r)
  {
    if r.Closed? {
      assert bytes + ([d] + r.bytes) == (bytes + [d]) + r.bytes;
    }
  }

  /** StringStep once the scan of the body is known to close. */
  lemma StringStepClosed(src: seq<char>, s: LexState, interpolation: bool, bytes: seq<char>, end: nat, nl: nat, interp: bool)
    requires Ready(src, s)
    requires ScanStr(src, s.current, interpolation, |s.braces| >= MAX_INTERPOLATION_NESTING) == Closed(bytes, end, nl, interp)
    ensures StringStep(src, s, interpolation) ==
      (Lexeme(if interp then Interpolation else String, s.start, end - s.start, s.line + nl, Text(bytes)),
       s.(current := end, line := s.line + nl, braces := if interp then s.braces + [1] else s.braces))
  {
  }

  /** StringStep once the scan of the body is known to fail. */
  lemma StringStepFailed(src: seq<char>, s: LexState, interpolation: bool, err: LexError, end: nat, nl: nat)
    requires Ready(src, s)
    requires ScanStr(src, s.current, interpolation, |s.braces| >= MAX_INTERPOLATION_NESTING) == Failed(err, end, nl)
    ensures StringStep(src, s, interpolation) == (ErrorToken(err, s.line + nl), s.(current := end, line := s.line + nl, hadError := true))
  {
  }

  class Scanner {
    /** The NUL-terminated source text. */
    const source: seq<char>
    var start: nat
    var current: nat
    var line: int
    /** The brace counters of the open interpolations; the first numBraces are live. */
    const braces: array<int>
    var numBraces: nat
    var hadError: bool

    ghost predicate Valid()
      reads this
    {
      Terminated(source) && start <= current <= |source|
      && braces.Length == MAX_INTERPOLATION_NESTING && numBraces <= MAX_INTERPOLATION_NESTING
    }

    /** The scanning state, with the live brace counters. */
    ghost function State(): LexState
      reads this, braces
      requires numBraces <= braces.Length
    {
      LexState(start, current, line, braces[..numBraces], hadError)
    }

    /** lit_lex_init: line 1, both cursors at the beginning, no open interpolation. */
    constructor (source: seq<char>)
      requires Terminated(source)
      ensures Valid() && this.source == source && fresh(braces)
      ensures State() == LexState(0, 0, 1, [], false)
    {
      this.source := source;
      start := 0;
      current := 0;
      line := 1;
      braces := new int[MAX_INTERPOLATION_NESTING];
      numBraces := 0;
      hadError := false;
    }

    /** lit_lex_peeknext: the character after the current one, or NUL at the end. */
    function PeekNext(): (c: char)
      reads this
      requires Valid() && current < |source|
    {
      if source[current] == '\0' then '\0' else source[current + 1]
    }

    /** lit_lex_maketoken */
    function MakeToken(kind: TokenType): Token
      reads this
      requires start <= current
    {
      Lexeme(kind, start, current - start, line, NoValue)
    }

    /** lit_lex_matchchar: consume the current character when it is the expected one (never the NUL). */
    method MatchChar(expected: char) returns (r: bool)
      requires Valid() && current < |source|
      modifies this`current
      ensures Valid() && current < |source|
      ensures r == (source[old(current)] != '\0' && source[old(current)] == expected)
      ensures current == if r then old(current) + 1 else old(current)
    {
      if source[current] == '\0' {
        return false;
      }
      if source[current] != expected {
        return false;
      }
      current := current + 1;
      return true;
    }

    /** lit_lex_matchtoken: a if the next character is c, else b. */
    method MatchToken(c: char, a: TokenType, b: TokenType) returns (t: Token)
      requires Valid() && current < |source|
      modifies this`current
      ensures Valid() && current < |source|
      ensures var m := source[old(current)] != '\0' && source[old(current)] == c;
        current == (if m then old(current) + 1 else old(current)) && t == MakeToken(if m then a else b)
    {
      var m := MatchChar(c);
      t := MakeToken(if m then a else b);
    }

    /** lit_lex_matchntoken: a if the next character is cr, else b if it is cb, else c. */
    method MatchNToken(cr: char, cb: char, a: TokenType, b: TokenType, c: TokenType) returns (t: Token)
      requires Valid() && current < |source|
      modifies this`current
      ensures Valid() && current < |source|
      ensures var x := source[old(current)];
        var k := if x != '\0' && x == cr then a else if x != '\0' && x == cb then b else c;
        current == (if x != '\0' && (x == cr || x == cb) then old(current) + 1 else old(current)) && t == MakeToken(k)
    {
      var m := MatchChar(cr);
      if m {
        t := MakeToken(a);
      } else {
        var n := MatchChar(cb);
        t := MakeToken(if n then b else c);
      }
    }

    /** lit_lex_skipspace; the two tail calls of the source are iterations of the outer loop. */
    method SkipSpace() returns (newline: bool)
      requires Valid() && current < |source|
      modifies this`start, this`current, this`line
      ensures Valid() && current < |source|
      ensures var sk := SkipFrom(source, old(current));
        newline == sk.newline && current == sk.end && line == old(line) + sk.newlines
        && start == (if newline then sk.end - 1 else old(start))
    {
      ghost var target := SkipFrom(source, current);
      ghost var line0 := line;
      while true
        invariant Valid() && current < |source| && start == old(start)
        invariant SkipFrom(source, current).end == target.end
        invariant SkipFrom(source, current).newline == target.newline
        invariant line - line0 + SkipFrom(source, current).newlines == target.newlines
        decreases |source| - current
      {
        ghost var here := SkipFrom(source, current);
        var c := source[current];
        if c == ' ' || c == '\r' || c == '\t' {
          current := current + 1;
          assert SkipFrom(source, current) == here;
        } else if c == '\n' {
          assert here == Skip(current + 1, 0, true);
          start := current;
          current := current + 1;
          return true;
        } else if c == '/' && PeekNext() == '/' {
          SkipLineComment();
        } else if c == '/' && PeekNext() == '*' {
          SkipBlockComment();
        } else {
          assert here == Skip(current, 0, false);
          return false;
        }
      }
    }

    /** The line-comment branch of lit_lex_skipspace: up to the newline or the NUL. */
    method SkipLineComment()
      requires Valid() && current < |source| && CommentStart(source, current) && source[current + 1] == '/'
      modifies this`current
      ensures Valid() && current == LineEnd(source, old(current))
      ensures SkipFrom(source, current) == SkipFrom(source, old(current))
    {
      ghost var k := LineEnd(source, current);
      while source[current] != '\n' && source[current] != '\0'
        invariant Valid() && current < |source| && LineEnd(source, current) == k
        decreases |source| - current
      {
        current := current + 1;
      }
    }

    /**
     * The block-comment branch of lit_lex_skipspace, corrected: the newlines
     * of the body are counted, and the closing star and slash are stepped
     * over only when they are there.
     */
    method SkipBlockComment()
      requires Valid() && current < |source| && CommentStart(source, current) && source[current + 1] == '*'
      modifies this`current, this`line
      ensures Valid() && current < |source|
      ensures var b := BlockEnd(source, old(current) + 2);
        current == BlockResume(source, b.at) && line == old(line) + b.newlines
      ensures var r := SkipFrom(source, current); var r0 := SkipFrom(source, old(current));
        r0 == Skip(r.end, BlockEnd(source, old(current) + 2).newlines + r.newlines, r.newline)
    {
      current := current + 2;
      ghost var b := BlockEnd(source, current);
      ghost var line0 := line;
      while (source[current] != '*' || PeekNext() != '/') && source[current] != '\0'
        invariant Valid() && current < |source|
        invariant BlockEnd(source, current).at == b.at
        invariant line - line0 + BlockEnd(source, current).newlines == b.newlines
        decreases |source| - current
      {
        if source[current] == '\n' {
          line := line + 1;
        }
        current := current + 1;
      }
      if source[current] != '\0' {
        current := current + 2;
      }
    }

    /**
     * lit_lex_scanstring, from the first character of the body. The body is
     * read by ScanBody; a segment that ends at an opening brace pushes a
     * brace counter of 1.
     */
    method ScanString(interpolation: bool) returns (t: Token)
      requires Valid() && current < |source|
      modifies this`current, this`line, this`numBraces, this`hadError, braces
      ensures Valid()
      ensures (t, State()) == StringStep(source, old(State()), interpolation)
    {
      ghost var s0 := State();
      var full := numBraces >= MAX_INTERPOLATION_NESTING;
      var bytes, failure, interp := ScanBody(interpolation, full);
      if failure.Some? {
        StringStepFailed(source, s0, interpolation, failure.value, current, line - s0.line);
        hadError := true;
        t := ErrorToken(failure.value, line);
      } else {
        StringStepClosed(source, s0, interpolation, bytes, current, line - s0.line, interp);
        if interp {
          braces[numBraces] := 1;
          numBraces := numBraces + 1;
          assert braces[..numBraces] == s0.braces + [1];
        }
        t := Lexeme(if interp then Interpolation else String, start, current - start, line, Text(bytes));
      }
    }

    /**
     * The loop of lit_lex_scanstring: the bytes are collected one by one
     * until the closing quote, the opening brace of a segment (which fails
     * when full), the NUL or a bad escape.
     */
    method ScanBody(interpolation: bool, full: bool) returns (bytes: seq<char>, failure: Option<LexError>, interp: bool)
      requires Valid() && current < |source|
      modifies this`current, this`line
      ensures Valid() && line >= old(line)
      ensures var o := ScanStr(source, old(current), interpolation, full);
        if failure.Some? then o == Failed(failure.value, current, line - old(line))
        else o == Closed(bytes, current, line - old(line), interp)
    {
      ghost var target := ScanStr(source, current, interpolation, full);
      ghost var line0 := line;
      ghost var start0 := start;
      bytes := [];
      while true
        invariant Valid() && start == start0 && current < |source| && line >= line0
        invariant target == Shifted(bytes, line - line0, ScanStr(source, current, interpolation, full))
        decreases |source| - current
      {
        ghost var line1 := line;
        var d, f, ip, stop := ScanChar(interpolation, full);
        if stop {
          failure, interp := f, ip;
          break;
        }
        ShiftedPrepend(bytes, line1 - line0, d, line - line1, ScanStr(source, current, interpolation, full));
        bytes := bytes + [d];
      }
    }

    /**
     * One pass of the loop of lit_lex_scanstring: either it stops the
     * string (closed, or failed with an error) or it yields one decoded
     * byte, a raw newline counting a line.
     */
    method ScanChar(interpolation: bool, full: bool) returns (d: char, failure: Option<LexError>, interp: bool, stop: bool)
      requires Valid() && current < |source|
      modifies this`current, this`line
      ensures Valid() && old(current) < current
      ensures stop ==> (line == old(line) && ScanStr(source, old(current), interpolation, full) ==
        (if failure.Some? then Failed(failure.value, current, 0) else Closed([], current, 0, interp)))
      ensures !stop ==> (current < |source| && old(line) <= line <= old(line) + 1 &&
        ScanStr(source, old(current), interpolation, full) == Prepend(d, line - old(line), ScanStr(source, current, interpolation, full)))
    {
      var c := source[current];
      current := current + 1;
      d, failure, interp, stop := c, None, false, true;
      if c == '"' {
        return;
      } else if interpolation && c == '{' {
        if full {
          failure := Some(InterpolationNestingTooDeep);
        } else {
          interp := true;
        }
        return;
      }
      if c == '\0' {
        failure := Some(UnterminatedString);
      } else if c == '\\' {
        var e := source[current];
        current := current + 1;
        match Escape(e)
        case None =>
          failure := Some(InvalidEscapeChar(e));
        case Some(x) =>
          ScanStrEscape(source, current - 2, interpolation, full, x);
          d, stop := x, false;
      } else {
        ScanStrRaw(source, current - 1, interpolation, full);
        if c == '\n' {
          line := line + 1;
        }
        stop := false;
      }
    }

    /** lit_lex_scanhexdigit: the digit's value, consuming it, or -1 without consuming. */
    method ScanHexDigit() returns (d: int)
      requires Valid() && current < |source|
      modifies this`current
      ensures Valid() && current < |source|
      ensures d == HexDigitValue(source[old(current)])
      ensures current == if d == -1 then old(current) else old(current) + 1
    {
      var c := source[current];
      current := current + 1;
      if '0' <= c <= '9' {
        return c as int - '0' as int;
      }
      if 'a' <= c <= 'f' {
        return c as int - 'a' as int + 10;
      }
      if 'A' <= c <= 'F' {
        return c as int - 'A' as int + 10;
      }
      current := current - 1;
      return -1;
    }

    /** lit_lex_scanbinarydigit */
    method ScanBinaryDigit() returns (d: int)
      requires Valid() && current < |source|
      modifies this`current
      ensures Valid() && current < |source|
      ensures d == BinaryDigitValue(source[old(current)])
      ensures current == if d == -1 then old(current) else old(current) + 1
    {
      var c := source[current];
      current := current + 1;
      if '0' <= c <= '1' {
        return c as int - '0' as int;
      }
      current := current - 1;
      return -1;
    }

    /**
     * lit_lex_scannumber, after the first digit: the token ends where
     * NumberEnd says, and lit_lex_makenumbertoken gives it the value
     * NumberLiteral says (the corrected one for binary numbers), or makes
     * it a NUMBER_IS_TOO_BIG error. The value of a decimal number, which
     * strtod computes, and the ERANGE it may set are not modelled.
     */
    method ScanNumber() returns (t: Token)
      requires Valid() && current == start + 1 && current < |source| && IsDigit(source[start])
      modifies this`current, this`hadError
      ensures Valid() && current == NumberEnd(source, old(current))
      ensures (t, State()) == NumberStep(source, old(State()))
    {
      var x := MatchChar('x');
      if x {
        ScanHexDigits();
      } else {
        var b := MatchChar('b');
        if b {
          ScanBinaryDigits();
        } else {
          ScanDecimal();
        }
      }
      t := MakeNumberToken();
    }

    /** lit_lex_makenumbertoken: the token of the number that ends at the cursor, or the error. */
    method MakeNumberToken() returns (t: Token)
      requires Valid() && start < current < |source| && IsDigit(source[start])
      modifies this`hadError
      ensures Valid()
      ensures (t, State()) == NumberToken(source, old(State()))
    {
      match NumberLiteral(source, start)
      case TooBig =>
        hadError := true;
        t := ErrorToken(NumberIsTooBig, line);
      case Integer(n) =>
        t := Lexeme(Number, start, current - start, line, IntegerValue(n));
      case Floating =>
        t := MakeToken(Number);
    }

    /** The hex-digit loop of lit_lex_scannumber. */
    method ScanHexDigits()
      requires Valid() && start < current < |source|
      modifies this`current
      ensures Valid() && start < current && current == DigitsEnd(source, old(current), Hexadecimal)
    {
      ghost var k := DigitsEnd(source, current, Hexadecimal);
      var d := ScanHexDigit();
      while d != -1
        invariant Valid() && start < current < |source| && DigitsEnd(source, current, Hexadecimal) == k
        invariant d == -1 ==> current == k
        decreases |source| - current + (if d == -1 then 0 else 1)
      {
        d := ScanHexDigit();
      }
    }

    /** The binary-digit loop of lit_lex_scannumber. */
    method ScanBinaryDigits()
      requires Valid() && start < current < |source|
      modifies this`current
      ensures Valid() && start < current && current == DigitsEnd(source, old(current), Binary)
    {
      ghost var k := DigitsEnd(source, current, Binary);
      var d := ScanBinaryDigit();
      while d != -1
        invariant Valid() && start < current < |source| && DigitsEnd(source, current, Binary) == k
        invariant d == -1 ==> current == k
        decreases |source| - current + (if d == -1 then 0 else 1)
      {
        d := ScanBinaryDigit();
      }
    }

    /** The decimal part of lit_lex_scannumber: the digits, then a '.' and the fraction when a digit follows it. */
    method ScanDecimal()
      requires Valid() && start < current < |source| && source[current] != 'x' && source[current] != 'b'
      modifies this`current
      ensures Valid() && current == NumberEnd(source, old(current))
    {
      ScanDecimalDigits();
      if source[current] == '.' && IsDigit(PeekNext()) {
        current := current + 1;
        ScanDecimalDigits();
      }
    }

    /** A decimal-digit loop of lit_lex_scannumber. */
    method ScanDecimalDigits()
      requires Valid() && start < current < |source|
      modifies this`current
      ensures Valid() && start < current && current == DigitsEnd(source, old(current), Decimal)
    {
      ghost var k := DigitsEnd(source, current, Decimal);
      while IsDigit(source[current])
        invariant Valid() && start < current < |source| && DigitsEnd(source, current, Decimal) == k
        decreases |source| - current
      {
        current := current + 1;
      }
    }

    /** lit_lex_scanidentifier: the longest run of letters, digits and '_', typed by the corrected keyword trie IdentType. */
    method ScanIdentifier() returns (t: Token)
      requires Valid() && current == start + 1 && current < |source|
      modifies this`current
      ensures Valid() && current == IdentEnd(source, old(current))
      ensures (t, State()) == WordStep(source, old(State()))
    {
      ghost var k := IdentEnd(source, current);
      while IsAlpha(source[current]) || IsDigit(source[current])
        invariant Valid() && start < current < |source| && IdentEnd(source, current) == k
        decreases |source| - current
      {
        current := current + 1;
      }
      t := MakeToken(IdentType(source[start..current]));
    }

    /** The operator cases of lit_lex_scantoken and its UNEXPECTED_CHAR default. */
    method ScanOperator(c: char) returns (t: Token)
      requires Valid() && current == start + 1 && current < |source| && source[start] == c && c != '\0'
      modifies this`current, this`hadError
      ensures Valid()
      ensures (t, State()) == OperatorStep(source, old(State()), c)
    {
      if c == '(' || c == ')' || c == '[' || c == ']' || c == ';' || c == ',' || c == ':' || c == '~' {
        t := ScanSingle(c);
      } else if c == '+' || c == '-' || c == '/' || c == '#' || c == '!' || c == '?' || c == '%' || c == '^' {
        t := ScanArithmetic(c);
      } else {
        t := ScanComparison(c);
      }
    }

    /** The operators that are never followed by a second character. */
    method ScanSingle(c: char) returns (t: Token)
      requires c == '(' || c == ')' || c == '[' || c == ']' || c == ';' || c == ',' || c == ':' || c == '~'
      requires Valid() && current == start + 1 && current < |source| && source[start] == c && c != '\0'
      modifies this`current, this`hadError
      ensures Valid()
      ensures (t, State()) == OperatorStep(source, old(State()), c)
    {
      PunctAt(source, start);
      match c
      case '(' => t := MakeToken(LeftParen);
      case ')' => t := MakeToken(RightParen);
      case '[' => t := MakeToken(LeftBracket);
      case ']' => t := MakeToken(RightBracket);
      case ';' => t := MakeToken(Semicolon);
      case ',' => t := MakeToken(Comma);
      case ':' => t := MakeToken(Colon);
      case '~' => t := MakeToken(Tilde);
    }

    /** The operators built on + - / # ! ? % ^. */
    method ScanArithmetic(c: char) returns (t: Token)
      requires c == '+' || c == '-' || c == '/' || c == '#' || c == '!' || c == '?' || c == '%' || c == '^'
      requires Valid() && current == start + 1 && current < |source| && source[start] == c && c != '\0'
      modifies this`current, this`hadError
      ensures Valid()
      ensures (t, State()) == OperatorStep(source, old(State()), c)
    {
      PunctAt(source, start);
      match c
      case '+' => t := MatchNToken('=', '+', PlusEqual, PlusPlus, Plus);
      case '-' =>
        var m := MatchChar('>');
        if m {
          t := MakeToken(SmallArrow);
        } else {
          t := MatchNToken('=', '-', MinusEqual, MinusMinus, Minus);
        }
      case '/' => t := MatchToken('=', SlashEqual, Slash);
      case '#' => t := MatchToken('=', SharpEqual, Sharp);
      case '!' => t := MatchToken('=', BangEqual, Bang);
      case '?' => t := MatchToken('?', QuestionQuestion, Question);
      case '%' => t := MatchToken('=', PercentEqual, Percent);
      case '^' => t := MatchToken('=', CaretEqual, Caret);
    }

    /** The operators built on > < * = | & and the dot, and the UNEXPECTED_CHAR default. */
    method ScanComparison(c: char) returns (t: Token)
      requires !(c == '(' || c == ')' || c == '[' || c == ']' || c == ';' || c == ',' || c == ':' || c == '~')
      requires !(c == '+' || c == '-' || c == '/' || c == '#' || c == '!' || c == '?' || c == '%' || c == '^')
      requires Valid() && current == start + 1 && current < |source| && source[start] == c && c != '\0'
      modifies this`current, this`hadError
      ensures Valid()
      ensures (t, State()) == OperatorStep(source, old(State()), c)
    {
      PunctAt(source, start);
      match c
      case '>' => t := MatchNToken('=', '>', GreaterEqual, GreaterGreater, Greater);
      case '<' => t := MatchNToken('=', '<', LessEqual, LessLess, Less);
      case '*' => t := MatchNToken('=', '*', StarEqual, StarStar, Star);
      case '=' => t := MatchNToken('=', '>', EqualEqual, Arrow, Equal);
      case '|' => t := MatchNToken('=', '|', BarEqual, BarBar, Bar);
      case '&' => t := MatchNToken('=', '&', AmpersandEqual, AmpersandAmpersand, Ampersand);
      case '.' =>
        var m := MatchChar('.');
        if !m {
          t := MakeToken(Dot);
        } else {
          t := MatchToken('.', DotDotDot, DotDot);
        }
      case _ =>
        hadError := true;
        t := ErrorToken(UnexpectedChar(c), line);
    }

    /** lit_lex_scantoken once the first character c of the token has been consumed. */
    method ScanAfter(c: char) returns (t: Token)
      requires Valid() && current == start + 1 && current < |source| && source[start] == c && c != '\0'
      modifies this`current, this`line, this`numBraces, this`hadError, braces
      ensures Valid()
      ensures (t, State()) == After(source, old(State()), c)
    {
      if IsDigit(c) {
        t := ScanNumber();
      } else if IsAlpha(c) {
        t := ScanIdentifier();
      } else if c == '{' {
        t := OpenBrace();
      } else if c == '}' {
        t := CloseBrace();
      } else if c == '$' {
        t := ScanDollar();
      } else if c == '"' {
        t := ScanString(false);
      } else {
        t := ScanOperator(c);
      }
    }

    /** The '{' case of lit_lex_scantoken: the innermost brace counter, if any, goes up. */
    method OpenBrace() returns (t: Token)
      requires Valid() && current == start + 1 && current < |source| && source[start] == '{'
      modifies braces
      ensures (t, State()) == OpenBraceStep(old(State()))
    {
      ghost var s0 := State();
      if numBraces > 0 {
        braces[numBraces - 1] := braces[numBraces - 1] + 1;
        assert braces[..numBraces] == s0.braces[..numBraces - 1] + [s0.braces[numBraces - 1] + 1];
      }
      t := MakeToken(LeftBrace);
    }

    /**
     * The '}' case of lit_lex_scantoken: the innermost brace counter goes
     * down, and when it reaches 0 the interpolated string resumes.
     */
    method CloseBrace() returns (t: Token)
      requires Valid() && current == start + 1 && current < |source| && source[start] == '}'
      modifies this`current, this`line, this`numBraces, this`hadError, braces
      ensures Valid()
      ensures (t, State()) == CloseBraceStep(source, old(State()))
    {
      ghost var s0 := State();
      if numBraces > 0 {
        braces[numBraces - 1] := braces[numBraces - 1] - 1;
        assert braces[..numBraces] == s0.braces[..numBraces - 1] + [s0.braces[numBraces - 1] - 1];
        if braces[numBraces - 1] == 0 {
          numBraces := numBraces - 1;
          assert braces[..numBraces] == s0.braces[..numBraces];
          t := ScanString(true);
          return;
        }
      }
      t := MakeToken(RightBrace);
    }

    /** The '$' case of lit_lex_scantoken: an interpolated string, or CHAR_EXPECTATION_UNMET. */
    method ScanDollar() returns (t: Token)
      requires Valid() && current == start + 1 && current < |source| && source[start] == '$'
      modifies this`current, this`line, this`numBraces, this`hadError, braces
      ensures Valid()
      ensures (t, State()) == DollarStep(source, old(State()))
    {
      var m := MatchChar('"');
      if !m {
        hadError := true;
        t := ErrorToken(CharExpectationUnmet(source[current]), line);
        return;
      }
      t := ScanString(true);
    }

    /**
     * lit_lex_scantoken: one token from the cursor, which must be inside
     * the buffer.
     */
    method ScanToken() returns (t: Token)
      requires Valid() && current < |source|
      modifies this`start, this`current, this`line, this`numBraces, this`hadError, braces
      ensures Valid()
      ensures (t, State()) == Step(source, old(State()))
    {
      ghost var s0 := State();
      var newline := SkipSpace();
      if newline {
        t := MakeToken(NewLine);
        line := line + 1;
        return;
      }
      start := current;
      ghost var sk := SkipFrom(source, s0.current);
      ghost var at := State();
      assert at == s0.(start := sk.end, current := sk.end, line := s0.line + sk.newlines);
      StepToStart(source, s0);
      t := ScanStart();
      assert (t, State()) == Start(source, at);
    }

    /** The rest of lit_lex_scantoken, from the token start. */
    method ScanStart() returns (t: Token)
      requires Valid() && start == current < |source|
      modifies this`current, this`line, this`numBraces, this`hadError, braces
      ensures Valid()
      ensures (t, State()) == Start(source, old(State()))
    {
      if source[current] == '\0' {
        return MakeToken(Eof);
      }
      var c := source[current];
      current := current + 1;
      t := ScanAfter(c);
    }
  }
}
